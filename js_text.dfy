/**
 * The two JavaScript string operations the chat page relies on:
 * `String.prototype.trim` (used to reject blank input) and the relational
 * comparison `a < b` of two strings (used to sort rooms by id).
 */
module JsText {

  /** WhiteSpace and LineTerminator code points of ECMA-262, the set that `trim` removes. */
  predicate IsWhiteSpace(c: char) {
    || c == '\t' || c == '\U{000B}' || c == '\U{000C}' || c == ' '
    || c == '\U{00A0}' || c == '\U{FEFF}' || c == '\U{1680}'
    || ('\U{2000}' <= c <= '\U{200A}')
    || c == '\U{202F}' || c == '\U{205F}' || c == '\U{3000}'
    || c == '\n' || c == '\r' || c == '\U{2028}' || c == '\U{2029}'
  }

  /** Every character of `s` is white space (the empty string included). */
  predicate IsBlank(s: string) {
    forall i :: 0 <= i < |s| ==> IsWhiteSpace(s[i])
  }

  /** Drops the leading white space. */
  function TrimStart(s: string): (r: string)
    ensures |r| <= |s| && r == s[|s| - |r|..]
    ensures IsBlank(s[..|s| - |r|])
    ensures r == [] || !IsWhiteSpace(r[0])
  {
    if s != [] && IsWhiteSpace(s[0]) then
      var t := s[1..];
      var r := TrimStart(t);
      assert s[|s| - |r|..] == t[|t| - |r|..];
      assert s[..|s| - |r|] == [s[0]] + t[..|t| - |r|];
      r
    else s
  }

  /** Drops the trailing white space. */
  function TrimEnd(s: string): (r: string)
    ensures |r| <= |s| && r == s[..|r|]
    ensures IsBlank(s[|r|..])
    ensures r == [] || !IsWhiteSpace(r[|r| - 1])
  {
    if s != [] && IsWhiteSpace(s[|s| - 1]) then
      var t := s[..|s| - 1];
      var r := TrimEnd(t);
      assert s[..|r|] == t[..|r|];
      assert s[|r|..] == t[|r|..] + [s[|s| - 1]];
      r
    else s
  }

  /** `s.trim()`: no longer than the input, and neither end of a non-empty result is white space. */
  function Trim(s: string): (r: string)
    ensures |r| <= |s|
    ensures r == [] || (!IsWhiteSpace(r[0]) && !IsWhiteSpace(r[|r| - 1]))
  {
    TrimEnd(TrimStart(s))
  }

  /** `!s.trim()` holds exactly when the string is blank. */
  lemma {:induction false} TrimEmptyIffBlank(s: string)
    ensures Trim(s) == [] <==> IsBlank(s)
  {
    var t := TrimStart(s);
    if t == [] {
      assert s[..|s|] == s;
      assert Trim(s) == TrimEnd([]) == [];
    } else {
      assert !IsWhiteSpace(t[0]);
      assert s[|s| - |t|] == t[0];
      assert !IsBlank(s);
    }
  }

  /**
   * JavaScript's `a < b` on strings: element-wise lexicographic comparison,
   * a proper prefix being smaller.
   */
  predicate Less(a: string, b: string)
    ensures Less(a, b) ==> b != [] && a != b
    decreases |a|
  {
    if b == [] then false
    else if a == [] then true
    else if a[0] != b[0] then a[0] < b[0]
    else Less(a[1..], b[1..])
  }

  /** `k` is the first index at which `a` and `b` differ. */
  ghost predicate FirstDifference(a: string, b: string, k: int) {
    0 <= k < |a| && k < |b| && a[..k] == b[..k] && a[k] != b[k]
  }

  /**
   * The comparison as IsLessThan (section 7.2.13 of ECMA-262) states it: `a` is a
   * proper prefix of `b`, or at the first index where they differ `a`'s
   * character is the smaller.
   */
  lemma {:induction false} LessIsFirstDifference(a: string, b: string)
    ensures Less(a, b) <==>
      (|a| < |b| && a == b[..|a|]) || (exists k :: FirstDifference(a, b, k) && a[k] < b[k])
    decreases |a|
  {
    if b == [] {
    } else if a == [] {
      assert a == b[..0];
    } else if a[0] != b[0] {
      assert FirstDifference(a, b, 0);
      forall k | FirstDifference(a, b, k) ensures k == 0 {
      }
    } else {
      var a', b' := a[1..], b[1..];
      LessIsFirstDifference(a', b');
      assert a == [a[0]] + a' && b == [b[0]] + b';
      assert |a| < |b| && a == b[..|a|] <==> |a'| < |b'| && a' == b'[..|a'|] by {
        if |a| < |b| && a == b[..|a|] {
          assert a' == b[..|a|][1..] == b'[..|a'|];
        }
        if |a'| < |b'| && a' == b'[..|a'|] {
          assert b[..|a|] == [b[0]] + b'[..|a'|];
        }
      }
      forall k | FirstDifference(a, b, k) ensures k > 0 && FirstDifference(a', b', k - 1) {
        assert a'[..k - 1] == a[..k][1..] && b'[..k - 1] == b[..k][1..];
      }
      forall k | FirstDifference(a', b', k) ensures FirstDifference(a, b, k + 1) {
        assert a[..k + 1] == [a[0]] + a'[..k] && b[..k + 1] == [b[0]] + b'[..k];
      }
    }
  }

  lemma {:induction false} LessIrreflexive(a: string)
    ensures !Less(a, a)
    decreases |a|
  {
    if a != [] {
      LessIrreflexive(a[1..]);
    }
  }

  lemma {:induction false} LessTransitive(a: string, b: string, c: string)
    requires Less(a, b) && Less(b, c)
    ensures Less(a, c)
    decreases |a|
  {
    if a != [] && a[0] == b[0] && b[0] == c[0] {
      LessTransitive(a[1..], b[1..], c[1..]);
    }
  }

  lemma {:induction false} LessTotal(a: string, b: string)
    ensures a == b || Less(a, b) || Less(b, a)
    decreases |a|
  {
    if a != [] && b != [] && a[0] == b[0] {
      LessTotal(a[1..], b[1..]);
      if a[1..] == b[1..] {
        assert a == [a[0]] + a[1..] && b == [b[0]] + b[1..];
      }
    }
  }

  lemma LessAsymmetric(a: string, b: string)
    requires Less(a, b)
    ensures !Less(b, a)
  {
    if Less(b, a) {
      LessTransitive(a, b, a);
      LessIrreflexive(a);
    }
  }

  /** "Not smaller" is transitive: the fact insertion by descending id relies on. */
  lemma NotLessTransitive(a: string, b: string, c: string)
    requires !Less(a, b) && !Less(b, c)
    ensures !Less(a, c)
  {
    LessTotal(a, b);
    LessTotal(b, c);
    if a != b && b != c {
      LessTransitive(c, b, a);
      LessAsymmetric(c, a);
    }
  }
}
