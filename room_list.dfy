/**
 * The chat page's list of rooms and the three pure updaters applied to it:
 * the delete `filter`, the rename `map` and the initial sort by id.
 */
module RoomList {
  import opened JsText

  /** A room as the page holds it: the directory's id and its display name. */
  datatype Room = Room(id: string, name: string)

  /** `rooms.filter((room) => room.id !== id)` */
  function RemoveRoom(rooms: seq<Room>, id: string): (r: seq<Room>)
    ensures forall x :: x in r <==> x in rooms && x.id != id
    ensures |r| <= |rooms|
  {
    if rooms == [] then []
    else if rooms[0].id == id then RemoveRoom(rooms[1..], id)
    else [rooms[0]] + RemoveRoom(rooms[1..], id)
  }

  /** The filter keeps relative order: it distributes over concatenation. */
  lemma {:induction false} RemoveRoomDistributes(a: seq<Room>, b: seq<Room>, id: string)
    ensures RemoveRoom(a + b, id) == RemoveRoom(a, id) + RemoveRoom(b, id)
  {
    if a != [] {
      assert (a + b)[1..] == a[1..] + b;
      RemoveRoomDistributes(a[1..], b, id);
    } else {
      assert a + b == b;
    }
  }

  /** Deleting an id that no room carries leaves the list as it was. */
  lemma {:induction false} RemoveAbsentRoom(rooms: seq<Room>, id: string)
    requires forall i :: 0 <= i < |rooms| ==> rooms[i].id != id
    ensures RemoveRoom(rooms, id) == rooms
  {
    if rooms != [] {
      RemoveAbsentRoom(rooms[1..], id);
    }
  }

  /** Filtering twice by the same id is filtering once. */
  lemma {:induction false} RemoveRoomIdempotent(rooms: seq<Room>, id: string)
    ensures RemoveRoom(RemoveRoom(rooms, id), id) == RemoveRoom(rooms, id)
  {
    var r := RemoveRoom(rooms, id);
    forall i | 0 <= i < |r| ensures r[i].id != id {
      assert r[i] in r;
    }
    RemoveAbsentRoom(r, id);
  }

  /** `rooms.map((r) => (r.id === id ? { ...r, name } : r))` */
  function RenameRoom(rooms: seq<Room>, id: string, name: string): (r: seq<Room>)
    ensures |r| == |rooms|
    ensures forall i :: 0 <= i < |rooms| ==> r[i].id == rooms[i].id
    ensures forall i :: 0 <= i < |rooms| ==> r[i].name == if rooms[i].id == id then name else rooms[i].name
  {
    if rooms == [] then []
    else [if rooms[0].id == id then rooms[0].(name := name) else rooms[0]] + RenameRoom(rooms[1..], id, name)
  }

  /** Rooms in descending id order, as `(a, b) => (a.id > b.id ? -1 : 1)` arranges them. */
  ghost predicate SortedByIdDesc(s: seq<Room>) {
    forall i, j :: 0 <= i < j < |s| ==> !Less(s[i].id, s[j].id)
  }

  /** Inserts `x` before the first room whose id is not greater than `x`'s. */
  function InsertByIdDesc(x: Room, s: seq<Room>): (r: seq<Room>)
    requires SortedByIdDesc(s)
    ensures multiset(r) == multiset(s) + multiset{x}
    ensures SortedByIdDesc(r)
  {
    if s == [] then [x]
    else if Less(x.id, s[0].id) then
      var rest := InsertByIdDesc(x, s[1..]);
      HeadStaysFirst(s, x, rest);
      assert s == [s[0]] + s[1..];
      [s[0]] + rest
    else
      GreatestGoesFirst(x, s);
      [x] + s
  }

  /** A room whose id is at least the head's may go in front of a sorted list. */
  lemma GreatestGoesFirst(x: Room, s: seq<Room>)
    requires SortedByIdDesc(s) && s != [] && !Less(x.id, s[0].id)
    ensures SortedByIdDesc([x] + s)
  {
    forall k | 0 <= k < |s| ensures !Less(x.id, s[k].id) {
      if k > 0 {
        NotLessTransitive(x.id, s[0].id, s[k].id);
      }
    }
    var r := [x] + s;
    assert forall i :: 1 <= i < |r| ==> r[i] == s[i - 1];
  }

  /** The head of a sorted list stays in front when a smaller room is inserted into its tail. */
  lemma HeadStaysFirst(s: seq<Room>, x: Room, rest: seq<Room>)
    requires SortedByIdDesc(s) && s != [] && Less(x.id, s[0].id)
    requires multiset(rest) == multiset(s[1..]) + multiset{x} && SortedByIdDesc(rest)
    ensures SortedByIdDesc([s[0]] + rest)
  {
    forall k | 0 <= k < |rest| ensures !Less(s[0].id, rest[k].id) {
      assert rest[k] in multiset(rest);
      if rest[k] == x {
        LessAsymmetric(x.id, s[0].id);
      } else {
        assert rest[k] in s[1..];
      }
    }
    var r := [s[0]] + rest;
    assert forall i :: 1 <= i < |r| ==> r[i] == rest[i - 1];
  }

  /** The initial `sort`: a permutation of the input in descending id order. */
  function SortByIdDesc(s: seq<Room>): (r: seq<Room>)
    ensures multiset(r) == multiset(s)
    ensures |r| == |s|
    ensures SortedByIdDesc(r)
  {
    if s == [] then []
    else
      assert s == [s[0]] + s[1..];
      var r := InsertByIdDesc(s[0], SortByIdDesc(s[1..]));
      assert |r| == |multiset(r)|;
      r
  }

  /** The room the initial load makes current carries the greatest id of the list. */
  lemma SortedHeadHasGreatestId(s: seq<Room>)
    requires s != []
    ensures forall x :: x in s ==> !Less(SortByIdDesc(s)[0].id, x.id)
  {
    var r := SortByIdDesc(s);
    forall x | x in s ensures !Less(r[0].id, x.id) {
      assert x in multiset(s);
      assert x in multiset(r);
      var j :| 0 <= j < |r| && r[j] == x;
      if j == 0 {
        LessIrreflexive(x.id);
      }
    }
  }

  /** Rooms that carry the same id are the same room. */
  predicate IdsIdentify(s: seq<Room>) {
    forall x, y :: x in s && y in s && x.id == y.id ==> x == y
  }

  /**
   * When an id identifies a room, only one arrangement of a list is in
   * descending id order, so every correct sort, whatever its algorithm,
   * arrives at the same list.
   */
  lemma {:induction false} SortedIsUnique(a: seq<Room>, b: seq<Room>)
    requires multiset(a) == multiset(b) && IdsIdentify(a)
    requires SortedByIdDesc(a) && SortedByIdDesc(b)
    ensures a == b
  {
    assert |a| == |multiset(a)| == |multiset(b)| == |b|;
    if a != [] {
      SortedHeadsAgree(a, b);
      TailsAgree(a, b);
      SortedIsUnique(a[1..], b[1..]);
    }
  }

  /** Both sorted lists start with the room of greatest id. */
  lemma SortedHeadsAgree(a: seq<Room>, b: seq<Room>)
    requires multiset(a) == multiset(b) && IdsIdentify(a) && a != [] && |b| == |a|
    requires SortedByIdDesc(a) && SortedByIdDesc(b)
    ensures a[0] == b[0]
  {
    assert a[0] in multiset(b) && b[0] in multiset(a);
    var j :| 0 <= j < |b| && b[j] == a[0];
    var i :| 0 <= i < |a| && a[i] == b[0];
    LessIrreflexive(a[0].id);
    assert !Less(a[0].id, a[i].id);
    assert !Less(b[0].id, b[j].id);
    LessTotal(a[0].id, b[0].id);
  }

  /** Equal heads leave the tails with equal contents, still identified by id. */
  lemma TailsAgree(a: seq<Room>, b: seq<Room>)
    requires multiset(a) == multiset(b) && IdsIdentify(a) && a != [] && b != [] && a[0] == b[0]
    ensures multiset(a[1..]) == multiset(b[1..]) && IdsIdentify(a[1..])
  {
    assert a == [a[0]] + a[1..] && b == [b[0]] + b[1..];
    assert multiset(a) == multiset{a[0]} + multiset(a[1..]);
    assert multiset(b) == multiset{b[0]} + multiset(b[1..]);
    forall x ensures multiset(a[1..])[x] == multiset(b[1..])[x] {
      assert multiset(a)[x] == multiset{a[0]}[x] + multiset(a[1..])[x];
      assert multiset(b)[x] == multiset{b[0]}[x] + multiset(b[1..])[x];
    }
    forall x, y | x in a[1..] && y in a[1..] && x.id == y.id ensures x == y {
      assert x in a && y in a;
    }
  }

  /** Any descending arrangement of the rooms is what the initial sort produced. */
  lemma SortIsTheDescendingOrder(s: seq<Room>, t: seq<Room>)
    requires IdsIdentify(s) && multiset(t) == multiset(s) && SortedByIdDesc(t)
    ensures SortByIdDesc(s) == t
  {
    var r := SortByIdDesc(s);
    assert forall x :: x in r <==> x in s by {
      forall x ensures x in r <==> x in s {
        assert x in r <==> x in multiset(r);
        assert x in s <==> x in multiset(s);
      }
    }
    SortedIsUnique(r, t);
  }
}
