/**
 * The chat page's message log and the pure updaters applied to it: the
 * feedback toggle `map` and the reset run whenever the current room changes.
 */
module MessageLog {
  import opened Wrappers
  import opened RoomList

  datatype Role = User | Assistant

  datatype Vote = Up | Down

  /**
   * One chat message. `feedback` None stands for both `null` (assistant
   * messages) and an absent field (user messages); both compare unequal to a vote.
   */
  datatype Message = Message(id: string, role: Role, content: string, roomId: string, feedback: Option<Vote>)

  function Other(v: Vote): Vote {
    if v == Up then Down else Up
  }

  /** `msg.feedback === feedback ? null : feedback` */
  function Toggled(current: Option<Vote>, v: Vote): (r: Option<Vote>)
    ensures r == None <==> current == Some(v)
    ensures r.Some? ==> r.value == v
  {
    if current == Some(v) then None else Some(v)
  }

  /**
   * `prev.map((msg) => msg.id === id ? { ...msg, feedback: Toggled } : msg)`.
   * The role is not consulted: a user message with that id is toggled too.
   */
  function ToggleFeedback(log: seq<Message>, id: string, v: Vote): (r: seq<Message>)
    ensures |r| == |log|
    ensures forall i :: 0 <= i < |log| ==>
      r[i] == if log[i].id == id then log[i].(feedback := Toggled(log[i].feedback, v)) else log[i]
  {
    if log == [] then []
    else
      [if log[0].id == id then log[0].(feedback := Toggled(log[0].feedback, v)) else log[0]]
        + ToggleFeedback(log[1..], id, v)
  }

  /**
   * The same vote twice: a message that had no vote, or that vote, is back where
   * it started; one that had the other vote ends with none. Nothing else moves.
   */
  lemma SameVoteTwice(log: seq<Message>, id: string, v: Vote)
    ensures var twice := ToggleFeedback(ToggleFeedback(log, id, v), id, v);
      && |twice| == |log|
      && forall i :: 0 <= i < |log| ==>
        twice[i] == if log[i].id == id && log[i].feedback == Some(Other(v)) then log[i].(feedback := None) else log[i]
  {
    var once := ToggleFeedback(log, id, v);
    var twice := ToggleFeedback(once, id, v);
    forall i | 0 <= i < |log| && log[i].id == id
      ensures twice[i].feedback == if log[i].feedback == Some(Other(v)) then None else log[i].feedback
    {
      assert once[i].feedback == Toggled(log[i].feedback, v);
      assert twice[i].feedback == Toggled(once[i].feedback, v);
      match log[i].feedback
      case None =>
      case Some(w) => assert w == v || w == Other(v);
    }
  }

  /** A vote set on a message without one is cleared by the same vote. */
  lemma SameVoteTwiceRestores(log: seq<Message>, id: string, v: Vote)
    requires forall i :: 0 <= i < |log| && log[i].id == id ==> log[i].feedback == None
    ensures ToggleFeedback(ToggleFeedback(log, id, v), id, v) == log
  {
    SameVoteTwice(log, id, v);
  }

  /** One vote followed by the other: every message with that id ends with the second vote. */
  lemma OtherVoteReplaces(log: seq<Message>, id: string, v: Vote)
    ensures var after := ToggleFeedback(ToggleFeedback(log, id, v), id, Other(v));
      && |after| == |log|
      && forall i :: 0 <= i < |log| ==>
        after[i] == if log[i].id == id then log[i].(feedback := Some(Other(v))) else log[i]
  {
  }

  /** An id no message carries leaves the log unchanged. */
  lemma UnknownIdUnchanged(log: seq<Message>, id: string, v: Vote)
    requires forall i :: 0 <= i < |log| ==> log[i].id != id
    ensures ToggleFeedback(log, id, v) == log
  {
  }

  /** No two messages share an id. */
  predicate DistinctIds(log: seq<Message>) {
    forall i, j :: 0 <= i < j < |log| ==> log[i].id != log[j].id
  }

  /** Every message belongs to the current room; without a current room the log is empty. */
  predicate BelongsTo(log: seq<Message>, current: Option<Room>) {
    forall i :: 0 <= i < |log| ==> current.Some? && log[i].roomId == current.value.id
  }

  /**
   * The reset run when `currentRoom` changes: the log survives only when it is
   * non-empty, there is a current room, and its first message carries that room's id.
   */
  function KeepForRoom(prev: seq<Message>, current: Option<Room>): (r: seq<Message>)
    ensures r == prev || r == []
    ensures r != [] ==> current.Some? && r[0].roomId == current.value.id
  {
    if |prev| > 0 && current.Some? && prev[0].roomId == current.value.id then prev else []
  }

  /** Without a current room the log is empty. */
  lemma NoRoomNoMessages(prev: seq<Message>)
    ensures KeepForRoom(prev, None) == []
  {
  }

  /** A log scoped to one room is, after the reset, scoped to the new current room. */
  lemma {:induction false} KeepForRoomScopes(prev: seq<Message>, old_: Option<Room>, next: Option<Room>)
    requires BelongsTo(prev, old_)
    ensures BelongsTo(KeepForRoom(prev, next), next)
  {
    var r := KeepForRoom(prev, next);
    if r != [] {
      forall i | 0 <= i < |r| ensures r[i].roomId == next.value.id {
        assert r[i].roomId == old_.value.id == r[0].roomId;
      }
    }
  }

  /** A new current room with the same id (a renamed room) keeps the log. */
  lemma KeepForSameId(prev: seq<Message>, old_: Room, next: Room)
    requires BelongsTo(prev, Some(old_)) && next.id == old_.id
    ensures KeepForRoom(prev, Some(next)) == prev
  {
  }

  /** Switching from room a to a room b with another id and back to a leaves a's log empty. */
  lemma SwitchAwayAndBackClears(prev: seq<Message>, a: Room, b: Room)
    requires BelongsTo(prev, Some(a)) && a.id != b.id
    ensures KeepForRoom(prev, Some(b)) == []
    ensures KeepForRoom(KeepForRoom(prev, Some(b)), Some(a)) == []
  {
  }

  /** The reset and the toggle keep ids distinct: the facts the session's invariant needs. */
  lemma ToggleKeepsScope(log: seq<Message>, id: string, v: Vote, current: Option<Room>)
    requires BelongsTo(log, current) && DistinctIds(log)
    ensures BelongsTo(ToggleFeedback(log, id, v), current) && DistinctIds(ToggleFeedback(log, id, v))
  {
  }
}
