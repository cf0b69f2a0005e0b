/**
 * The `ChatRoom` table the backend routers share: rows of (id, roomName,
 * username) in insertion order and the autoincrement counter that assigns
 * ids, with the owner-filtered queries the routers run against it.
 */
module RoomTable {
  import opened Wrappers

  datatype ChatRoom = ChatRoom(id: nat, roomName: string, username: string)

  /** An `HTTPException`: its status code and detail text. */
  datatype HttpError = HttpError(status: nat, detail: string)

  const BadRequest: nat := 400
  const NotFound: nat := 404
  const RoomNotFound := HttpError(NotFound, "Room not found")

  /** `{"id": ..., "roomName": ..., "owner": ...}` */
  datatype RoomRecord = RoomRecord(id: nat, roomName: string, owner: string)

  /** `{"id": ..., "roomName": ...}` */
  datatype RoomSummary = RoomSummary(id: nat, roomName: string)

  /** Ids are primary keys. */
  predicate DistinctIds(rows: seq<ChatRoom>) {
    forall i, j :: 0 <= i < j < |rows| ==> rows[i].id != rows[j].id
  }

  /** No user holds two rooms with the same name. */
  predicate UniqueNamesPerUser(rows: seq<ChatRoom>) {
    forall i, j :: 0 <= i < j < |rows| && rows[i].username == rows[j].username ==> rows[i].roomName != rows[j].roomName
  }

  /**
   * `.filter(ChatRoom.roomName == name, ChatRoom.username == user).first()` finds
   * a row; only a user with at least one room can have a name taken.
   */
  predicate NameTaken(rows: seq<ChatRoom>, user: string, name: string)
    ensures NameTaken(rows, user, name) ==> OwnedBy(rows, user) != []
  {
    exists i :: 0 <= i < |rows| && rows[i].username == user && rows[i].roomName == name
  }

  /**
   * `.filter(ChatRoom.id == id, ChatRoom.username == user).first()` finds a row;
   * ids are never negative, so a negative id finds none.
   */
  predicate Owns(rows: seq<ChatRoom>, id: int, user: string)
    ensures Owns(rows, id, user) ==> 0 <= id
  {
    exists i :: 0 <= i < |rows| && rows[i].id == id && rows[i].username == user
  }

  /** The position of the first row with that id owned by that user. */
  function IndexOfOwned(rows: seq<ChatRoom>, id: int, user: string): (k: Option<nat>)
    ensures k.None? <==> !Owns(rows, id, user)
    ensures k.Some? ==> k.value < |rows| && rows[k.value].id == id && rows[k.value].username == user
  {
    if rows == [] then None
    else if rows[0].id == id && rows[0].username == user then Some(0)
    else match IndexOfOwned(rows[1..], id, user)
      case None =>
        assert forall i :: 1 <= i < |rows| ==> rows[i] == rows[1..][i - 1];
        None
      case Some(j) => Some(j + 1)
  }

  /** With distinct ids the owned row is the only row carrying that id. */
  lemma OwnedRowIsUnique(rows: seq<ChatRoom>, id: int, user: string, i: nat)
    requires DistinctIds(rows) && i < |rows| && rows[i].id == id
    ensures IndexOfOwned(rows, id, user) == if rows[i].username == user then Some(i) else None
  {
  }

  /** `.filter(ChatRoom.username == user).all()`, in table order. */
  function OwnedBy(rows: seq<ChatRoom>, user: string): (r: seq<ChatRoom>)
    ensures forall x :: x in r <==> x in rows && x.username == user
  {
    if rows == [] then []
    else if rows[0].username == user then [rows[0]] + OwnedBy(rows[1..], user)
    else OwnedBy(rows[1..], user)
  }

  /** The name check agrees with the list: a name is taken iff one of the user's listed rooms has it. */
  lemma NameTakenIffListed(rows: seq<ChatRoom>, user: string, name: string)
    ensures NameTaken(rows, user, name) <==> exists r :: r in OwnedBy(rows, user) && r.roomName == name
  {
    if NameTaken(rows, user, name) {
      var i :| 0 <= i < |rows| && rows[i].username == user && rows[i].roomName == name;
      assert rows[i] in OwnedBy(rows, user);
    }
  }

  /** The 404 checks agree with the list: a room is found iff one of the user's listed rooms has its id. */
  lemma OwnsIffListed(rows: seq<ChatRoom>, id: int, user: string)
    ensures Owns(rows, id, user) <==> exists r :: r in OwnedBy(rows, user) && r.id == id
  {
    if Owns(rows, id, user) {
      var i :| 0 <= i < |rows| && rows[i].id == id && rows[i].username == user;
      assert rows[i] in OwnedBy(rows, user);
    }
  }

  /** Scanning one more row extends the owned list by that row if the user owns it. */
  lemma {:induction false} OwnedByAppend(rows: seq<ChatRoom>, x: ChatRoom, user: string)
    ensures OwnedBy(rows + [x], user) == OwnedBy(rows, user) + (if x.username == user then [x] else [])
  {
    if rows == [] {
      assert rows + [x] == [x];
      assert [x][1..] == [];
    } else {
      assert (rows + [x])[1..] == rows[1..] + [x];
      OwnedByAppend(rows[1..], x, user);
    }
  }

  /** A row added with a name its owner does not yet hold keeps names unique per user. */
  lemma AddPreservesUnique(rows: seq<ChatRoom>, x: ChatRoom)
    requires !NameTaken(rows, x.username, x.roomName)
    ensures UniqueNamesPerUser(rows) ==> UniqueNamesPerUser(rows + [x])
  {
    var r := rows + [x];
    forall i, j | UniqueNamesPerUser(rows) && 0 <= i < j < |r| && r[i].username == r[j].username
      ensures r[i].roomName != r[j].roomName
    {
      if j == |rows| {
        assert r[i] == rows[i];
      }
    }
  }

  /** Giving row k a name its owner does not yet hold keeps names unique per user. */
  lemma RenamePreservesUnique(rows: seq<ChatRoom>, k: nat, name: string)
    requires k < |rows| && !NameTaken(rows, rows[k].username, name)
    ensures UniqueNamesPerUser(rows) ==> UniqueNamesPerUser(rows[k := rows[k].(roomName := name)])
  {
    var r := rows[k := rows[k].(roomName := name)];
    forall i, j | UniqueNamesPerUser(rows) && 0 <= i < j < |r| && r[i].username == r[j].username
      ensures r[i].roomName != r[j].roomName
    {
      if i == k {
        assert r[j] == rows[j];
      } else if j == k {
        assert r[i] == rows[i];
      }
    }
  }

  /** Removing the row at position k removes exactly the rooms with that row's id, when ids are distinct. */
  lemma {:induction false} RemoveRemovesOnlyThatId(rows: seq<ChatRoom>, k: nat)
    requires DistinctIds(rows) && k < |rows|
    ensures forall r :: r in rows[..k] + rows[k + 1..] <==> r in rows && r.id != rows[k].id
  {
    var rest := rows[..k] + rows[k + 1..];
    forall r ensures r in rest <==> r in rows && r.id != rows[k].id {
      if r in rows && r.id != rows[k].id {
        var i :| 0 <= i < |rows| && rows[i] == r;
        assert r == rest[if i < k then i else i - 1];
      }
      if r in rest {
        var i :| 0 <= i < |rest| && rest[i] == r;
        assert r == rows[if i < k then i else i + 1];
      }
    }
  }

  /** Removing a row keeps names unique per user and ids distinct. */
  lemma RemovePreservesInvariants(rows: seq<ChatRoom>, k: nat)
    requires k < |rows|
    ensures UniqueNamesPerUser(rows) ==> UniqueNamesPerUser(rows[..k] + rows[k + 1..])
    ensures DistinctIds(rows) ==> DistinctIds(rows[..k] + rows[k + 1..])
  {
    var r := rows[..k] + rows[k + 1..];
    assert forall i :: 0 <= i < |r| ==> r[i] == rows[if i < k then i else i + 1];
  }

  /** Names are checked per user: another user's row never blocks a name. */
  lemma {:induction false} OtherOwnersDoNotBlock(rows: seq<ChatRoom>, x: ChatRoom, user: string, name: string)
    requires x.username != user
    ensures NameTaken(rows + [x], user, name) <==> NameTaken(rows, user, name)
  {
    if NameTaken(rows + [x], user, name) {
      var i :| 0 <= i < |rows + [x]| && (rows + [x])[i].username == user && (rows + [x])[i].roomName == name;
      assert i < |rows| && rows[i] == (rows + [x])[i];
    }
    if NameTaken(rows, user, name) {
      var i :| 0 <= i < |rows| && rows[i].username == user && rows[i].roomName == name;
      assert (rows + [x])[i] == rows[i];
    }
  }

  /** The table held by the database session. */
  class Table {
    var rows: seq<ChatRoom>
    /** The id the next inserted row receives. */
    var nextId: nat

    ghost predicate Valid()
      reads this
    {
      && DistinctIds(rows)
      && forall i :: 0 <= i < |rows| ==> rows[i].id < nextId
    }

    constructor ()
      ensures Valid() && rows == [] && nextId == 1
    {
      rows, nextId := [], 1;
    }

    /** `db.add(room); db.commit(); db.refresh(room)`: the row gets the next id. */
    method Add(roomName: string, username: string) returns (room: ChatRoom)
      requires Valid()
      modifies this
      ensures Valid()
      ensures room == ChatRoom(old(nextId), roomName, username)
      ensures rows == old(rows) + [room] && nextId == old(nextId) + 1
      ensures forall i :: 0 <= i < |old(rows)| ==> old(rows)[i].id != room.id
    {
      room := ChatRoom(nextId, roomName, username);
      rows := rows + [room];
      nextId := nextId + 1;
    }

    /** `room.roomName = newName; db.commit()` on the row at position k. */
    method SetName(k: nat, newName: string)
      requires Valid() && k < |rows|
      modifies this
      ensures Valid()
      ensures rows == old(rows)[k := old(rows)[k].(roomName := newName)] && nextId == old(nextId)
    {
      rows := rows[k := rows[k].(roomName := newName)];
    }

    /** `db.delete(room); db.commit()` on the row at position k. */
    method Delete(k: nat)
      requires Valid() && k < |rows|
      modifies this
      ensures Valid()
      ensures rows == old(rows)[..k] + old(rows)[k + 1..] && nextId == old(nextId)
      ensures forall r :: r in rows <==> r in old(rows) && r.id != old(rows)[k].id
    {
      RemovePreservesInvariants(rows, k);
      RemoveRemovesOnlyThatId(rows, k);
      rows := rows[..k] + rows[k + 1..];
      assert forall i :: 0 <= i < |rows| ==> rows[i] in old(rows);
    }
  }
}
