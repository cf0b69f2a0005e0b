/**
 * The `/room` router: create, list, get, update and delete rooms, every query
 * filtered by the signed-in user's name. The database session is the `Table`
 * and the signed-in user is a parameter.
 */
module RoomRouter {
  import opened Wrappers
  import opened RoomTable

  const RoomExists := HttpError(BadRequest, "Room already exists for this user")
  const NameExists := HttpError(BadRequest, "Room name already exists")

  const CreatedMessage := "Chat room created successfully"
  const UpdatedMessage := "Chat room updated successfully"

  /** The body of a successful create or update: a message and the room. */
  datatype Reply<T> = Reply(message: string, data: T)

  /** The room as `list_rooms` reports it: its id and name, without the owner. */
  function Summary(x: ChatRoom): (r: RoomSummary)
    ensures r.id == x.id && r.roomName == x.roomName
  {
    RoomSummary(x.id, x.roomName)
  }

  /** Two rows are reported alike iff they agree on id and name, whoever owns them. */
  lemma SameSummary(x: ChatRoom, y: ChatRoom)
    ensures Summary(x) == Summary(y) <==> x.id == y.id && x.roomName == y.roomName
  {
  }

  /** `[{"id": r.id, "roomName": r.roomName} for r in rooms]` */
  function Summaries(rs: seq<ChatRoom>): (r: seq<RoomSummary>)
    ensures |r| == |rs| && forall i :: 0 <= i < |rs| ==> r[i] == Summary(rs[i])
  {
    if rs == [] then [] else [Summary(rs[0])] + Summaries(rs[1..])
  }

  /** Reported rooms are exactly the user's rooms. */
  lemma SummariesOfOwned(rows: seq<ChatRoom>, user: string, s: RoomSummary)
    ensures s in Summaries(OwnedBy(rows, user)) <==> exists r :: r in rows && r.username == user && s == Summary(r)
  {
    var owned := OwnedBy(rows, user);
    var listed := Summaries(owned);
    if s in listed {
      var i :| 0 <= i < |listed| && listed[i] == s;
      assert owned[i] in owned;
    }
    if exists r :: r in rows && r.username == user && s == Summary(r) {
      var r :| r in rows && r.username == user && s == Summary(r);
      assert r in owned;
      var i :| 0 <= i < |owned| && owned[i] == r;
      assert listed[i] == s;
    }
  }

  /** `create_room`: 400 if the user already has a room with that name, otherwise one new row. */
  method CreateRoom(db: Table, currentUser: string, roomName: string) returns (res: Result<Reply<RoomRecord>, HttpError>)
    requires db.Valid()
    modifies db
    ensures db.Valid()
    ensures UniqueNamesPerUser(old(db.rows)) ==> UniqueNamesPerUser(db.rows)
    ensures NameTaken(old(db.rows), currentUser, roomName) ==>
      res == Failure(RoomExists) && db.rows == old(db.rows) && db.nextId == old(db.nextId)
    ensures !NameTaken(old(db.rows), currentUser, roomName) ==>
      && db.rows == old(db.rows) + [ChatRoom(old(db.nextId), roomName, currentUser)]
      && db.nextId == old(db.nextId) + 1
      && res == Success(Reply(CreatedMessage, RoomRecord(old(db.nextId), roomName, currentUser)))
  {
    if NameTaken(db.rows, currentUser, roomName) {
      return Failure(RoomExists);
    }
    AddPreservesUnique(db.rows, ChatRoom(db.nextId, roomName, currentUser));
    var room := db.Add(roomName, currentUser);
    res := Success(Reply(CreatedMessage, RoomRecord(room.id, room.roomName, room.username)));
  }

  /** `list_rooms`: one summary per row the user owns, in table order. */
  method ListRooms(db: Table, currentUser: string) returns (data: seq<RoomSummary>)
    ensures data == Summaries(OwnedBy(db.rows, currentUser))
    ensures forall s :: s in data <==> exists r :: r in db.rows && r.username == currentUser && s == Summary(r)
  {
    data := [];
    var i := 0;
    while i < |db.rows|
      invariant 0 <= i <= |db.rows|
      invariant data == Summaries(OwnedBy(db.rows[..i], currentUser))
    {
      var r := db.rows[i];
      OwnedByAppend(db.rows[..i], r, currentUser);
      assert db.rows[..i + 1] == db.rows[..i] + [r];
      if r.username == currentUser {
        SummariesAppend(OwnedBy(db.rows[..i], currentUser), r);
        data := data + [Summary(r)];
      }
      i := i + 1;
    }
    assert db.rows[..i] == db.rows;
    forall s ensures s in data <==> exists r :: r in db.rows && r.username == currentUser && s == Summary(r) {
      SummariesOfOwned(db.rows, currentUser, s);
    }
  }

  lemma SummariesAppend(rs: seq<ChatRoom>, r: ChatRoom)
    ensures Summaries(rs + [r]) == Summaries(rs) + [Summary(r)]
  {
  }

  /** `get_room`: the user's room with that id, or 404 if it is missing or someone else's. */
  method GetRoom(db: Table, currentUser: string, roomId: int) returns (res: Result<RoomRecord, HttpError>)
    ensures res.Failure? <==> !Owns(db.rows, roomId, currentUser)
    ensures res.Failure? ==> res.error == RoomNotFound
    ensures res.Success? ==>
      && res.value.id == roomId && res.value.owner == currentUser
      && ChatRoom(roomId, res.value.roomName, currentUser) in db.rows
  {
    var found := IndexOfOwned(db.rows, roomId, currentUser);
    if found.None? {
      return Failure(RoomNotFound);
    }
    var room := db.rows[found.value];
    res := Success(RoomRecord(room.id, room.roomName, room.username));
  }

  /**
   * `update_room`: 404 if the room is missing or someone else's; 400 if any of
   * the user's rooms already has the new name (the room itself included, so
   * renaming to the same name fails); otherwise only that row's name changes.
   */
  method UpdateRoom(db: Table, currentUser: string, roomId: int, newName: string) returns (res: Result<Reply<RoomSummary>, HttpError>)
    requires db.Valid()
    modifies db
    ensures db.Valid() && db.nextId == old(db.nextId)
    ensures UniqueNamesPerUser(old(db.rows)) ==> UniqueNamesPerUser(db.rows)
    ensures !Owns(old(db.rows), roomId, currentUser) ==> res == Failure(RoomNotFound) && db.rows == old(db.rows)
    ensures Owns(old(db.rows), roomId, currentUser) && NameTaken(old(db.rows), currentUser, newName) ==>
      res == Failure(NameExists) && db.rows == old(db.rows)
    ensures Owns(old(db.rows), roomId, currentUser) && !NameTaken(old(db.rows), currentUser, newName) ==>
      var k := IndexOfOwned(old(db.rows), roomId, currentUser).value;
      && db.rows == old(db.rows)[k := ChatRoom(roomId, newName, currentUser)]
      && res == Success(Reply(UpdatedMessage, RoomSummary(roomId, newName)))
  {
    var found := IndexOfOwned(db.rows, roomId, currentUser);
    if found.None? {
      return Failure(RoomNotFound);
    }
    if NameTaken(db.rows, currentUser, newName) {
      return Failure(NameExists);
    }
    var k := found.value;
    RenamePreservesUnique(db.rows, k, newName);
    db.SetName(k, newName);
    res := Success(Reply(UpdatedMessage, RoomSummary(db.rows[k].id, db.rows[k].roomName)));
  }

  /** The user's own room name is always taken, so renaming a room to its own name fails. */
  lemma OwnNameIsTaken(rows: seq<ChatRoom>, roomId: int, user: string)
    requires Owns(rows, roomId, user)
    ensures NameTaken(rows, user, rows[IndexOfOwned(rows, roomId, user).value].roomName)
  {
    var k := IndexOfOwned(rows, roomId, user).value;
    assert rows[k].username == user;
  }

  /** The confirmation `delete_room` returns: the deleted room's name sits at a fixed offset. */
  function DeletedMessage(roomName: string): (r: string)
    ensures |r| == |roomName| + 33 && r[11..11 + |roomName|] == roomName
  {
    "Chat room '" + roomName + "' deleted successfully"
  }

  /** `delete_room`: 404 if the room is missing or someone else's; otherwise exactly that row goes. */
  method DeleteRoom(db: Table, currentUser: string, roomId: int) returns (res: Result<string, HttpError>)
    requires db.Valid()
    modifies db
    ensures db.Valid() && db.nextId == old(db.nextId)
    ensures UniqueNamesPerUser(old(db.rows)) ==> UniqueNamesPerUser(db.rows)
    ensures !Owns(old(db.rows), roomId, currentUser) ==> res == Failure(RoomNotFound) && db.rows == old(db.rows)
    ensures Owns(old(db.rows), roomId, currentUser) ==>
      var k := IndexOfOwned(old(db.rows), roomId, currentUser).value;
      db.rows == old(db.rows)[..k] + old(db.rows)[k + 1..]
    ensures Owns(old(db.rows), roomId, currentUser) ==>
      res == Success(DeletedMessage(old(db.rows)[IndexOfOwned(old(db.rows), roomId, currentUser).value].roomName))
  {
    var found := IndexOfOwned(db.rows, roomId, currentUser);
    if found.None? {
      return Failure(RoomNotFound);
    }
    var k := found.value;
    var room := db.rows[k];
    RemovePreservesInvariants(db.rows, k);
    db.Delete(k);
    res := Success(DeletedMessage(room.roomName));
  }
}
