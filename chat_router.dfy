/**
 * The `/chat` router, the one the application mounts: `create-room` adds a
 * room for the signed-in user unless that user already has one with the name.
 */
module ChatRouter {
  import opened Wrappers
  import opened RoomTable

  const RoomExists := HttpError(BadRequest, "Room already exists for this user")

  /**
   * `create_room`: 400 and no new row if the user already has a room with that
   * name; otherwise exactly one row, owned by the user, and its id, name and owner back.
   */
  method CreateRoom(db: Table, currentUser: string, roomName: string) returns (res: Result<RoomRecord, HttpError>)
    requires db.Valid()
    modifies db
    ensures db.Valid()
    ensures UniqueNamesPerUser(old(db.rows)) ==> UniqueNamesPerUser(db.rows)
    ensures NameTaken(old(db.rows), currentUser, roomName) ==>
      res == Failure(RoomExists) && db.rows == old(db.rows) && db.nextId == old(db.nextId)
    ensures !NameTaken(old(db.rows), currentUser, roomName) ==>
      && db.rows == old(db.rows) + [ChatRoom(old(db.nextId), roomName, currentUser)]
      && db.nextId == old(db.nextId) + 1
      && res == Success(RoomRecord(old(db.nextId), roomName, currentUser))
      && forall i :: 0 <= i < |old(db.rows)| ==> old(db.rows)[i].id != res.value.id
  {
    var existing := NameTaken(db.rows, currentUser, roomName);
    if existing {
      return Failure(RoomExists);
    }
    AddPreservesUnique(db.rows, ChatRoom(db.nextId, roomName, currentUser));
    var room := db.Add(roomName, currentUser);
    res := Success(RoomRecord(room.id, room.roomName, currentUser));
  }
}
