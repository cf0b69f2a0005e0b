/**
 * The state of the chat page and the handlers and effects that change it.
 * Each method is one discrete event; the directory's replies, the socket's
 * events, the generated room name and the fresh message ids are parameters.
 */
module ChatSession {
  import opened Wrappers
  import opened JsText
  import opened RoomList
  import opened MessageLog
  import opened Sockets

  const LoadFailed := "Failed to load chat rooms."
  const SendFailed := "Failed to send message."
  const CreateFailed := "Failed to create room."
  const DeleteFailed := "Failed to delete room."
  const RenameFailed := "Failed to rename room."

  /** The socket list after `close()` on the socket the state variable refers to, if any. */
  function CloseCurrent(ss: seq<Socket>, current: Option<nat>): (r: seq<Socket>)
    ensures |r| == |ss|
    ensures forall i :: 0 <= i < |ss| && current != Some(i) ==> r[i] == ss[i]
    ensures current.Some? && current.value < |ss| ==> r[current.value] == Close(ss[current.value])
  {
    if current.Some? && current.value < |ss| then ss[current.value := Close(ss[current.value])] else ss
  }

  /**
   * The socket effect's cleanup never adds a live socket, and when only the
   * socket the state variable refers to was live, none is live afterwards.
   */
  lemma CloseCurrentLeavesNoneLive(ss: seq<Socket>, current: Option<nat>)
    ensures LiveCount(CloseCurrent(ss, current)) <= LiveCount(ss)
    ensures (forall i :: 0 <= i < |ss| && current != Some(i) ==> !IsLive(ss[i].ready)) ==>
      LiveCount(CloseCurrent(ss, current)) == 0
  {
    var r := CloseCurrent(ss, current);
    if current.Some? && current.value < |ss| {
      LiveCountUpdate(ss, current.value, Close(ss[current.value]));
    }
    if forall i :: 0 <= i < |ss| && current != Some(i) ==> !IsLive(ss[i].ready) {
      NoneLive(r);
    }
  }

  class Session {
    /** The message input (`message`). */
    var draft: string
    var rooms: seq<Room>
    var currentRoom: Option<Room>
    var renamingRoom: Option<string>
    var newRoomName: string
    var loading: bool
    var error: Option<string>
    var messages: seq<Message>
    /** Every WebSocket the page has created, oldest first. */
    var sockets: seq<Socket>
    /** The `socket` state variable: which of `sockets` it refers to. */
    var socket: Option<nat>
    var isConnected: bool

    /**
     * What the effects keep true between events: a socket exists exactly while a
     * room is current, it is the newest one and belongs to that room, every other
     * socket is closing or closed, the log holds only the current room's messages
     * (none without a room) with distinct ids, and "connected" implies an open socket.
     */
    ghost predicate Valid()
      reads this
    {
      && (socket.Some? <==> currentRoom.Some?)
      && (socket.Some? ==> socket.value == |sockets| - 1 && sockets[socket.value].roomId == currentRoom.value.id)
      && (forall i :: 0 <= i < |sockets| && socket != Some(i) ==> !IsLive(sockets[i].ready))
      && BelongsTo(messages, currentRoom)
      && DistinctIds(messages)
      && (isConnected ==> socket.Some? && sockets[socket.value].ready == Open)
    }

    /** The room-change effects left the session on room `next`. */
    twostate predicate SwitchedTo(next: Option<Room>)
      reads this
    {
      && currentRoom == next
      && messages == KeepForRoom(old(messages), next)
      && sockets == CloseCurrent(old(sockets), old(socket)) + (if next.Some? then [Connect(next.value.id)] else [])
      && !isConnected
    }

    /** Current room, log and connection as they were. */
    twostate predicate ConnectionKept()
      reads this
    {
      && currentRoom == old(currentRoom)
      && messages == old(messages)
      && sockets == old(sockets)
      && socket == old(socket)
      && isConnected == old(isConnected)
    }

    /** The state the page mounts with, after its effects ran once with no room. */
    constructor ()
      ensures Valid()
      ensures draft == [] && rooms == [] && currentRoom == None
      ensures renamingRoom == None && newRoomName == [] && !loading && error == None
      ensures messages == [] && sockets == [] && socket == None && !isConnected
    {
      draft, rooms, currentRoom := [], [], None;
      renamingRoom, newRoomName, loading, error := None, [], false, None;
      messages, sockets, socket, isConnected := [], [], None, false;
    }

    /** With the session consistent, at most one socket is live. */
    lemma OneLiveSocket()
      requires Valid()
      ensures LiveCount(sockets) <= 1
    {
      AtMostOneLive(sockets);
    }

    /**
     * `setCurrentRoom(next)` followed by the effects keyed on `currentRoom`: the
     * previous socket effect's cleanup closes its socket and clears the
     * connection flag, the reset effect keeps or empties the log, and the socket
     * effect opens a socket for the new room (or, with no room, only clears the flag).
     */
    method SetCurrentRoom(next: Option<Room>)
      requires Valid()
      modifies this`currentRoom, this`messages, this`sockets, this`socket, this`isConnected
      ensures Valid()
      ensures SwitchedTo(next)
      ensures messages == KeepForRoom(old(messages), next)
      ensures next.None? ==> socket == None && messages == []
      ensures next.Some? ==> socket == Some(|sockets| - 1) && sockets[|sockets| - 1] == Connect(next.value.id)
    {
      // cleanup of the previous socket effect
      if socket.Some? {
        sockets := sockets[socket.value := Close(sockets[socket.value])];
        socket := None;
      }
      isConnected := false;
      currentRoom := next;
      // the reset effect
      KeepForRoomScopes(messages, old(currentRoom), next);
      messages := KeepForRoom(messages, next);
      // the socket effect
      if next.Some? {
        sockets := sockets + [Connect(next.value.id)];
        socket := Some(|sockets| - 1);
      }
    }

    /** Clicking a room in the list. */
    method SelectRoom(room: Room)
      requires Valid()
      modifies this`currentRoom, this`messages, this`sockets, this`socket, this`isConnected
      ensures Valid()
      ensures old(currentRoom) == Some(room) ==> ConnectionKept()
      ensures old(currentRoom) != Some(room) ==> SwitchedTo(Some(room))
    {
      if currentRoom != Some(room) {
        SetCurrentRoom(Some(room));
      }
    }

    /**
     * The `initChat` effect. With no rooms, one is created under the generated
     * name and made current; otherwise the rooms are sorted by descending id and
     * the first becomes current. Any failure only sets the error.
     */
    method Load(listed: Option<seq<Room>>, randomName: string, createdId: Option<string>)
      requires Valid()
      modifies this`rooms, this`error, this`currentRoom, this`messages, this`sockets, this`socket, this`isConnected
      ensures Valid()
      ensures listed.None? || (listed == Some([]) && createdId.None?) ==>
        error == Some(LoadFailed) && rooms == old(rooms) && ConnectionKept()
      ensures listed == Some([]) && createdId.Some? ==>
        && rooms == [Room(createdId.value, randomName)]
        && SwitchedTo(Some(rooms[0])) && error == old(error)
      ensures listed.Some? && listed.value != [] ==>
        && rooms == SortByIdDesc(listed.value)
        && SwitchedTo(Some(rooms[0])) && error == old(error)
    {
      if listed.None? {
        error := Some(LoadFailed);
        return;
      }
      var res := listed.value;
      if res == [] {
        if createdId.None? {
          error := Some(LoadFailed);
          return;
        }
        var defaultRoom := Room(createdId.value, randomName);
        rooms := [defaultRoom];
        SetCurrentRoom(Some(defaultRoom));
      } else {
        var sortedRooms := SortByIdDesc(res);
        rooms := sortedRooms;
        SetCurrentRoom(Some(sortedRooms[0]));
      }
    }

    /**
     * `handleSendMessage` without a current room: the directory's reply gives the
     * new room, which is prepended and made current. The closure still holds the
     * socket of the render it came from, which is none, so the message is logged
     * for the new room but neither waited for nor transmitted.
     */
    twostate predicate SentWithNewRoom(randomName: string, createdId: Option<string>, freshId: string)
      reads this
    {
      if createdId.None? then
        error == Some(SendFailed) && draft == old(draft) && rooms == old(rooms) && ConnectionKept()
      else
        var r := Room(createdId.value, randomName);
        && rooms == [r] + old(rooms)
        && currentRoom == Some(r)
        && messages == [Message(freshId, User, old(draft), r.id, None)]
        && sockets == old(sockets) + [Connect(r.id)]
        && draft == [] && error == old(error) && !isConnected
    }

    /**
     * `handleSendMessage` in the current room: the message is logged and
     * transmitted only once the wait on the room's socket resolves; a rejected
     * wait logs nothing and sets the error. A wait that had to wait has replaced
     * the socket's `onopen`, so the page does not read "connected" afterwards.
     */
    twostate predicate SentInRoom(event: WaitEvent, freshId: string)
      reads this
    {
      && old(currentRoom).Some? && old(socket).Some? && old(socket).value < |old(sockets)|
      && var k := old(socket).value;
        var waited := AfterWait(old(sockets)[k], event);
        && rooms == old(rooms) && currentRoom == old(currentRoom) && socket == old(socket)
        && (if WaitForSocketOpen(old(sockets)[k].ready, event) == Resolved then
              && messages == old(messages) + [Message(freshId, User, old(draft), old(currentRoom).value.id, None)]
              && sockets == old(sockets)[k := Transmit(waited, old(draft))]
              && sockets[k].sent == old(sockets)[k].sent + [old(draft)]
              && draft == [] && error == old(error) && isConnected == old(isConnected)
            else
              && messages == old(messages) && sockets == old(sockets)[k := waited]
              && draft == old(draft) && error == Some(SendFailed) && !isConnected)
        && (old(sockets)[k].ready != Open ==> !isConnected)
    }

    /** `handleSendMessage`: blank input does nothing. */
    method SendMessage(randomName: string, createdId: Option<string>, event: WaitEvent, freshId: string)
      requires Valid()
      requires forall i :: 0 <= i < |messages| ==> messages[i].id != freshId
      modifies this`draft, this`rooms, this`error, this`currentRoom, this`messages, this`sockets, this`socket, this`isConnected
      ensures Valid()
      ensures Trim(old(draft)) == [] ==> unchanged(this)
      ensures Trim(old(draft)) != [] && old(currentRoom).None? ==> SentWithNewRoom(randomName, createdId, freshId)
      ensures Trim(old(draft)) != [] && old(currentRoom).Some? ==> SentInRoom(event, freshId)
    {
      if Trim(draft) == [] {
        return;
      }
      if currentRoom.None? {
        SendWithNewRoom(randomName, createdId, freshId);
      } else {
        SendInRoom(event, freshId);
      }
    }

    /** The branch of `handleSendMessage` taken without a current room. */
    method SendWithNewRoom(randomName: string, createdId: Option<string>, freshId: string)
      requires Valid() && currentRoom.None?
      requires forall i :: 0 <= i < |messages| ==> messages[i].id != freshId
      modifies this`draft, this`rooms, this`error, this`currentRoom, this`messages, this`sockets, this`socket, this`isConnected
      ensures Valid()
      ensures SentWithNewRoom(randomName, createdId, freshId)
    {
      if createdId.None? {
        error := Some(SendFailed);
        return;
      }
      var activeRoom := Room(createdId.value, randomName);
      rooms := [activeRoom] + rooms;
      SetCurrentRoom(Some(activeRoom));
      messages := messages + [Message(freshId, User, draft, activeRoom.id, None)];
      draft := [];
    }

    /** The branch of `handleSendMessage` taken with a current room. */
    method SendInRoom(event: WaitEvent, freshId: string)
      requires Valid() && currentRoom.Some?
      requires forall i :: 0 <= i < |messages| ==> messages[i].id != freshId
      modifies this`draft, this`error, this`messages, this`sockets, this`isConnected
      ensures Valid()
      ensures SentInRoom(event, freshId)
    {
      var k := socket.value;
      var outcome := WaitForSocketOpen(sockets[k].ready, event);
      if sockets[k].ready == Connecting && event == ErrorEvent {
        // the error is followed by the close event, whose handler is still the effect's
        isConnected := false;
      }
      sockets := sockets[k := AfterWait(sockets[k], event)];
      if outcome.Rejected? {
        error := Some(SendFailed);
        return;
      }
      messages := messages + [Message(freshId, User, draft, currentRoom.value.id, None)];
      sockets := sockets[k := Transmit(sockets[k], draft)];
      draft := [];
    }

    /** `handleCreateRoom`: the new room is prepended and made current. */
    method CreateRoom(randomName: string, createdId: Option<string>)
      requires Valid()
      modifies this`loading, this`rooms, this`error, this`currentRoom, this`messages, this`sockets, this`socket, this`isConnected
      ensures Valid() && !loading
      ensures createdId.None? ==> error == Some(CreateFailed) && rooms == old(rooms) && ConnectionKept()
      ensures createdId.Some? ==>
        && rooms == [Room(createdId.value, randomName)] + old(rooms)
        && SwitchedTo(Some(Room(createdId.value, randomName))) && error == old(error)
    {
      loading := true;
      if createdId.None? {
        error := Some(CreateFailed);
      } else {
        var newRoom := Room(createdId.value, randomName);
        rooms := [newRoom] + rooms;
        SetCurrentRoom(Some(newRoom));
      }
      loading := false;
    }

    /**
     * `handleDeleteRoom`: on success every room with that id leaves the list and,
     * if it was current, there is no current room any more.
     */
    method DeleteRoom(roomId: string, ok: bool)
      requires Valid()
      modifies this`rooms, this`error, this`currentRoom, this`messages, this`sockets, this`socket, this`isConnected
      ensures Valid()
      ensures !ok ==> error == Some(DeleteFailed) && rooms == old(rooms) && ConnectionKept()
      ensures ok ==> rooms == RemoveRoom(old(rooms), roomId) && error == old(error)
      ensures ok ==> (currentRoom.None? <==> old(currentRoom).None? || old(currentRoom).value.id == roomId)
      ensures ok && old(currentRoom).Some? && old(currentRoom).value.id == roomId ==> SwitchedTo(None)
      ensures ok && !(old(currentRoom).Some? && old(currentRoom).value.id == roomId) ==> ConnectionKept()
    {
      if !ok {
        error := Some(DeleteFailed);
        return;
      }
      rooms := RemoveRoom(rooms, roomId);
      if currentRoom.Some? && currentRoom.value.id == roomId {
        SetCurrentRoom(None);
      }
    }

    /** `handleStartRename`: the rename box opens on the room's current name. */
    method StartRename(room: Room)
      modifies this`renamingRoom, this`newRoomName
      ensures renamingRoom == Some(room.id) && newRoomName == room.name
    {
      renamingRoom := Some(room.id);
      newRoomName := room.name;
    }

    /** Typing in the rename box. */
    method EditNewRoomName(text: string)
      modifies this`newRoomName
      ensures newRoomName == text
    {
      newRoomName := text;
    }

    /**
     * `handleSaveRename`: a blank name does nothing. On success only the rooms
     * with that id take the returned name, the current room is replaced by a
     * renamed copy if it is that room (which re-runs the room-change effects),
     * and the rename box closes.
     */
    method SaveRename(roomId: string, reply: Option<string>)
      requires Valid()
      modifies this`rooms, this`error, this`renamingRoom, this`newRoomName
      modifies this`currentRoom, this`messages, this`sockets, this`socket, this`isConnected
      ensures Valid()
      ensures Trim(old(newRoomName)) == [] ==> unchanged(this)
      ensures Trim(old(newRoomName)) != [] && reply.None? ==>
        && error == Some(RenameFailed) && rooms == old(rooms) && ConnectionKept()
        && renamingRoom == old(renamingRoom) && newRoomName == old(newRoomName)
      ensures Trim(old(newRoomName)) != [] && reply.Some? ==>
        && rooms == RenameRoom(old(rooms), roomId, reply.value)
        && renamingRoom == None && newRoomName == [] && error == old(error)
      ensures Trim(old(newRoomName)) != [] && reply.Some? && old(currentRoom).Some? && old(currentRoom).value.id == roomId ==>
        SwitchedTo(Some(Room(roomId, reply.value))) && messages == old(messages)
      ensures Trim(old(newRoomName)) != [] && reply.Some? && !(old(currentRoom).Some? && old(currentRoom).value.id == roomId) ==>
        ConnectionKept()
    {
      if Trim(newRoomName) == [] {
        return;
      }
      if reply.None? {
        error := Some(RenameFailed);
        return;
      }
      ApplyRename(roomId, reply.value);
    }

    /**
     * The successful half of `handleSaveRename`: the list takes the returned
     * name, the current room is replaced by a renamed copy when it is the room
     * (so the room-change effects run again, keeping the log), and the rename
     * box closes.
     */
    method ApplyRename(roomId: string, name: string)
      requires Valid()
      modifies this`rooms, this`renamingRoom, this`newRoomName
      modifies this`currentRoom, this`messages, this`sockets, this`socket, this`isConnected
      ensures Valid()
      ensures rooms == RenameRoom(old(rooms), roomId, name) && renamingRoom == None && newRoomName == []
      ensures old(currentRoom).Some? && old(currentRoom).value.id == roomId ==>
        SwitchedTo(Some(Room(roomId, name))) && messages == old(messages)
      ensures !(old(currentRoom).Some? && old(currentRoom).value.id == roomId) ==> ConnectionKept()
    {
      rooms := RenameRoom(rooms, roomId, name);
      if currentRoom.Some? && currentRoom.value.id == roomId {
        KeepForSameId(messages, currentRoom.value, currentRoom.value.(name := name));
        SetCurrentRoom(Some(currentRoom.value.(name := name)));
      }
      renamingRoom := None;
      newRoomName := [];
    }

    /** `handleCancelRename` */
    method CancelRename()
      modifies this`renamingRoom, this`newRoomName
      ensures renamingRoom == None && newRoomName == []
    {
      renamingRoom := None;
      newRoomName := [];
    }

    /** `handleFeedback`: toggles the vote on the messages with that id, whatever their role. */
    method Feedback(messageId: string, vote: Vote)
      requires Valid()
      modifies this`messages
      ensures Valid()
      ensures messages == ToggleFeedback(old(messages), messageId, vote)
    {
      ToggleKeepsScope(messages, messageId, vote, currentRoom);
      messages := ToggleFeedback(messages, messageId, vote);
    }

    /** Typing in the message input. */
    method EditDraft(text: string)
      modifies this`draft
      ensures draft == text
    {
      draft := text;
    }

    /** The 3000 ms timer of the error effect fires. */
    method ErrorTimerFires()
      modifies this`error
      ensures error == None
    {
      error := None;
    }

    /**
     * Socket `k` reports it has opened. Only a connecting socket can; the page
     * reads "connected" only if the socket effect's `onopen` is still installed.
     */
    method SocketOpened(k: nat)
      requires Valid() && k < |sockets|
      modifies this`sockets, this`isConnected
      ensures Valid()
      ensures old(sockets[k].ready) == Connecting ==>
        && sockets == old(sockets)[k := old(sockets[k]).(ready := Open)]
        && isConnected == (old(isConnected) || old(sockets[k].onOpen) == MarksConnected)
      ensures old(sockets[k].ready) != Connecting ==> sockets == old(sockets) && isConnected == old(isConnected)
    {
      if sockets[k].ready == Connecting {
        sockets := sockets[k := sockets[k].(ready := Open)];
        if sockets[k].onOpen == MarksConnected {
          isConnected := true;
        }
      }
    }

    /**
     * Socket `k` reports it has closed (its close handshake finished, the server
     * closed it, or it failed). Its `onclose` clears the connection flag, whether
     * or not it is still the page's current socket.
     */
    method SocketClosed(k: nat)
      requires Valid() && k < |sockets|
      modifies this`sockets, this`isConnected
      ensures Valid()
      ensures old(sockets[k].ready) != Closed ==>
        sockets == old(sockets)[k := old(sockets[k]).(ready := Closed)] && !isConnected
      ensures old(sockets[k].ready) == Closed ==> sockets == old(sockets) && isConnected == old(isConnected)
    {
      if sockets[k].ready != Closed {
        sockets := sockets[k := sockets[k].(ready := Closed)];
        isConnected := false;
      }
    }

    /**
     * Socket `k` delivers `data`. Only an open socket delivers; the reply is
     * logged as an assistant message without feedback for the socket's room,
     * which is the current room, after every earlier message.
     */
    method SocketMessage(k: nat, data: string, freshId: string)
      requires Valid() && k < |sockets|
      requires forall i :: 0 <= i < |messages| ==> messages[i].id != freshId
      modifies this`messages
      ensures Valid()
      ensures old(sockets[k].ready) == Open ==>
        && currentRoom.Some? && sockets[k].roomId == currentRoom.value.id
        && messages == old(messages) + [Message(freshId, Assistant, data, sockets[k].roomId, None)]
      ensures old(sockets[k].ready) != Open ==> messages == old(messages)
    {
      if sockets[k].ready == Open {
        messages := messages + [Message(freshId, Assistant, data, sockets[k].roomId, None)];
      }
    }
  }
}
