/**
 * Event sequences run against the contracts alone, the way a caller of the
 * session and of the routers sees them.
 */
module Scenarios {
  import opened Wrappers
  import opened JsText
  import opened RoomList
  import opened MessageLog
  import opened Sockets
  import opened ChatSession
  import RoomTable
  import RoomRouter
  import ChatRouter

  /** An empty directory at startup yields one generated room, made current, whose socket is connecting. */
  method StartupCreatesOneRoom() {
    var s := new Session();
    s.Load(Some([]), "Brave-Teal-Otter", Some("7"));
    var room := Room("7", "Brave-Teal-Otter");
    assert s.rooms == [room] && s.currentRoom == Some(room);
    assert s.socket == Some(0) && s.sockets[0] == Connect("7");
    assert s.messages == [] && !s.isConnected;
  }

  /** A draft that starts with a visible character is not blank. */
  lemma NotBlank(draft: string)
    requires draft != [] && !IsWhiteSpace(draft[0])
    ensures Trim(draft) != []
  {
    TrimEmptyIffBlank(draft);
  }

  /**
   * "hello" sent while the room's socket connects is logged once the socket
   * opens, and the reply "world" follows it. The wait replaced the socket's
   * `onopen`, so the page still reads "disconnected" while the socket is open.
   */
  method SendWhileConnecting() {
    var s := new Session();
    var room := Room("7", "Brave-Teal-Otter");
    s.SelectRoom(room);
    assert s.socket == Some(0) && s.sockets[0] == Connect("7") && s.messages == [];
    s.EditDraft("hello");
    NotBlank("hello");
    assert WaitForSocketOpen(Connecting, OpenEvent) == Resolved;
    s.SendMessage("unused", None, OpenEvent, "m1");
    assert s.messages == [Message("m1", User, "hello", "7", None)];
    assert s.sockets[0].ready == Open && s.sockets[0].sent == ["hello"];
    assert !s.isConnected;
    s.SocketMessage(0, "world", "m2");
    assert s.messages == [Message("m1", User, "hello", "7", None), Message("m2", Assistant, "world", "7", None)];
  }

  /**
   * A wait that times out logs nothing and sets the error; when the socket opens
   * later, the page still reads "disconnected".
   */
  method TimeoutThenLateOpen() {
    var s := new Session();
    s.SelectRoom(Room("1", "Calm-Red-Heron"));
    assert s.socket == Some(0) && s.sockets[0] == Connect("1") && s.messages == [];
    s.EditDraft("x");
    NotBlank("x");
    assert WaitForSocketOpen(Connecting, TimeoutEvent) == Rejected(SocketTimeout);
    s.SendMessage("unused", None, TimeoutEvent, "m1");
    assert s.sockets[0] == AfterWait(Connect("1"), TimeoutEvent);
    assert s.messages == [] && s.error == Some(SendFailed) && s.draft == "x";
    s.SocketOpened(0);
    assert s.sockets[0].ready == Open && !s.isConnected;
  }

  /**
   * Switching rooms closes the old socket before the new one opens. When the old
   * socket's close event arrives after the new socket opened, its `onclose`
   * still clears the connection flag: the page reads "disconnected" while the
   * current socket is open.
   */
  method StaleCloseClearsConnection() {
    var s := new Session();
    var a := Room("a", "First");
    s.Load(Some([a]), "unused", None);
    assert s.currentRoom == Some(a);
    s.SocketOpened(0);
    assert s.isConnected;
    var b := Room("b", "Second");
    s.SelectRoom(b);
    assert s.sockets[0].ready == Closing && s.sockets[1] == Connect("b") && !s.isConnected;
    s.SocketOpened(1);
    assert s.isConnected;
    s.SocketClosed(0);
    assert s.sockets[1].ready == Open && !s.isConnected;
    s.OneLiveSocket();
  }

  /** Deleting the current room drops it, clears the log and leaves no socket. */
  method DeleteCurrentRoom() {
    var s := new Session();
    var a := Room("a", "First");
    s.Load(Some([a]), "unused", None);
    s.SocketOpened(0);
    s.SocketMessage(0, "hi", "m1");
    assert |s.messages| == 1;
    s.DeleteRoom("a", true);
    assert s.rooms == [] && s.currentRoom == None && s.messages == [];
    assert s.socket == None && s.sockets[0].ready == Closing && !s.isConnected;
  }

  /** Names are unique per user: a second user may reuse a name, the same user may not. */
  method NamesArePerUser() {
    var db := new RoomTable.Table();
    var r1 := ChatRouter.CreateRoom(db, "alice", "general");
    assert r1 == Success(RoomTable.RoomRecord(1, "general", "alice"));
    var r2 := ChatRouter.CreateRoom(db, "bob", "general");
    assert r2 == Success(RoomTable.RoomRecord(2, "general", "bob"));
    assert db.rows[0] == RoomTable.ChatRoom(1, "general", "alice");
    assert RoomTable.NameTaken(db.rows, "alice", "general");
    var r3 := ChatRouter.CreateRoom(db, "alice", "general");
    assert r3 == Failure(ChatRouter.RoomExists) && |db.rows| == 2;
    var r4 := RoomRouter.UpdateRoom(db, "alice", 1, "general");
    assert r4 == Failure(RoomRouter.NameExists);
    var r5 := RoomRouter.DeleteRoom(db, "bob", 1);
    assert r5 == Failure(RoomTable.RoomNotFound) && |db.rows| == 2;
  }
}
