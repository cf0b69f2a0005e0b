/**
 * The browser WebSocket objects the chat page opens, as values: the room the
 * socket was opened for, its ready state, which callback `onopen` currently
 * holds, and the payloads transmitted on it. `waitForSocketOpen` is a function
 * of the ready state and of the event that ends the wait.
 */
module Sockets {

  datatype ReadyState = Connecting | Open | Closing | Closed

  /**
   * The callback in `socket.onopen`: the socket effect installs one that marks
   * the page connected; `waitForSocketOpen` overwrites it with one that only
   * resolves the wait.
   */
  datatype OpenHandler = MarksConnected | ResolvesWait

  datatype Socket = Socket(roomId: string, ready: ReadyState, onOpen: OpenHandler, sent: seq<string>)

  /** The event that ends a wait on a socket that is not yet open. */
  datatype WaitEvent = OpenEvent | ErrorEvent | TimeoutEvent

  datatype WaitFailure = SocketTimeout | SocketError

  datatype WaitOutcome = Resolved | Rejected(reason: WaitFailure)

  /** A socket that may still open or deliver data. */
  predicate IsLive(r: ReadyState) {
    r == Connecting || r == Open
  }

  /** The socket the socket effect creates for a room. */
  function Connect(roomId: string): (s: Socket)
    ensures s.roomId == roomId && IsLive(s.ready) && s.ready != Open
    ensures s.onOpen == MarksConnected && s.sent == []
  {
    Socket(roomId, Connecting, MarksConnected, [])
  }

  /**
   * `waitForSocketOpen(socket)`: resolves at once on an open socket; on a
   * connecting one, resolves on the open event and rejects on an error or on
   * the 5000 ms timer. A closing or closed socket never opens, so only the timer
   * can end that wait.
   */
  function WaitForSocketOpen(ready: ReadyState, event: WaitEvent): (r: WaitOutcome)
    ensures r == Resolved <==> ready == Open || (ready == Connecting && event == OpenEvent)
    ensures r == Rejected(SocketError) <==> ready == Connecting && event == ErrorEvent
    ensures r == Rejected(SocketTimeout) <==> ready != Open && (ready != Connecting || event == TimeoutEvent)
  {
    if ready == Open then Resolved
    else if ready != Connecting then Rejected(SocketTimeout)
    else match event
      case OpenEvent => Resolved
      case ErrorEvent => Rejected(SocketError)
      case TimeoutEvent => Rejected(SocketTimeout)
  }

  /**
   * The socket after the wait: unless it was already open, its `onopen` now
   * resolves the wait, and it has opened (open event) or failed and closed
   * (error event, which the close event follows).
   */
  function AfterWait(s: Socket, event: WaitEvent): (r: Socket)
    ensures r.roomId == s.roomId && r.sent == s.sent
    ensures s.ready == Open ==> r == s
    ensures s.ready != Open ==> r.onOpen == ResolvesWait
    ensures r.ready == Open <==> WaitForSocketOpen(s.ready, event) == Resolved
    ensures IsLive(r.ready) ==> IsLive(s.ready)
  {
    if s.ready == Open then s
    else if s.ready != Connecting then s.(onOpen := ResolvesWait)
    else match event
      case OpenEvent => s.(onOpen := ResolvesWait, ready := Open)
      case ErrorEvent => s.(onOpen := ResolvesWait, ready := Closed)
      case TimeoutEvent => s.(onOpen := ResolvesWait)
  }

  /** `socket.close()`: a live socket starts closing; otherwise nothing happens. */
  function Close(s: Socket): (r: Socket)
    ensures !IsLive(r.ready)
    ensures r.roomId == s.roomId && r.onOpen == s.onOpen && r.sent == s.sent
    ensures !IsLive(s.ready) ==> r == s
  {
    if IsLive(s.ready) then s.(ready := Closing) else s
  }

  /**
   * `socket.send(payload)`: an open socket transmits the payload; a closing or
   * closed one discards it. (On a connecting socket the browser throws; the
   * page only sends after the wait has resolved, so that case does not arise.)
   */
  function Transmit(s: Socket, payload: string): (r: Socket)
    ensures r.roomId == s.roomId && r.ready == s.ready && r.onOpen == s.onOpen
    ensures r.sent == if s.ready == Open then s.sent + [payload] else s.sent
  {
    if s.ready == Open then s.(sent := s.sent + [payload]) else s
  }

  /** 1 for a live socket, 0 otherwise. */
  function Live(s: Socket): nat {
    if IsLive(s.ready) then 1 else 0
  }

  /** Number of live sockets in a list. */
  function LiveCount(ss: seq<Socket>): nat {
    if ss == [] then 0 else Live(ss[0]) + LiveCount(ss[1..])
  }

  /** Replacing one socket changes the count by that socket's liveness alone. */
  lemma {:induction false} LiveCountUpdate(ss: seq<Socket>, k: nat, x: Socket)
    requires k < |ss|
    ensures LiveCount(ss[k := x]) == LiveCount(ss) - Live(ss[k]) + Live(x)
  {
    if k == 0 {
      assert ss[k := x][1..] == ss[1..];
    } else {
      LiveCountUpdate(ss[1..], k - 1, x);
      assert ss[k := x][1..] == ss[1..][k - 1 := x];
    }
  }

  /** Appending a socket adds its liveness to the count. */
  lemma {:induction false} LiveCountAppend(ss: seq<Socket>, x: Socket)
    ensures LiveCount(ss + [x]) == LiveCount(ss) + Live(x)
  {
    if ss == [] {
      assert ss + [x] == [x];
    } else {
      LiveCountAppend(ss[1..], x);
      assert (ss + [x])[1..] == ss[1..] + [x];
    }
  }

  /** A list in which no socket is live counts zero. */
  lemma {:induction false} NoneLive(ss: seq<Socket>)
    requires forall i :: 0 <= i < |ss| ==> !IsLive(ss[i].ready)
    ensures LiveCount(ss) == 0
  {
    if ss != [] {
      NoneLive(ss[1..]);
    }
  }

  /** The socket effect's new socket is the one live socket of a list that had none. */
  lemma ConnectAddsOneLive(ss: seq<Socket>, roomId: string)
    requires LiveCount(ss) == 0
    ensures LiveCount(ss + [Connect(roomId)]) == 1
  {
    LiveCountAppend(ss, Connect(roomId));
  }

  /** Transmitting on a socket never opens or closes any socket. */
  lemma TransmitKeepsLiveCount(ss: seq<Socket>, k: nat, payload: string)
    requires k < |ss|
    ensures LiveCount(ss[k := Transmit(ss[k], payload)]) == LiveCount(ss)
  {
    LiveCountUpdate(ss, k, Transmit(ss[k], payload));
  }

  /** When only the newest socket may be live, at most one socket is live. */
  lemma {:induction false} AtMostOneLive(ss: seq<Socket>)
    requires forall i :: 0 <= i < |ss| - 1 ==> !IsLive(ss[i].ready)
    ensures LiveCount(ss) <= 1
  {
    if |ss| > 1 {
      AtMostOneLive(ss[1..]);
    } else if |ss| == 1 {
      assert ss[1..] == [];
    }
  }
}
