# Chat session and room directory, modelled in Dafny

This project models the core of a customer-service chat application:

- **The chat page's session state** (`ui/src/pages/Chat.tsx`). The page holds:
  - the room list and the current room;
  - the message log;
  - the WebSocket bound to the current room and the "connected" flag;
  - the error banner, the rename box and the message input.

  Each handler and each effect is one method of the class `ChatSession.Session`. The class also has a method for each browser event on a socket: open, close and an inbound message. The list updaters that the handlers pass to `setRooms`/`setMessages` are pure functions with lemmas:
  - the delete `filter`;
  - the rename `map`;
  - the initial sort by descending id;
  - the feedback toggle `map`;
  - the room-change reset.
- **The room directory of the backend** (`api/router/room.py`, `api/router/chat.py`). This is a table of `(id, roomName, username)` rows, and every query is filtered by the signed-in user. Creating and renaming a room reject a name the user already holds (400). A room that is missing or owned by someone else gives 404. With requests handled one at a time, every handler keeps "no user holds two rooms with the same name" (see "## Left out" for concurrent requests).

Inputs the code does not control are parameters:
- the directory's replies (`None` for a failed request);
- the generated room name;
- the fresh message ids;
- the event that ends a wait on a socket (open, error or timeout);
- the socket events themselves.

WebSockets are kept as values in `Session.sockets`: every socket the page ever created, oldest first. The `socket` state variable is an index into that list. This makes "at most one live socket" a statement the model can prove (`Session.OneLiveSocket`).

The model follows the code as written, including where it departs from an idealised session manager:
- **No optimistic append.** A user message is logged only after `waitForSocketOpen` resolves. A rejected wait logs nothing and sets the error.
- **Stale socket in the send handler.** `handleSendMessage` uses the socket of the render it was created in. Without a current room that socket is `null`. The room is created and the message logged for it, but the message is never waited for or transmitted (`Session.SentWithNewRoom`).
- **The wait's handler wins.** `waitForSocketOpen` overwrites the `onopen` installed by the socket effect. After a wait that had to wait, the socket's open event no longer sets "connected" (scenarios `SendWhileConnecting` and `TimeoutThenLateOpen`). This is a property of the handler alone. The page calls `handleSendMessage` only while "connected" (`ui/src/pages/Chat.tsx` lines 428, 445, 447, 453), and by then the socket is already open, so the wait returns at once and replaces nothing. The stale close event below is the path by which the page itself reads "disconnected" over an open socket.
- **A late close event from the old socket.** The old socket is closed when the room changes. Its `onclose` runs whenever its close event arrives and clears "connected", even after the new socket has opened (`Session.SocketClosed`, scenario `StaleCloseClearsConnection`).
- **Feedback ignores the role.** `handleFeedback` toggles any message with the id, user messages too.
- **No pending-send queue and no explicit cancellation.** There is no queue of unsent messages, and nothing cancels a pending wait by name. A room switch during a wait does end it: the cleanup's `close()` on the still-connecting socket fails the connection, the `onerror` installed by the wait rejects, and the send ends with "Failed to send message." and appends nothing. That interleaving is not modelled (see below).
- **Renaming the current room reconnects.** The rename replaces the current room by a new object, so the room-change effects run again. The socket is closed and reopened, and the log is kept because the id is unchanged.

`Scenarios` (in `scenarios.dfy`) holds event sequences checked against the contracts alone.

## Model

| member | source | states |
|---|---|---|
| `JsText.TrimStart` | ui/src/pages/Chat.tsx:163 | the result is a suffix of the input, everything dropped is white space, and the result does not start with white space |
| `JsText.TrimEnd` | ui/src/pages/Chat.tsx:163 | the result is a prefix of the input, everything dropped is white space, and the result does not end with white space |
| `JsText.Trim` | ui/src/pages/Chat.tsx:163 | `trim()` never lengthens, and a non-empty result neither starts nor ends with white space (also the rename guard at line 224) |
| `JsText.TrimEmptyIffBlank` | ui/src/pages/Chat.tsx:163 | `!s.trim()` holds exactly when every character of the input is white space (also the rename guard at line 224) |
| `JsText.Less` | ui/src/pages/Chat.tsx:108 | a string is smaller only than a non-empty, different string |
| `JsText.LessIsFirstDifference` | ui/src/pages/Chat.tsx:108 | the comparison is IsLessThan of section 7.2.13 of ECMA-262: a proper prefix, or the smaller character at the first index where the strings differ |
| `JsText.LessIrreflexive` | ui/src/pages/Chat.tsx:108 | no room id is greater than itself under JavaScript string comparison |
| `JsText.LessTransitive` | ui/src/pages/Chat.tsx:108 | JavaScript string comparison is transitive |
| `JsText.LessTotal` | ui/src/pages/Chat.tsx:108 | of two different ids one is smaller, so the sort comparator orders any two distinct ids |
| `RoomList.RemoveRoom` | ui/src/pages/Chat.tsx:211 | the delete filter keeps exactly the rooms whose id differs from the deleted one |
| `RoomList.RemoveRoomDistributes` | ui/src/pages/Chat.tsx:211 | the filter keeps the survivors' relative order (it distributes over concatenation) |
| `RoomList.RemoveAbsentRoom` | ui/src/pages/Chat.tsx:211 | deleting an id no room carries leaves the list unchanged |
| `RoomList.RemoveRoomIdempotent` | ui/src/pages/Chat.tsx:211 | filtering twice by the same id equals filtering once |
| `RoomList.RenameRoom` | ui/src/pages/Chat.tsx:227-229 | length and ids unchanged; exactly the rooms with the matching id take the returned name, all others keep theirs |
| `RoomList.InsertByIdDesc` | ui/src/pages/Chat.tsx:106-108 | inserting a room into a list sorted by descending id keeps it sorted and adds exactly that room |
| `RoomList.GreatestGoesFirst` | ui/src/pages/Chat.tsx:106-108 | a room whose id is not less than the head's may be put in front of a sorted list |
| `RoomList.HeadStaysFirst` | ui/src/pages/Chat.tsx:106-108 | the head of a sorted list stays first when a room with a smaller id is inserted behind it |
| `RoomList.SortByIdDesc` | ui/src/pages/Chat.tsx:106-108 | the initial sort returns a permutation of the listed rooms in descending id order |
| `RoomList.SortedHeadHasGreatestId` | ui/src/pages/Chat.tsx:106-110 | the room made current after loading has the greatest id of the list |
| `RoomList.SortedIsUnique` | ui/src/pages/Chat.tsx:106-108 | when an id identifies a room, two descending arrangements of the same rooms are equal |
| `RoomList.SortIsTheDescendingOrder` | ui/src/pages/Chat.tsx:106-108 | when ids identify rooms, every permutation in descending id order equals the model's result |
| `RoomList.SortedHeadsAgree` | ui/src/pages/Chat.tsx:106-108 | two descending arrangements of the same rooms start with the same room |
| `RoomList.TailsAgree` | ui/src/pages/Chat.tsx:106-108 | after equal first rooms, the rest of the two lists hold the same rooms |
| `MessageLog.Toggled` | ui/src/pages/Chat.tsx:250 | the vote is cleared exactly when it equals the one clicked, and otherwise becomes the one clicked |
| `MessageLog.ToggleFeedback` | ui/src/pages/Chat.tsx:246-254 | same length and order; each message with the id has its vote toggled (same vote clears, other vote replaces), whatever its role; all other messages unchanged |
| `MessageLog.SameVoteTwice` | ui/src/pages/Chat.tsx:250 | the same vote twice returns every message to its state, except that a message holding the other vote ends with none |
| `MessageLog.SameVoteTwiceRestores` | ui/src/pages/Chat.tsx:250 | a message without a vote: voting twice the same way leaves the log as it was |
| `MessageLog.OtherVoteReplaces` | ui/src/pages/Chat.tsx:250 | one vote followed by the other leaves the second vote on every message with the id |
| `MessageLog.UnknownIdUnchanged` | ui/src/pages/Chat.tsx:247-253 | an id no message carries leaves the log unchanged |
| `MessageLog.ToggleKeepsScope` | ui/src/pages/Chat.tsx:246-254 | the toggle keeps every message in its room and the ids distinct |
| `MessageLog.KeepForRoom` | ui/src/pages/Chat.tsx:119-124 | the reset returns the old log or the empty one; a kept log starts with a message of the current room |
| `MessageLog.NoRoomNoMessages` | ui/src/pages/Chat.tsx:121-122 | with no current room the log is empty |
| `MessageLog.KeepForRoomScopes` | ui/src/pages/Chat.tsx:119-124 | a log of one room's messages is, after the reset, a log of the new current room's messages (nothing leaks across rooms) |
| `MessageLog.KeepForSameId` | ui/src/pages/Chat.tsx:230-233 | a new current room object with the same id (a renamed room) keeps the log |
| `MessageLog.SwitchAwayAndBackClears` | ui/src/pages/Chat.tsx:119-124 | switching to a room with another id and back leaves the first room's log empty |
| `Sockets.ConnectAddsOneLive` | ui/src/pages/Chat.tsx:135-153 | the socket the effect creates is live: appended to a list with no live socket, it makes exactly one |
| `Sockets.WaitForSocketOpen` | ui/src/pages/Chat.tsx:52-65 | resolves iff the socket is open or opens; rejects with a socket error iff a connecting socket errors; otherwise times out |
| `Sockets.AfterWait` | ui/src/pages/Chat.tsx:54-63 | an open socket is untouched; otherwise `onopen` is replaced by the wait's; the socket is open afterwards iff the wait resolved |
| `Sockets.Close` | ui/src/pages/Chat.tsx:156 | `close()` leaves no socket live, changes nothing else, and does nothing to a socket that is not live |
| `Sockets.TransmitKeepsLiveCount` | ui/src/pages/Chat.tsx:185 | `socket.send` on any socket of the list neither opens nor closes a socket |
| `Sockets.AtMostOneLive` | ui/src/pages/Chat.tsx:126-160 | when only the newest socket may be live, at most one socket is live |
| `ChatSession.CloseCurrentLeavesNoneLive` | ui/src/pages/Chat.tsx:155-159 | the effect's cleanup never adds a live socket, and when only the referenced socket was live none is live afterwards |
| `ChatSession.Session.constructor` | ui/src/pages/Chat.tsx:68-79 | the page mounts with no rooms, no current room, an empty log, no socket and "disconnected" |
| `ChatSession.Session.OneLiveSocket` | ui/src/pages/Chat.tsx:126-160 | in any consistent session at most one socket is live |
| `ChatSession.Session.SetCurrentRoom` | ui/src/pages/Chat.tsx:119-160 | the old socket is closed before the new one is created; the log is reset; with no room there is no socket and the log is empty; "disconnected" afterwards |
| `ChatSession.Session.SelectRoom` | ui/src/pages/Chat.tsx:318 | clicking the current room changes nothing; any other room runs the room-change effects |
| `ChatSession.Session.Load` | ui/src/pages/Chat.tsx:95-117 | an empty list yields exactly one created room, current; otherwise rooms sorted by descending id with the first current; a failure only sets the error |
| `ChatSession.Session.SendMessage` | ui/src/pages/Chat.tsx:162-191 | blank input is a no-op; otherwise the branch without a room or the branch in the current room, as below |
| `ChatSession.Session.SendWithNewRoom` | ui/src/pages/Chat.tsx:165-186 | exactly one room is created, prepended and made current; exactly one user message for it is logged; nothing is transmitted; a failed create only sets the error |
| `ChatSession.Session.SendInRoom` | ui/src/pages/Chat.tsx:174-190 | on a resolved wait, exactly one user message for the current room is appended, transmitted on its socket, and the input cleared; on a rejected wait nothing is appended and the error is set; a wait that waited leaves "disconnected" |
| `ChatSession.Session.CreateRoom` | ui/src/pages/Chat.tsx:193-206 | the created room is prepended and made current; a failure only sets the error; loading ends false |
| `ChatSession.Session.DeleteRoom` | ui/src/pages/Chat.tsx:208-216 | on success the rooms with that id are filtered out and there is no current room iff it was the deleted one; on failure rooms and connection unchanged |
| `ChatSession.Session.StartRename` | ui/src/pages/Chat.tsx:218-221 | the rename box opens for the room, on its current name |
| `ChatSession.Session.EditNewRoomName` | ui/src/pages/Chat.tsx:287 | typing sets the rename text |
| `ChatSession.Session.SaveRename` | ui/src/pages/Chat.tsx:223-239 | blank name is a no-op; on success only matching rooms take the returned name, the current room is renamed iff it is that room (log kept) and the rename box closes; on failure only the error |
| `ChatSession.Session.ApplyRename` | ui/src/pages/Chat.tsx:226-235 | the rooms with the id take the returned name; the current room, if it has that id, is replaced by a renamed copy, so the socket is reopened and the log kept; otherwise the connection is untouched; the rename box closes |
| `ChatSession.Session.CancelRename` | ui/src/pages/Chat.tsx:241-244 | the rename box closes and its text is cleared |
| `ChatSession.Session.Feedback` | ui/src/pages/Chat.tsx:246-254 | the log becomes the toggled log, the session invariant kept |
| `ChatSession.Session.EditDraft` | ui/src/pages/Chat.tsx:444 | typing sets the message input |
| `ChatSession.Session.ErrorTimerFires` | ui/src/pages/Chat.tsx:88-93 | the error banner is cleared |
| `ChatSession.Session.SocketOpened` | ui/src/pages/Chat.tsx:152 | a connecting socket becomes open; "connected" is set only if the effect's `onopen` is still installed |
| `ChatSession.Session.SocketClosed` | ui/src/pages/Chat.tsx:153 | a socket's close event closes it and clears "connected", whether or not it is the current socket |
| `ChatSession.Session.SocketMessage` | ui/src/pages/Chat.tsx:137-146 | an open socket's data appends exactly one assistant message without feedback, for the socket's room, which is the current room, after all others; otherwise nothing |
| `RoomTable.NameTaken` | api/router/room.py:23-27 | the per-user name query finds a row only for a user who has at least one room (also room.py:91-95 and api/router/chat.py:24-28) |
| `RoomTable.NameTakenIffListed` | api/router/room.py:23-27 | a name is taken iff one of the rooms `list_rooms` reports for the user has it |
| `RoomTable.Owns` | api/router/room.py:62-66 | the owner-filtered id query never finds a negative id (also room.py:82-86 and 115-119) |
| `RoomTable.OwnsIffListed` | api/router/room.py:62-66 | get, update and delete find a room iff one of the rooms `list_rooms` reports for the user has that id |
| `RoomTable.IndexOfOwned` | api/router/room.py:62-66 | finds a row with the id owned by the user iff one exists |
| `RoomTable.OwnedRowIsUnique` | api/router/room.py:62-66 | with distinct ids, the owner-filtered lookup finds the row with the id iff the user owns it |
| `RoomTable.OwnedBy` | api/router/room.py:50 | exactly the rows whose owner is the user |
| `RoomTable.OwnedByAppend` | api/router/room.py:50 | scanning one more row adds it to the user's rows iff the user owns it |
| `RoomTable.AddPreservesUnique` | api/router/room.py:23-35 | a row whose name its owner does not hold keeps names unique per user |
| `RoomTable.RenamePreservesUnique` | api/router/room.py:90-99 | giving a row a name its owner does not hold keeps names unique per user |
| `RoomTable.RemovePreservesInvariants` | api/router/room.py:123 | removing a row keeps names unique per user and ids distinct |
| `RoomTable.RemoveRemovesOnlyThatId` | api/router/room.py:115-123 | with distinct ids, removing the row found by id removes exactly the rows with that id |
| `RoomTable.OtherOwnersDoNotBlock` | api/router/chat.py:24-28 | another user's room never makes a name taken: the check is scoped by username |
| `RoomTable.Table.Add` | api/router/room.py:34-37 | the new row gets the next id, not held by any row, and is appended |
| `RoomTable.Table.SetName` | api/router/room.py:99-101 | only that row's name changes |
| `RoomTable.Table.Delete` | api/router/room.py:123-124 | exactly that row is removed, the others keep their order, and no remaining room carries its id |
| `RoomRouter.SameSummary` | api/router/room.py:52 | two rows are listed alike iff they agree on id and name: the owner is not reported |
| `RoomRouter.Summaries` | api/router/room.py:52 | one `{id, roomName}` per row, in order |
| `RoomRouter.SummariesOfOwned` | api/router/room.py:50-53 | a summary is listed iff it is that of a row the user owns |
| `RoomRouter.CreateRoom` | api/router/room.py:17-42 | 400 and an unchanged table on a name the user holds; otherwise exactly one new row with the name, owned by the user, and the create message with its id, name and owner returned; uniqueness kept |
| `RoomRouter.ListRooms` | api/router/room.py:45-53 | exactly the user's rooms, as summaries |
| `RoomRouter.GetRoom` | api/router/room.py:56-72 | 404 iff the room is missing or someone else's; otherwise that room with its owner |
| `RoomRouter.UpdateRoom` | api/router/room.py:75-106 | 404 if not the user's room (any id, negative ones included); 400 if any of the user's rooms has the name; otherwise only that row's name changes and the reply carries the update message with the id and new name; uniqueness kept |
| `RoomRouter.OwnNameIsTaken` | api/router/room.py:90-97 | a room's own name is always taken, so renaming to the same name gives 400 |
| `RoomRouter.DeletedMessage` | api/router/room.py:127 | the confirmation is 33 characters longer than the room's name and holds the name at offset 11 |
| `RoomRouter.DeleteRoom` | api/router/room.py:109-128 | 404 if not the user's room; otherwise exactly that row is removed and its name reported |
| `ChatRouter.CreateRoom` | api/router/chat.py:17-45 | 400 and no new row on a name the user holds; otherwise exactly one new row, owned by the user, with the requested name, and its fresh id, name and owner returned; uniqueness kept |

## Left out

- Rendering, styling, dropdowns and the collapsible room list of `ui/src/pages/Chat.tsx` (lines 256-465). Only the input events that feed the handlers are modelled (room click, the two text inputs).
- The page guards sending with `isConnected` (lines 428, 445, 453). `SendMessage` models the handler itself, which does not check it.
- Timers are events:
  - the 3000 ms error timer is `ErrorTimerFires`;
  - the 5000 ms socket timeout is `TimeoutEvent`;
  - the 200 ms pause in `handleSendMessage` is not modelled, and the room-change effects run at once.
- Message timestamps (`new Date()`) are not modelled: a clock.
- `generateRoomName` and `crypto.randomUUID` are foreign libraries. Names and ids are parameters, and a new message id is required to be fresh.
- `connectChatSocket` from `ui/src/lib/ws` is not part of this model. The model assumes it opens a socket for the room and calls its message callback once per message while the socket is open. Its error callback is not modelled.
- `ui/src/lib/chat.ts` and its `fetchWithAuth` are not part of this model. Each directory call is its reply, or `None` for a thrown error.
- Interleavings inside a handler: each handler runs to completion as one event. Another event arriving while `handleSendMessage` awaits is not modelled. In particular, a room switch during the wait, which closes the connecting socket and so rejects the wait with a socket error, is not modelled.
- `SelectRoom`: React compares the current room by object identity; the model compares by value. A click on an equal but distinct object does not re-run the effects in the model.
- `JsText.Less`: JavaScript compares UTF-16 code units, the model compares Unicode scalar values. The two orders differ only between code points above U+FFFF and those in U+E000-U+FFFF.
- Room ids on the page are strings, as their declared type says. If the server sent numbers, `>` would compare them numerically.
- The database: SQLAlchemy sessions, commits and `get_db` are not modelled. The table is a sequence in insertion order with an autoincrement counter.
  - SQL returns rows in an unspecified order; `list_rooms` lists them in table order.
  - A non-integer `room_id` is rejected by FastAPI before the handler runs; that is not modelled. Any integer, negative ones included, reaches the handlers and is modelled: no row carries it, so the answer is 404.
- Router requests are modelled as running one at a time. `create_room` checks the name and then inserts in separate statements (`api/router/room.py` lines 23-37, `api/router/chat.py` lines 24-38). `update_room` checks and then updates (`room.py` lines 91-100). FastAPI runs these handlers in a thread pool, and no unique constraint on (username, roomName) is visible. Two concurrent requests with the same name can both pass the check and both commit, breaking the per-user uniqueness that `AddPreservesUnique`, `RenamePreservesUnique` and the routers' contracts promise for serialized requests. This check-then-write race is not modelled.
- `SortByIdDesc`: the comparator `(a, b) => (a.id > b.id ? -1 : 1)` never returns 0, so it is not a consistent comparator. ECMA-262 then leaves the resulting order implementation-defined. The model assumes the engine returns the descending order for distinct ids, which `SortIsTheDescendingOrder` shows is unique.
- Authentication (`get_current_user`, `getUsernameFromToken`): the signed-in user is a parameter.
- `api/router/ws_chat.py`, `api/libs/llm.py`, `ui/src/pages/Settings.tsx`, `ui/src/pages/Documents.tsx`, `api/config.py`, `api/main.py` and `api/dependency/index.py` are not modelled. They are socket and database plumbing, a mocked language-model call, forms, static data and wiring. Of the two room routers only `chat.router` is mounted (`api/main.py` line 18); `room.py` is modelled as written although it is not mounted.
