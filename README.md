# Klat-It presence and room routing, modelled in Dafny

Klat-It is a one-to-one chat relay. Its server keeps two maps: which user each
socket identified as, and how many live sockets each user has. From these it decides
when to announce a user "online" or "offline". It also routes messages and typing
signals to the sockets that joined a conversation's room. The browser client
computes the room name from the two user ids. It updates its user list from presence
broadcasts and decides how to label each message.

The model has seven modules:

- `Protocol` (protocol.dfy): identifiers, payload fields, server events and audiences.
  A JavaScript value that may be missing is a `Field` (`Absent` or `Str`). `Truthy`
  is JavaScript truthiness for such a value.
- `Presence` (presence.dfy): the two presence maps as a `Registry` value. The
  `user_online` and `disconnect` handlers are the step functions `Identify` and
  `Disconnect`. This module also holds the invariants and the lemmas over whole
  sequences of handlers (`Replay`).
- `Rooms` (rooms.dfy): room membership (`map<Room, set<SocketId>>`), joining,
  socket.io's leave-all-rooms on disconnect, and the two room-scoped audiences.
- `Server` (server.dfy): class `ChatServer`. Its fields are the two maps and the room
  membership, and each socket handler is a method. The methods that change state are
  proved equal to the `Presence`/`Rooms` step functions. They also keep the registry
  invariant `Valid()`.
- `JsString` (js_string.dfy): `String.prototype.trim` and the string `<` that the
  default `Array.prototype.sort` uses.
- `ChatRoom` (chat_room.dfy): the room key, the presence update of the user list, the
  self-filter, the send guard and payload, and appending received messages.
- `MessageList` (message_list.dfy): `isCurrentUser`,
  `getSenderName`, when the sender name is displayed, and the row key.

The two outside writes are parameters of the handler:

- The directory write (`User.findByIdAndUpdate`) is a `writeOk` flag. A failed write
  suppresses the broadcast that follows it, because both sit in the same `try`.
- The message save plus re-read is an `Option<MessageId>`.

Each handler is one atomic step, because the counters change before the handler's
first `await`.

Behaviour of the code as written that the model keeps:

- **Repeated identification.** `user_online` does not reject a socket that already
  identified. It overwrites the binding and counts the socket again. For the code as
  written, the model proves that a user's count never falls below the number of
  sockets bound to it (`Presence.Valid`). It proves equality when every socket
  identifies once (`Presence.ReplayKeepsExact`). `Presence.RepeatedIdentifyStrandsUser`
  shows the other case: after a repeated identification, that socket's disconnect
  leaves the user counted once more than its live sockets and announces nothing.
  `Presence.StrandedNeverOffline` shows that from then on no sequence of handlers
  announces the user offline, and the user stays counted online even after its last
  socket closes.
- **Whitespace-only content.** The server's check `!data.content` accepts it. Only
  the client trims.
- **Failed presence write.** It suppresses the presence broadcast. The broadcast does
  not go out from the counter alone.
- **Unchecked sender.** The server trusts `data.sender`. It does not compare it with
  the socket's bound user.

## Model

| member | source | states |
|---|---|---|
| `Presence.Identify` | backend/server.js:63-80 | a falsy user id changes nothing and emits nothing; otherwise the socket is bound to the user (overwriting any earlier binding), that user's count rises by exactly one whatever it was, every other count is unchanged, and a single "online" status is emitted iff the count was 0 and the directory write succeeded |
| `Presence.Floor0` | backend/server.js:134 | `Math.max(0, n)`: non-negative, at least `n`, and equal to `n` or 0 |
| `Presence.CountOf` | backend/server.js:68 | the count lookup with a 0 fallback: the result is 0 exactly when the entry is missing or 0, and otherwise the stored count |
| `Presence.CountOfUnderValid` | backend/server.js:133 | in every reachable registry the 0 fallback only stands in for a missing entry: a user has a positive count iff it has an entry, and the count is that entry |
| `Presence.Disconnect` | backend/server.js:127-147 | a socket that never identified changes nothing and emits nothing; otherwise its binding is removed, its user's count becomes max(0, count - 1), the entry is present iff that is positive, other counts are unchanged, and a single "offline" status is emitted iff the count reached 0 and the write succeeded |
| `Presence.IdentifyKeepsValid` | backend/server.js:56-80 | `user_online` keeps stored counts at least 1, bound ids non-empty, and no user with more bound sockets than its count, even on repeated identification |
| `Presence.BoundUserCounted` | backend/server.js:66-69 | under the invariant, the user of a bound socket has count at least 1 |
| `Presence.DisconnectKeepsValid` | backend/server.js:127-147 | `disconnect` keeps the invariant, and for a bound socket the count drops by exactly one (the floor at 0 is never used) |
| `Presence.OfflineOnlyFromOne` | backend/server.js:133-139 | "offline" is emitted only for a bound socket whose user had count exactly 1 |
| `Presence.IdentifyFreshKeepsExact` | backend/server.js:63-69 | identifying a socket not yet bound keeps every user's count equal to its number of bound sockets |
| `Presence.DisconnectKeepsExact` | backend/server.js:127-146 | `disconnect` keeps every user's count equal to its number of bound sockets |
| `Presence.RepeatedIdentifyStrandsUser` | backend/server.js:63-146 | a socket identifying twice as the same user and then disconnecting leaves that user counted once more than its sockets, counted online, and announces nothing |
| `Presence.StepSurplus` | backend/server.js:63-147 | under the invariant, no handler lowers the amount by which a user's count exceeds its bound sockets, and while that amount is at least 1 no handler announces the user offline |
| `Presence.StrandedNeverOffline` | backend/server.js:63-147 | once a user is counted more times than it has bound sockets, no sequence of handlers ever announces it offline, and it stays counted online |
| `Presence.ReplayKeepsValid` | backend/server.js:56-147 | any sequence of `user_online`/`disconnect` handlers keeps the registry invariant |
| `Presence.StepBalance` | backend/server.js:63-147 | one handler with a successful write emits "online" minus "offline" for a user equal to the change in whether that user is counted online |
| `Presence.ReplayBalance` | backend/server.js:63-147 | over any sequence of handlers with successful writes, "online" minus "offline" broadcasts per user equal the change in whether the user is counted online: announcements happen exactly on 0 -> positive and positive -> 0 transitions, whatever the number of sockets |
| `Presence.ReplayKeepsExact` | backend/server.js:56-147 | if each socket identifies at most once, after any sequence of handlers each stored count equals the user's number of live sockets |
| `Presence.ReconnectAnnouncesOnlineOfflineOnline` | backend/server.js:63-147 | a user's only socket identifying, dropping and a new socket identifying yields exactly online, offline, online |
| `Rooms.Join` | backend/server.js:83 | joining adds the socket to that room's members and leaves every other room unchanged |
| `Rooms.JoinIdempotent` | backend/server.js:82-86 | joining a room twice equals joining it once |
| `Rooms.LeaveAll` | backend/server.js:127-131 | on disconnect the socket leaves every room, other members stay, and no empty room remains |
| `Rooms.RejoinReplacesSocket` | backend/server.js:82-86 | after a drop and a rejoin by a new socket, the room's members are the old ones with the new socket in place of the dropped one |
| `Rooms.RoomAudience` | backend/server.js:111 | `io.to(room)` reaches exactly the room's members, the sender's socket included when it joined |
| `Rooms.RelayAudience` | backend/server.js:119-125 | `socket.to(room)` reaches exactly the room's members other than the sending socket |
| `Server.ChatServer.constructor` | backend/server.js:55-57 | the server starts with empty presence maps and no rooms, satisfying the registry invariant |
| `Server.ChatServer.UserOnline` | backend/server.js:63-80 | the handler updates the maps in place exactly as `Presence.Identify`, keeps the invariant and leaves rooms alone |
| `Server.ChatServer.JoinRoom` | backend/server.js:82-86 | the handler adds the socket to the room and acknowledges that socket alone with the identical room string; presence is unchanged |
| `Server.ChatServer.SendMessage` | backend/server.js:89-117 | storage is called iff room, sender and content are all truthy, with those values and the server's timestamp; a broadcast happens iff storage succeeded, as one `receive_message` of the stored message to every member of the message's room |
| `Server.ChatServer.Typing` | backend/server.js:119-121 | one `user_typing` carrying the payload unchanged, to every member of its room except the sending socket |
| `Server.ChatServer.StopTyping` | backend/server.js:123-125 | one `user_stop_typing` carrying the payload unchanged, to every member of its room except the sending socket |
| `Server.ChatServer.Disconnect` | backend/server.js:127-147 | the handler updates the maps in place exactly as `Presence.Disconnect`, keeps the invariant, and takes the socket out of every room |
| `JsString.TrimStart` | frontend/src/components/Chat/ChatRoom.jsx:126 | the result is a suffix of the input, everything removed is whitespace, and it does not start with whitespace |
| `JsString.IsJsSpace` | frontend/src/components/Chat/ChatRoom.jsx:126 | the characters `trim()` removes: among ASCII exactly tab, line feed, vertical tab, form feed, carriage return and space; never a letter, a digit or `_` |
| `JsString.TrimEnd` | frontend/src/components/Chat/ChatRoom.jsx:126 | the result is a prefix of the input, everything removed is whitespace, and it does not end with whitespace |
| `JsString.Trim` | frontend/src/components/Chat/ChatRoom.jsx:126 | the result is no longer than the input and neither starts nor ends with whitespace |
| `JsString.TrimKeepsInnerPart` | frontend/src/components/Chat/ChatRoom.jsx:139 | `trim` returns a contiguous piece of the input and removes only whitespace before and after it |
| `JsString.TrimEmptyIff` | frontend/src/components/Chat/ChatRoom.jsx:126 | the content trims to empty iff it is all whitespace |
| `JsString.TrimIdempotent` | frontend/src/components/Chat/ChatRoom.jsx:139 | trimming the trimmed content changes nothing |
| `JsString.LessIrreflexive` | frontend/src/components/Chat/ChatRoom.jsx:92 | no id sorts before itself |
| `JsString.Less` | frontend/src/components/Chat/ChatRoom.jsx:92 | the string `<` the default `sort()` uses: a proper prefix sorts first, and no string sorts before one of its own prefixes |
| `JsString.LessTrichotomy` | frontend/src/components/Chat/ChatRoom.jsx:92 | of two different ids exactly one sorts first |
| `ChatRoom.RoomKey` | frontend/src/components/Chat/ChatRoom.jsx:92 | the key is one id, `_`, then the other |
| `ChatRoom.RoomKeyLesserFirst` | frontend/src/components/Chat/ChatRoom.jsx:92 | the key is the lesser id, `_`, then the greater |
| `ChatRoom.RoomKeySymmetric` | frontend/src/components/Chat/ChatRoom.jsx:92 | roomKey(a, b) == roomKey(b, a) |
| `ChatRoom.RoomKeyExample` | frontend/src/components/Chat/ChatRoom.jsx:135 | "u1" and "u2" give "u1_u2" from either side |
| `ChatRoom.RoomKeyInjective` | frontend/src/components/Chat/ChatRoom.jsx:92 | for ids without `_`, equal keys mean the same unordered pair of users |
| `ChatRoom.UpdateStatus` | frontend/src/components/Chat/ChatRoom.jsx:53-54 | the list keeps its length, order, ids and names; exactly the entries with the given id take the new online flag |
| `ChatRoom.UpdateStatusLatestWins` | frontend/src/components/Chat/ChatRoom.jsx:54 | two updates for the same user equal the later one alone |
| `ChatRoom.UpdateStatusCommutes` | frontend/src/components/Chat/ChatRoom.jsx:54 | updates for two different users give the same list in either order |
| `ChatRoom.OthersOf` | frontend/src/components/Chat/ChatRoom.jsx:79 | the loaded list holds exactly the server's entries whose id is not the current user's |
| `ChatRoom.OthersOfKeepsOrder` | frontend/src/components/Chat/ChatRoom.jsx:79 | filtering distributes over concatenation, so the server's order of the rest is kept |
| `ChatRoom.Compose` | frontend/src/components/Chat/ChatRoom.jsx:123-145 | nothing is emitted iff no user is selected, the trimmed content is empty, or the socket is not connected; an emitted message has room = roomKey(current, selected), sender = current id, content = trimmed input |
| `ChatRoom.ToWire` | frontend/src/components/Chat/ChatRoom.jsx:136-141 | the emitted payload as the server reads it: each field is present with the client's value, and it passes the required-field check iff room, sender and content are all non-empty |
| `Protocol.Complete` | backend/server.js:93 | passes iff none of room, sender and content is missing or the empty string; any non-empty content passes, whitespace-only content included |
| `ChatRoom.ComposedMessageComplete` | frontend/src/components/Chat/ChatRoom.jsx:135-141 | for a logged-in user, every message the client emits passes the server's required-field check and starts with a non-space |
| `ChatRoom.Receive` | frontend/src/components/Chat/ChatRoom.jsx:45-46 | the received message goes at the end and earlier messages are unchanged |
| `ChatRoom.ReceiveInOrder` | frontend/src/components/Chat/ChatRoom.jsx:45-46 | messages received one after another are appended in arrival order |
| `MessageList.IsCurrentUser` | frontend/src/components/Chat/MessageList.jsx:24-36 | false for a missing message or sender; for a string sender, holds iff it equals the current id; for an object with `_id`, iff `_id` equals it; `toString` is consulted only without `_id` |
| `MessageList.HasSender` | frontend/src/components/Chat/MessageList.jsx:25 | `message.sender` is truthy: the sender is an object or a non-empty id string |
| `MessageList.IsCurrentUserByIdentity` | frontend/src/components/Chat/MessageList.jsx:24-36 | a message is the current user's iff the id it is attributed to is the current id |
| `MessageList.SenderName` | frontend/src/components/Chat/MessageList.jsx:39-49 | "Unknown" with no sender or an object without username, "You" for any string sender, otherwise the username |
| `MessageList.RawIdOfOtherLabelledYou` | frontend/src/components/Chat/MessageList.jsx:42-43 | a string sender with another user's id is labelled "You" although it is not the current user's message |
| `MessageList.ShowsSenderName` | frontend/src/components/Chat/MessageList.jsx:73 | no name is shown for the current user's messages or for a string sender |
| `MessageList.ShowsSenderNameExactly` | frontend/src/components/Chat/MessageList.jsx:73 | the name is shown iff the sender is not a string id, the message is attributed to someone else, and the sender is not an object named "You" |
| `MessageList.KeyOf` | frontend/src/components/Chat/MessageList.jsx:66 | the row key is the message's `_id` when truthy, otherwise the list index |
| `MessageList.KeysDistinct` | frontend/src/components/Chat/MessageList.jsx:66 | the rows of one list have pairwise distinct keys iff the messages that have an `_id` have pairwise distinct `_id`s |

## Left out

- The HTTP side of the server is left out: the `/api/messages/:room` route, the
  MongoDB connection, CORS and startup (backend/server.js:1-53, 150-153). These are
  I/O. History ordering belongs to the database's sort.
- The database is left out. `User.findByIdAndUpdate` is the `writeOk` flag. `save`
  plus `findById().populate` is the `saved` parameter. The stored message keeps
  the server's room, sender, content and timestamp. The populated sender fields
  (username, avatar) are opaque and are not carried.
- `Server.ChatServer.SendMessage`: a re-read that finds no document is not modelled.
  The code would then broadcast `null`. The model treats every re-read as returning
  the message or failing.
- Interleaving across `await` is left out. Each handler is one atomic step. Its
  broadcast is emitted in that step, although the code emits it after the directory
  write or save completes, and other handlers may run in between.
- socket.io transport is left out: connection, heartbeat, reconnection and the
  delivery of an emission. Audiences stand for who would receive. Every connected
  socket is `Everyone`, not an explicit set.
- The room socket.io creates for every socket under the socket's own id is not
  modelled.
- `join_room`, `typing` or `stop_typing` with no `room` is not modelled: rooms are
  always strings here, while the code passes `undefined` on to `socket.join`,
  `socket.to` and the `joined_room` acknowledgement.
- `typing` or `stop_typing` without a payload is not modelled. Reading `data.room`
  then throws outside any `try`.
- Payloads that are neither strings nor missing are not modelled. This covers numeric
  user ids and object-valued rooms.
- Console logging is left out.
- The client's stale-closure branches are left out: the room re-join after reconnect
  (ChatRoom.jsx:37-40) and the `selectedUser` update (ChatRoom.jsx:55-57). They read
  state captured by an effect that runs once, so they never fire as written.
- Also left out on the client: history loading (`loadMessages`), `formatTime`,
  scrolling, rendering and the React state machinery.
- The other client files (Socket.jsx, Api.jsx, Register.jsx, App.jsx, UserList.jsx)
  are not part of this model. They are a socket.io-client wrapper, axios setup, form
  handling, a theme toggle and rendering.
- `JsString.Less`: it compares characters by Unicode scalar value, but JavaScript
  compares UTF-16 code units. The two orders differ only for characters above U+FFFF
  against U+E000-U+FFFF. Database ids are ASCII.
- `MessageList.KeyOf`: React turns keys into strings, so an `_id` spelled like the
  decimal of another row's index would collide with it. The model keeps id keys and
  index keys apart.
- `MessageList.IsCurrentUser`: the current user's id is always a string. A missing
  `currentUser.id` is not modelled.
