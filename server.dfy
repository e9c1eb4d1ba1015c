/** The socket handlers of backend/server.js as one server object: the two presence
    maps and the room membership are fields, and each handler is a method that runs
    atomically (the counter updates happen before the handler's first `await`). The
    directory write and the message save are parameters saying how they turned out. */
module Server {
  import opened Protocol
  import Presence
  import Rooms

  class ChatServer {
    /** `socketIdToUserId` */
    var userOf: map<SocketId, UserId>
    /** `userIdToSocketCount` */
    var count: map<UserId, int>
    /** socket.io's room subscriptions */
    var rooms: Rooms.Membership

    function State(): Presence.Registry
      reads this
    {
      Presence.Registry(userOf, count)
    }

    ghost predicate Valid()
      reads this
    {
      Presence.Valid(State())
    }

    constructor ()
      ensures Valid()
      ensures State() == Presence.Empty && rooms == map[]
    {
      userOf, count, rooms := map[], map[], map[];
      assert forall u :: Presence.SocketsOf(Presence.Empty, u) == {};
    }

    /** `user_online` (server.js:63-80). */
    method UserOnline(socket: SocketId, userId: Field, writeOk: bool) returns (out: seq<Emit>)
      requires Valid()
      modifies this
      ensures Valid()
      ensures (State(), out) == Presence.Identify(old(State()), socket, userId, writeOk)
      ensures rooms == old(rooms)
    {
      Presence.IdentifyKeepsValid(State(), socket, userId, writeOk);
      out := [];
      if !Truthy(userId) {
        return;
      }
      var u := userId.value;
      userOf := userOf[socket := u];
      var current := Presence.CountOf(State(), u);
      count := count[u := current + 1];
      if current == 0 && writeOk {
        out := [Emit(Everyone, UserStatus(u, true))];
      }
    }

    /** `join_room` (server.js:82-86): subscribe, then acknowledge with the same room. */
    method JoinRoom(socket: SocketId, room: Room) returns (out: seq<Emit>)
      requires Valid()
      modifies this
      ensures Valid()
      ensures rooms == Rooms.Join(old(rooms), socket, room)
      ensures out == [Emit(Only(socket), JoinedRoom(room))]
      ensures State() == old(State())
    {
      rooms := Rooms.Join(rooms, socket, room);
      out := [Emit(Only(socket), JoinedRoom(room))];
    }

    /** `send_message` (server.js:89-117). `data` is None when the event carried no
        payload (reading its fields throws and the handler's catch swallows it); `saved`
        is the id of the stored message, or None when saving or re-reading it failed.
        `request` is the document handed to storage, None when storage is not called. */
    method SendMessage(data: Option<MessageData>, now: Timestamp, saved: Option<MessageId>)
      returns (request: Option<NewMessage>, out: seq<Emit>)
      ensures request.Some? <==> data.Some? && Complete(data.value)
      ensures request.Some? ==>
                request.value == NewMessage(data.value.room.value, data.value.sender.value,
                                            data.value.content.value, now)
      ensures out != [] <==> request.Some? && saved.Some?
      ensures out != [] ==>
                out == [Emit(Rooms.RoomAudience(rooms, request.value.room),
                             ReceiveMessage(StoredMessage(saved.value, request.value)))]
    {
      request, out := None, [];
      if data.None? {
        return;
      }
      var d := data.value;
      if !Truthy(d.room) || !Truthy(d.sender) || !Truthy(d.content) {
        return;
      }
      var message := NewMessage(d.room.value, d.sender.value, d.content.value, now);
      request := Some(message);
      if saved.None? {
        return;
      }
      out := [Emit(Rooms.RoomAudience(rooms, message.room), ReceiveMessage(StoredMessage(saved.value, message)))];
    }

    /** `typing` (server.js:119-121): relay to the room, not back to the sender. */
    method Typing(socket: SocketId, data: TypingData) returns (out: seq<Emit>)
      ensures |out| == 1 && out[0].event == UserTyping(data) && out[0].to.Group?
      ensures forall s :: s in out[0].to.members <==> s in Rooms.Members(rooms, data.room) && s != socket
    {
      out := [Emit(Rooms.RelayAudience(rooms, data.room, socket), UserTyping(data))];
    }

    /** `stop_typing` (server.js:123-125): relay to the room, not back to the sender. */
    method StopTyping(socket: SocketId, data: TypingData) returns (out: seq<Emit>)
      ensures |out| == 1 && out[0].event == UserStopTyping(data) && out[0].to.Group?
      ensures forall s :: s in out[0].to.members <==> s in Rooms.Members(rooms, data.room) && s != socket
    {
      out := [Emit(Rooms.RelayAudience(rooms, data.room, socket), UserStopTyping(data))];
    }

    /** `disconnect` (server.js:127-147), after socket.io has taken the socket out of
        every room. */
    method Disconnect(socket: SocketId, writeOk: bool) returns (out: seq<Emit>)
      requires Valid()
      modifies this
      ensures Valid()
      ensures (State(), out) == Presence.Disconnect(old(State()), socket, writeOk)
      ensures rooms == Rooms.LeaveAll(old(rooms), socket)
    {
      Presence.DisconnectKeepsValid(State(), socket, writeOk);
      rooms := Rooms.LeaveAll(rooms, socket);
      out := [];
      if socket !in userOf || userOf[socket] == "" {
        return;
      }
      var u := userOf[socket];
      userOf := userOf - {socket};
      var next := Presence.Floor0(Presence.CountOf(State(), u) - 1);
      if next == 0 {
        count := count - {u};
        if writeOk {
          out := [Emit(Everyone, UserStatus(u, false))];
        }
      } else {
        count := count[u := next];
      }
    }
  }
}
