/** Room membership as socket.io keeps it for backend/server.js: which sockets are
    subscribed to which room, and the two room-scoped audiences the handlers use. */
module Rooms {
  import opened Protocol

  type Membership = map<Room, set<SocketId>>

  /** Sockets subscribed to `room`; a room nobody joined has no members. */
  function Members(m: Membership, room: Room): set<SocketId> {
    if room in m then m[room] else {}
  }

  /** `socket.join(room)` (server.js:83). */
  function Join(m: Membership, socket: SocketId, room: Room): (m': Membership)
    ensures Members(m', room) == Members(m, room) + {socket}
    ensures forall other | other != room :: Members(m', other) == Members(m, other)
  {
    m[room := Members(m, room) + {socket}]
  }

  /** Joining a room twice is the same as joining it once. */
  lemma JoinIdempotent(m: Membership, socket: SocketId, room: Room)
    ensures Join(Join(m, socket, room), socket, room) == Join(m, socket, room)
  {
  }

  /** socket.io's implicit leave of every room when a socket disconnects; a room left
      without members disappears. */
  function LeaveAll(m: Membership, socket: SocketId): (m': Membership)
    ensures forall room :: Members(m', room) == Members(m, room) - {socket}
    ensures forall room | room in m' :: m'[room] != {}
  {
    map room | room in m && m[room] - {socket} != {} :: m[room] - {socket}
  }

  /** Reconnection: after a socket drops and a new socket rejoins, the room holds the
      members it had before, with the new socket in place of the old one. */
  lemma RejoinReplacesSocket(m: Membership, dropped: SocketId, rejoined: SocketId, room: Room)
    requires dropped in Members(m, room)
    ensures Members(Join(LeaveAll(m, dropped), rejoined, room), room) == Members(m, room) - {dropped} + {rejoined}
  {
  }

  /** `io.to(room)`: every member of the room, the sender's socket included if it joined. */
  function RoomAudience(m: Membership, room: Room): (a: Audience)
    ensures a.Group? && forall s :: s in a.members <==> s in Members(m, room)
  {
    Group(Members(m, room))
  }

  /** `socket.to(room)`: every member of the room except `socket`. */
  function RelayAudience(m: Membership, room: Room, socket: SocketId): (a: Audience)
    ensures a.Group? && socket !in a.members
    ensures forall s | s != socket :: s in a.members <==> s in Members(m, room)
  {
    Group(Members(m, room) - {socket})
  }
}
