/** Values exchanged between the chat clients and the presence/room server:
    identifiers, loosely-typed JavaScript payload fields, the events the server
    emits and the audiences it emits them to. */
module Protocol {

  type SocketId = string
  type UserId = string
  type Room = string
  type MessageId = string

  /** Server clock reading (`new Date()`), abstracted to an integer. */
  type Timestamp = int

  datatype Option<T> = None | Some(value: T)

  /** A payload field as JavaScript sees it: missing (`undefined`/`null`) or a string. */
  datatype Field = Absent | Str(value: string)

  /** JavaScript truthiness of a field: a missing value and `""` are falsy. */
  predicate Truthy(f: Field) {
    f.Str? && f.value != ""
  }

  /** The `send_message` payload `{ room, sender, content }` as the server reads it. */
  datatype MessageData = MessageData(room: Field, sender: Field, content: Field)

  /** The check of server.js:93: room, sender and content must all be truthy. Content
      that is only whitespace passes it. */
  predicate Complete(d: MessageData)
    ensures Complete(d) <==> && d.room !in {Absent, Str("")}
                             && d.sender !in {Absent, Str("")}
                             && d.content !in {Absent, Str("")}
    ensures d.content.Str? && |d.content.value| >= 1 ==> (Complete(d) <==> Truthy(d.room) && Truthy(d.sender))
  {
    Truthy(d.room) && Truthy(d.sender) && Truthy(d.content)
  }

  /** The document the server builds before saving it; the timestamp is the server's. */
  datatype NewMessage = NewMessage(room: Room, sender: UserId, content: string, timestamp: Timestamp)

  /** The saved and populated message: the new message plus the id storage assigned. */
  datatype StoredMessage = StoredMessage(id: MessageId, message: NewMessage)

  /** A `typing` / `stop_typing` payload: the room it names plus whatever else the client sent. */
  datatype TypingData = TypingData(room: Room, rest: string)

  /** Events the server emits. */
  datatype ServerEvent =
    | UserStatus(userId: UserId, isOnline: bool)
    | JoinedRoom(room: Room)
    | ReceiveMessage(stored: StoredMessage)
    | UserTyping(typing: TypingData)
    | UserStopTyping(typing: TypingData)

  /** Who receives an emission: every connected socket (`io.emit`), the calling socket
      alone (`socket.emit`), or a set of room members (`io.to(room)`, `socket.to(room)`). */
  datatype Audience = Everyone | Only(socket: SocketId) | Group(members: set<SocketId>)

  datatype Emit = Emit(to: Audience, event: ServerEvent)
}
