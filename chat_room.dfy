/** The pure parts of the chat window (frontend/src/components/Chat/ChatRoom.jsx):
    the room key both participants derive, the user-list updates, the guard and
    payload of an outgoing message, and appending a received message. State updates
    that go through `setState(prev => ...)` are functions from the old list to the new. */
module ChatRoom {
  import opened Protocol
  import opened JsString

  /** An entry of the user list as the directory returns it. */
  datatype UserEntry = UserEntry(id: UserId, username: string, isOnline: bool)

  /** `[me, other].sort().join('_')` (ChatRoom.jsx:92, 135): the default sort swaps the
      two ids exactly when the second is the lesser string. */
  function RoomKey(me: UserId, other: UserId): (k: Room)
    ensures k == me + "_" + other || k == other + "_" + me
    ensures |k| == |me| + |other| + 1
  {
    if Less(other, me) then other + "_" + me else me + "_" + other
  }

  /** The key is the lesser id, an underscore, then the greater id. */
  lemma RoomKeyLesserFirst(a: UserId, b: UserId)
    ensures var k := RoomKey(a, b);
            || (k == a + "_" + b && !Less(b, a))
            || (k == b + "_" + a && !Less(a, b))
  {
    LessTrichotomy(a, b);
  }

  /** Both participants compute the same key, whoever opens the conversation. */
  lemma RoomKeySymmetric(a: UserId, b: UserId)
    ensures RoomKey(a, b) == RoomKey(b, a)
  {
    LessTrichotomy(a, b);
  }

  lemma RoomKeyExample()
    ensures RoomKey("u1", "u2") == "u1_u2"
    ensures RoomKey("u2", "u1") == "u1_u2"
  {
    assert Less("u1", "u2") by {
      assert "u1"[1..] == "1" && "u2"[1..] == "2";
    }
    assert !Less("u2", "u1") by {
      LessTrichotomy("u1", "u2");
    }
  }

  /** `a + "_" + b` splits back into `a` and `b` when `a` has no underscore. */
  lemma {:induction false} SplitAtUnderscore(a: string, b: string, c: string, d: string)
    requires '_' !in a && '_' !in c
    requires a + "_" + b == c + "_" + d
    ensures a == c && b == d
    decreases |a|
  {
    var x, y := a + "_" + b, c + "_" + d;
    if a == [] && c == [] {
      assert b == x[1..] && d == y[1..];
    } else if a != [] && c != [] {
      assert x[0] == a[0] && y[0] == c[0];
      assert x[1..] == a[1..] + "_" + b && y[1..] == c[1..] + "_" + d;
      SplitAtUnderscore(a[1..], b, c[1..], d);
      assert a == [a[0]] + a[1..] && c == [c[0]] + c[1..];
    } else {
      // exactly one of `a`, `c` is empty, so one side starts with '_' and the other does not
      HeadOfJoin(a, b);
      HeadOfJoin(c, d);
      assert false;
    }
  }

  lemma HeadOfJoin(a: string, b: string)
    ensures (a + "_" + b)[0] == if a == [] then '_' else a[0]
  {
  }

  /** Ids without an underscore (database ids are hexadecimal) give distinct
      conversations distinct rooms: equal keys mean the same pair of users. */
  lemma RoomKeyInjective(a: UserId, b: UserId, c: UserId, d: UserId)
    requires '_' !in a && '_' !in b && '_' !in c && '_' !in d
    requires RoomKey(a, b) == RoomKey(c, d)
    ensures (a == c && b == d) || (a == d && b == c)
  {
    var lo1, hi1 := if Less(b, a) then b else a, if Less(b, a) then a else b;
    var lo2, hi2 := if Less(d, c) then d else c, if Less(d, c) then c else d;
    SplitAtUnderscore(lo1, hi1, lo2, hi2);
  }

  /** `handleUserStatus` (ChatRoom.jsx:53-54): entries of `userId` take the new flag,
      every other entry is unchanged, and the list keeps its length and order. */
  function UpdateStatus(users: seq<UserEntry>, userId: UserId, isOnline: bool): (r: seq<UserEntry>)
    ensures |r| == |users|
    ensures forall i | 0 <= i < |r| ::
              && r[i].id == users[i].id
              && r[i].username == users[i].username
              && r[i].isOnline == (if users[i].id == userId then isOnline else users[i].isOnline)
    decreases |users|
  {
    if users == [] then []
    else
      var u := users[0];
      [if u.id == userId then u.(isOnline := isOnline) else u] + UpdateStatus(users[1..], userId, isOnline)
  }

  /** Only the latest status of a user matters. */
  lemma UpdateStatusLatestWins(users: seq<UserEntry>, userId: UserId, first: bool, second: bool)
    ensures UpdateStatus(UpdateStatus(users, userId, first), userId, second) == UpdateStatus(users, userId, second)
  {
  }

  /** Status changes of two different users can arrive in either order. */
  lemma UpdateStatusCommutes(users: seq<UserEntry>, u: UserId, x: bool, v: UserId, y: bool)
    requires u != v
    ensures UpdateStatus(UpdateStatus(users, u, x), v, y) == UpdateStatus(UpdateStatus(users, v, y), u, x)
  {
  }

  /** `response.data.filter(u => u._id !== user.id)` (ChatRoom.jsx:79). */
  function OthersOf(users: seq<UserEntry>, me: UserId): (r: seq<UserEntry>)
    ensures |r| <= |users|
    ensures forall u :: u in r <==> u in users && u.id != me
    decreases |users|
  {
    if users == [] then []
    else (if users[0].id != me then [users[0]] else []) + OthersOf(users[1..], me)
  }

  /** The filter keeps the server's order: filtering a concatenation concatenates the
      filtered parts. */
  lemma {:induction false} OthersOfKeepsOrder(xs: seq<UserEntry>, ys: seq<UserEntry>, me: UserId)
    ensures OthersOf(xs + ys, me) == OthersOf(xs, me) + OthersOf(ys, me)
    decreases |xs|
  {
    if xs == [] {
      assert xs + ys == ys;
    } else {
      assert (xs + ys)[1..] == xs[1..] + ys;
      OthersOfKeepsOrder(xs[1..], ys, me);
    }
  }

  /** The payload of a `send_message` event built by the client (ChatRoom.jsx:136-141). */
  datatype ClientMessage = ClientMessage(room: Room, sender: UserId, content: string, timestamp: Timestamp)

  /** `sendMessage` (ChatRoom.jsx:123-145): nothing is sent without a selected user,
      with blank content, or while the socket is not connected; otherwise the trimmed
      content goes to the pair's room under the current user's id. */
  function Compose(me: UserId, selected: Option<UserEntry>, content: string, connected: bool, now: Timestamp)
    : (r: Option<ClientMessage>)
    ensures r.None? <==> selected.None? || Trim(content) == "" || !connected
    ensures r.Some? ==>
              && r.value.room == RoomKey(me, selected.value.id)
              && r.value.sender == me
              && r.value.content == Trim(content)
              && r.value.timestamp == now
  {
    if selected.None? || Trim(content) == "" then None
    else if !connected then None
    else Some(ClientMessage(RoomKey(me, selected.value.id), me, Trim(content), now))
  }

  /** The payload as the server reads it; the client's timestamp is not read. */
  function ToWire(m: ClientMessage): (d: MessageData)
    ensures Complete(d) <==> m.room != "" && m.sender != "" && m.content != ""
    ensures d.room == Str(m.room) && d.sender == Str(m.sender) && d.content == Str(m.content)
  {
    MessageData(Str(m.room), Str(m.sender), Str(m.content))
  }

  /** A message the client sends while logged in always passes the server's check of
      server.js:93, and its content has no surrounding whitespace. */
  lemma ComposedMessageComplete(me: UserId, selected: Option<UserEntry>, content: string, connected: bool, now: Timestamp)
    requires me != ""
    ensures var r := Compose(me, selected, content, connected, now);
            r.Some? ==> Complete(ToWire(r.value)) && !IsJsSpace(r.value.content[0])
  {
  }

  /** `setMessages(prev => [...prev, message])` (ChatRoom.jsx:45-46). */
  function Receive<T>(messages: seq<T>, message: T): (r: seq<T>)
    ensures |r| == |messages| + 1
    ensures r[..|messages|] == messages && r[|messages|] == message
  {
    messages + [message]
  }

  /** Messages received one after another end up after the earlier ones, in arrival order. */
  lemma {:induction false} ReceiveInOrder<T>(messages: seq<T>, incoming: seq<T>)
    ensures ReceiveAll(messages, incoming) == messages + incoming
    decreases |incoming|
  {
    if incoming != [] {
      ReceiveInOrder(Receive(messages, incoming[0]), incoming[1..]);
      assert messages + [incoming[0]] + incoming[1..] == messages + incoming;
    }
  }

  function ReceiveAll<T>(messages: seq<T>, incoming: seq<T>): seq<T>
    decreases |incoming|
  {
    if incoming == [] then messages else ReceiveAll(Receive(messages, incoming[0]), incoming[1..])
  }
}
