/** The connection registry and presence aggregator of backend/server.js: the map
    from each socket to the user it identified as, the map from each user to its
    number of live sockets, and the two handlers that change them (`user_online`,
    `disconnect`), as pure step functions over the pair of maps. The class in
    module Server runs these steps in place. */
module Presence {
  import opened Protocol

  /** `socketIdToUserId` and `userIdToSocketCount`. */
  datatype Registry = Registry(userOf: map<SocketId, UserId>, count: map<UserId, int>)

  /** Both maps empty, as at server start. */
  const Empty := Registry(map[], map[])

  /** `userIdToSocketCount.get(u) || 0`: a missing or zero entry reads as 0. */
  function CountOf(r: Registry, u: UserId): (n: int)
    ensures n == 0 <==> u !in r.count || r.count[u] == 0
    ensures n != 0 ==> n == r.count[u]
  {
    if u in r.count && r.count[u] != 0 then r.count[u] else 0
  }

  /** Under the invariant the `|| 0` fallback only covers a missing entry: a user has
      a positive count exactly when it has an entry, and the count is that entry. */
  lemma CountOfUnderValid(r: Registry, u: UserId)
    requires Valid(r)
    ensures CountOf(r, u) >= 1 <==> u in r.count
    ensures CountOf(r, u) == if u in r.count then r.count[u] else 0
  {
  }

  /** Sockets currently bound to user `u`. */
  function SocketsOf(r: Registry, u: UserId): set<SocketId> {
    set s | s in r.userOf && r.userOf[s] == u
  }

  /** 1 when the server counts `u` as online, 0 otherwise. */
  function Online(r: Registry, u: UserId): int {
    if CountOf(r, u) > 0 then 1 else 0
  }

  /** What every reachable registry satisfies: stored counts are at least 1, bound
      user ids are non-empty, and no user has more bound sockets than its count. */
  ghost predicate Valid(r: Registry) {
    && (forall u | u in r.count :: r.count[u] >= 1)
    && (forall s | s in r.userOf :: r.userOf[s] != "")
    && (forall u :: |SocketsOf(r, u)| <= CountOf(r, u))
  }

  /** The count is exactly the number of bound sockets, for every user. */
  ghost predicate Exact(r: Registry) {
    && Valid(r)
    && (forall u :: |SocketsOf(r, u)| == CountOf(r, u))
  }

  /** `user_online` (server.js:63-80): a falsy id is ignored; otherwise the socket is
      bound to the user, the user's count goes up by one, and on a 0 -> 1 transition a
      successful directory write (`writeOk`) is followed by a global "online" status. */
  function Identify(r: Registry, socket: SocketId, userId: Field, writeOk: bool): (res: (Registry, seq<Emit>))
    ensures !Truthy(userId) ==> res == (r, [])
    ensures Truthy(userId) ==>
              && res.0.userOf == r.userOf[socket := userId.value]
              && CountOf(res.0, userId.value) == CountOf(r, userId.value) + 1
              && (forall v | v != userId.value :: CountOf(res.0, v) == CountOf(r, v))
              && (res.1 != [] <==> CountOf(r, userId.value) == 0 && writeOk)
    ensures |res.1| <= 1
    ensures forall e | e in res.1 :: Truthy(userId) && e == Emit(Everyone, UserStatus(userId.value, true))
  {
    if !Truthy(userId) then (r, [])
    else
      var u := userId.value;
      var current := CountOf(r, u);
      var r' := Registry(r.userOf[socket := u], r.count[u := current + 1]);
      (r', if current == 0 && writeOk then [Emit(Everyone, UserStatus(u, true))] else [])
  }

  /** `Math.max(0, n)` */
  function Floor0(n: int): (m: int)
    ensures m >= 0 && m >= n && (m == n || m == 0)
  {
    if n > 0 then n else 0
  }

  /** `disconnect` (server.js:127-147): a socket that never identified changes nothing;
      otherwise its binding is removed and its user's count drops to max(0, count - 1);
      at 0 the entry is deleted and a successful directory write is followed by a global
      "offline" status, above 0 the lower count is stored and nothing is emitted. */
  function Disconnect(r: Registry, socket: SocketId, writeOk: bool): (res: (Registry, seq<Emit>))
    ensures socket !in r.userOf || r.userOf[socket] == "" ==> res == (r, [])
    ensures socket in r.userOf && r.userOf[socket] != "" ==>
              var u := r.userOf[socket];
              && res.0.userOf == r.userOf - {socket}
              && CountOf(res.0, u) == Floor0(CountOf(r, u) - 1)
              && (forall v | v != u :: CountOf(res.0, v) == CountOf(r, v))
              && (u in res.0.count <==> CountOf(res.0, u) > 0)
              && (res.1 != [] <==> CountOf(res.0, u) == 0 && writeOk)
    ensures |res.1| <= 1
    ensures forall e | e in res.1 :: socket in r.userOf && e == Emit(Everyone, UserStatus(r.userOf[socket], false))
  {
    if socket !in r.userOf || r.userOf[socket] == "" then (r, [])
    else
      var u := r.userOf[socket];
      var userOf' := r.userOf - {socket};
      var next := Floor0(CountOf(r, u) - 1);
      if next == 0 then
        (Registry(userOf', r.count - {u}), if writeOk then [Emit(Everyone, UserStatus(u, false))] else [])
      else
        (Registry(userOf', r.count[u := next]), [])
  }

  lemma SubsetCard<T>(a: set<T>, b: set<T>)
    requires a <= b
    ensures |a| <= |b|
  {
    assert b == a + (b - a);
  }

  /** `user_online` keeps the registry invariant, even when a socket identifies again. */
  lemma IdentifyKeepsValid(r: Registry, socket: SocketId, userId: Field, writeOk: bool)
    requires Valid(r)
    ensures Valid(Identify(r, socket, userId, writeOk).0)
  {
    if Truthy(userId) {
      var u := userId.value;
      var r' := Identify(r, socket, userId, writeOk).0;
      forall v
        ensures |SocketsOf(r', v)| <= CountOf(r', v)
      {
        if v == u {
          SubsetCard(SocketsOf(r', v), SocketsOf(r, v) + {socket});
        } else {
          SubsetCard(SocketsOf(r', v), SocketsOf(r, v));
        }
      }
    }
  }

  /** A bound socket's user is counted online. */
  lemma BoundUserCounted(r: Registry, socket: SocketId)
    requires Valid(r)
    requires socket in r.userOf
    ensures CountOf(r, r.userOf[socket]) >= 1
  {
    var u := r.userOf[socket];
    assert socket in SocketsOf(r, u);
    SubsetCard({socket}, SocketsOf(r, u));
  }

  /** `disconnect` keeps the registry invariant, and the floor at 0 is never needed:
      the count of a bound socket's user drops by exactly one. */
  lemma DisconnectKeepsValid(r: Registry, socket: SocketId, writeOk: bool)
    requires Valid(r)
    ensures Valid(Disconnect(r, socket, writeOk).0)
    ensures socket in r.userOf ==>
              CountOf(Disconnect(r, socket, writeOk).0, r.userOf[socket]) == CountOf(r, r.userOf[socket]) - 1
  {
    if socket in r.userOf {
      var u := r.userOf[socket];
      var r' := Disconnect(r, socket, writeOk).0;
      BoundUserCounted(r, socket);
      forall v
        ensures |SocketsOf(r', v)| <= CountOf(r', v)
      {
        if v == u {
          assert SocketsOf(r', v) == SocketsOf(r, v) - {socket};
        } else {
          SubsetCard(SocketsOf(r', v), SocketsOf(r, v));
        }
      }
    }
  }

  /** "offline" is announced only on a genuine 1 -> 0 transition of a user that was
      counted online. */
  lemma OfflineOnlyFromOne(r: Registry, socket: SocketId, writeOk: bool)
    requires Valid(r)
    ensures Disconnect(r, socket, writeOk).1 != [] ==>
              socket in r.userOf && CountOf(r, r.userOf[socket]) == 1
  {
    if socket in r.userOf {
      BoundUserCounted(r, socket);
    }
  }

  /** When every socket identifies at most once, `user_online` on an unbound socket keeps
      each user's count equal to its number of live sockets. */
  lemma IdentifyFreshKeepsExact(r: Registry, socket: SocketId, userId: Field, writeOk: bool)
    requires Exact(r)
    requires socket !in r.userOf
    ensures Exact(Identify(r, socket, userId, writeOk).0)
  {
    IdentifyKeepsValid(r, socket, userId, writeOk);
    if Truthy(userId) {
      var u := userId.value;
      var r' := Identify(r, socket, userId, writeOk).0;
      forall v
        ensures |SocketsOf(r', v)| == CountOf(r', v)
      {
        if v == u {
          assert SocketsOf(r', v) == SocketsOf(r, v) + {socket};
        } else {
          assert SocketsOf(r', v) == SocketsOf(r, v);
        }
      }
    }
  }

  /** `disconnect` keeps each user's count equal to its number of live sockets. */
  lemma DisconnectKeepsExact(r: Registry, socket: SocketId, writeOk: bool)
    requires Exact(r)
    ensures Exact(Disconnect(r, socket, writeOk).0)
  {
    DisconnectKeepsValid(r, socket, writeOk);
    if socket in r.userOf {
      var u := r.userOf[socket];
      var r' := Disconnect(r, socket, writeOk).0;
      forall v
        ensures |SocketsOf(r', v)| == CountOf(r', v)
      {
        if v == u {
          assert SocketsOf(r', v) == SocketsOf(r, v) - {socket};
        } else {
          assert SocketsOf(r', v) == SocketsOf(r, v);
        }
      }
    }
  }

  /** A socket that identifies a second time as the same user is counted twice: when it
      disconnects, its user stays counted once more than its live sockets and that
      disconnect announces nothing. `StrandedNeverOffline` carries this on to every later
      handler. */
  lemma RepeatedIdentifyStrandsUser(r: Registry, socket: SocketId, u: UserId, writeOk: bool)
    requires Exact(r)
    requires socket in r.userOf && r.userOf[socket] == u
    ensures var r1 := Identify(r, socket, Str(u), writeOk).0;
            var (r2, out) := Disconnect(r1, socket, writeOk);
            && CountOf(r2, u) == |SocketsOf(r2, u)| + 1
            && CountOf(r2, u) >= 1
            && out == []
  {
    var r1 := Identify(r, socket, Str(u), writeOk).0;
    assert SocketsOf(r1, u) == SocketsOf(r, u);
    BoundUserCounted(r, socket);
    var r2 := Disconnect(r1, socket, writeOk).0;
    assert SocketsOf(r2, u) == SocketsOf(r, u) - {socket};
  }

  /** One handler invocation on the registry. */
  datatype PresenceEvent =
    | UserOnline(socket: SocketId, userId: Field, writeOk: bool)
    | SocketClosed(socket: SocketId, writeOk: bool)

  function Step(r: Registry, e: PresenceEvent): (Registry, seq<Emit>) {
    match e
    case UserOnline(s, id, ok) => Identify(r, s, id, ok)
    case SocketClosed(s, ok) => Disconnect(r, s, ok)
  }

  /** Handlers applied one at a time, each atomically; the emissions in order. */
  function Replay(r: Registry, evs: seq<PresenceEvent>): (Registry, seq<Emit>)
    decreases |evs|
  {
    if evs == [] then (r, [])
    else
      var (r1, out1) := Step(r, evs[0]);
      var (r2, out2) := Replay(r1, evs[1..]);
      (r2, out1 + out2)
  }

  /** Number of `user_status` broadcasts for `u` with the given flag. */
  function Tally(out: seq<Emit>, u: UserId, online: bool): nat {
    if out == [] then 0
    else (if out[0] == Emit(Everyone, UserStatus(u, online)) then 1 else 0) + Tally(out[1..], u, online)
  }

  lemma {:induction false} TallyAppend(a: seq<Emit>, b: seq<Emit>, u: UserId, online: bool)
    ensures Tally(a + b, u, online) == Tally(a, u, online) + Tally(b, u, online)
  {
    if a != [] {
      assert (a + b)[1..] == a[1..] + b;
      TallyAppend(a[1..], b, u, online);
    } else {
      assert a + b == b;
    }
  }

  lemma {:induction false} ReplayKeepsValid(r: Registry, evs: seq<PresenceEvent>)
    requires Valid(r)
    ensures Valid(Replay(r, evs).0)
    decreases |evs|
  {
    if evs != [] {
      match evs[0] {
        case UserOnline(s, id, ok) => IdentifyKeepsValid(r, s, id, ok);
        case SocketClosed(s, ok) => DisconnectKeepsValid(r, s, ok);
      }
      ReplayKeepsValid(Step(r, evs[0]).0, evs[1..]);
    }
  }

  /** One step with a successful directory write: the "online" minus "offline"
      broadcasts for `u` equal the change in whether `u` is counted online. */
  lemma StepBalance(r: Registry, e: PresenceEvent, u: UserId)
    requires Valid(r) && e.writeOk
    ensures var (r', out) := Step(r, e);
            Tally(out, u, true) - Tally(out, u, false) == Online(r', u) - Online(r, u)
  {
    match e
    case UserOnline(s, id, ok) =>
    case SocketClosed(s, ok) =>
      if s in r.userOf {
        DisconnectKeepsValid(r, s, ok);
      }
  }

  /** Over any sequence of `user_online` / `disconnect` handlers whose directory writes succeed, "online" and
      "offline" broadcasts for a user alternate, so their difference is exactly the change
      in whether the user is counted online. */
  lemma {:induction false} ReplayBalance(r: Registry, evs: seq<PresenceEvent>, u: UserId)
    requires Valid(r)
    requires forall i | 0 <= i < |evs| :: evs[i].writeOk
    ensures var (r', out) := Replay(r, evs);
            Tally(out, u, true) - Tally(out, u, false) == Online(r', u) - Online(r, u)
    decreases |evs|
  {
    if evs != [] {
      var (r1, out1) := Step(r, evs[0]);
      StepBalance(r, evs[0], u);
      match evs[0] {
        case UserOnline(s, id, ok) => IdentifyKeepsValid(r, s, id, ok);
        case SocketClosed(s, ok) => DisconnectKeepsValid(r, s, ok);
      }
      assert forall i | 0 <= i < |evs[1..]| :: evs[1..][i].writeOk;
      ReplayBalance(r1, evs[1..], u);
      var (r2, out2) := Replay(r1, evs[1..]);
      TallyAppend(out1, out2, u, true);
      TallyAppend(out1, out2, u, false);
    }
  }

  /** A user counted more times than it has bound sockets stays so after any handler,
      and no handler announces it offline. */
  lemma StepSurplus(r: Registry, e: PresenceEvent, u: UserId)
    requires Valid(r)
    ensures var (r', out) := Step(r, e);
            && CountOf(r', u) - |SocketsOf(r', u)| >= CountOf(r, u) - |SocketsOf(r, u)|
            && (CountOf(r, u) - |SocketsOf(r, u)| >= 1 ==> Tally(out, u, false) == 0)
  {
    var (r', out) := Step(r, e);
    match e
    case UserOnline(s, id, ok) =>
      if Truthy(id) {
        if id.value == u {
          SubsetCard(SocketsOf(r', u), SocketsOf(r, u) + {s});
        } else {
          SubsetCard(SocketsOf(r', u), SocketsOf(r, u));
        }
      }
    case SocketClosed(s, ok) =>
      if s in r.userOf && r.userOf[s] != "" {
        var w := r.userOf[s];
        if w == u {
          BoundUserCounted(r, s);
          assert SocketsOf(r', u) == SocketsOf(r, u) - {s};
        } else {
          assert SocketsOf(r', u) == SocketsOf(r, u);
        }
      }
  }

  /** Once a user is counted more times than it has bound sockets, no sequence of
      handlers ever announces it offline, and it stays counted online. */
  lemma {:induction false} StrandedNeverOffline(r: Registry, evs: seq<PresenceEvent>, u: UserId)
    requires Valid(r)
    requires CountOf(r, u) - |SocketsOf(r, u)| >= 1
    ensures var (r', out) := Replay(r, evs);
            Tally(out, u, false) == 0 && CountOf(r', u) >= 1
    decreases |evs|
  {
    if evs != [] {
      var (r1, out1) := Step(r, evs[0]);
      StepSurplus(r, evs[0], u);
      match evs[0] {
        case UserOnline(s, id, ok) => IdentifyKeepsValid(r, s, id, ok);
        case SocketClosed(s, ok) => DisconnectKeepsValid(r, s, ok);
      }
      StrandedNeverOffline(r1, evs[1..], u);
      var (r2, out2) := Replay(r1, evs[1..]);
      TallyAppend(out1, out2, u, false);
    }
  }

  /** Every `user_online` in the sequence names a socket that is not bound at that point. */
  ghost predicate IdentifiesOnce(r: Registry, evs: seq<PresenceEvent>)
    decreases |evs|
  {
    evs == [] ||
    ((evs[0].UserOnline? ==> evs[0].socket !in r.userOf) && IdentifiesOnce(Step(r, evs[0]).0, evs[1..]))
  }

  /** If each socket identifies once, every user's stored count equals its number of
      live sockets after any sequence of handlers. */
  lemma {:induction false} ReplayKeepsExact(r: Registry, evs: seq<PresenceEvent>)
    requires Exact(r)
    requires IdentifiesOnce(r, evs)
    ensures Exact(Replay(r, evs).0)
    decreases |evs|
  {
    if evs != [] {
      match evs[0] {
        case UserOnline(s, id, ok) => IdentifyFreshKeepsExact(r, s, id, ok);
        case SocketClosed(s, ok) => DisconnectKeepsExact(r, s, ok);
      }
      ReplayKeepsExact(Step(r, evs[0]).0, evs[1..]);
    }
  }

  /** Reconnection: a user's only socket drops and a new socket identifies; the
      broadcasts are exactly online, offline, online. */
  lemma ReconnectAnnouncesOnlineOfflineOnline(s1: SocketId, s2: SocketId, u: UserId)
    requires u != ""
    ensures Replay(Empty, [UserOnline(s1, Str(u), true), SocketClosed(s1, true), UserOnline(s2, Str(u), true)]).1
            == [Emit(Everyone, UserStatus(u, true)), Emit(Everyone, UserStatus(u, false)), Emit(Everyone, UserStatus(u, true))]
  {
    var evs := [UserOnline(s1, Str(u), true), SocketClosed(s1, true), UserOnline(s2, Str(u), true)];
    var (r1, o1) := Step(Empty, evs[0]);
    var (r2, o2) := Step(r1, evs[1]);
    var (r3, o3) := Step(r2, evs[2]);
    assert CountOf(r1, u) == 1 && r1.userOf[s1] == u;
    assert CountOf(r2, u) == 0;
    assert Replay(r2, evs[2..]).1 == o3 by {
      assert evs[2..][1..] == [];
    }
    assert Replay(r1, evs[1..]).1 == o2 + o3 by {
      assert evs[1..][1..] == evs[2..];
    }
  }
}
