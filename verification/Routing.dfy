/** Local delivery of a durable notification: Socket.IO rooms against the plain loop over
    connections. Room names are the actual strings. */
module Routing {
  import opened Sql
  import MessageLog
  import Lease

  datatype Connection =
    | UserScoped(socketId: string, userId: string)
    | SessionScoped(socketId: string, userId: string, sessionId: string, leaseId: Option<string>, replayOnly: bool)
    | MachineScoped(socketId: string, userId: string, machineId: string)

  datatype Notification = Notification(
    userId: string,
    sessionId: string,
    originSocketId: Option<string>,
    targetLeaseId: Option<string>,
    targetLegacy: bool)

  function AccountRoom(userId: string, scope: string): string {
    "account:" + userId + ":" + scope
  }

  function LeaseRoom(userId: string, sessionId: string, leaseId: string): string {
    AccountRoom(userId, "session:" + sessionId + ":runtime-lease:" + leaseId)
  }

  /** `getConnectionRooms` */
  function ConnectionRooms(c: Connection): set<string> {
    if c.SessionScoped? && c.replayOnly then {}
    else
      {AccountRoom(c.userId, "all")} +
      match c
      case UserScoped(_, user) => {AccountRoom(user, "user")}
      case SessionScoped(_, user, session, lease, _) =>
        if Truthy(lease) then {LeaseRoom(user, session, lease.value)}
        else {AccountRoom(user, "session:" + session)}
      case MachineScoped(_, user, machine) => {AccountRoom(user, "machine:" + machine)}
  }

  /** Every socket is also in a room of its own id. */
  function JoinedRooms(c: Connection): set<string> {
    ConnectionRooms(c) + {c.socketId}
  }

  function RecipientRooms(n: Notification): set<string> {
    {AccountRoom(n.userId, "user")} +
    (if Truthy(n.targetLeaseId) then {LeaseRoom(n.userId, n.sessionId, n.targetLeaseId.value)}
     else if n.targetLegacy then {AccountRoom(n.userId, "session:" + n.sessionId)}
     else {})
  }

  /** `io.local.to(rooms).except(origin)` */
  function RoomDelivery(all: set<Connection>, n: Notification): set<Connection> {
    set c | c in all
            && JoinedRooms(c) * RecipientRooms(n) != {}
            && !(Truthy(n.originSocketId) && n.originSocketId.value in JoinedRooms(c))
  }

  /** Who should hear about the message: the account's user observers and the exact live
      generation (or, for legacy sessions, its unleased sockets), but not the origin. */
  predicate Addressed(c: Connection, n: Notification) {
    && c.userId == n.userId
    && Some(c.socketId) != n.originSocketId
    && match c
       case UserScoped(_, _) => true
       case SessionScoped(_, _, session, lease, replayOnly) =>
         && !replayOnly && session == n.sessionId
         && if n.targetLeaseId.Some? then lease == n.targetLeaseId else lease.None? && n.targetLegacy
       case MachineScoped(_, _, _) => false
  }

  /** The fallback: a loop over the account's connections. */
  method LoopDelivery(mine: set<Connection>, n: Notification) returns (sent: set<Connection>)
    ensures forall c :: c in sent <==> c in mine && LoopSends(c, n)
  {
    sent := {};
    var rest := mine;
    while rest != {}
      invariant rest <= mine
      invariant forall c :: c in sent <==> c in mine - rest && LoopSends(c, n)
      decreases rest
    {
      var c :| c in rest;
      rest := rest - {c};
      if n.originSocketId == Some(c.socketId) {
        continue;
      }
      var isUserObserver := c.UserScoped?;
      var isLeaseTarget := c.SessionScoped? && !c.replayOnly && c.sessionId == n.sessionId
                           && c.leaseId.Some? && c.leaseId == n.targetLeaseId;
      var isLegacyTarget := c.SessionScoped? && !c.replayOnly && c.sessionId == n.sessionId
                            && !Truthy(c.leaseId) && n.targetLegacy;
      if isUserObserver || isLeaseTarget || isLegacyTarget {
        sent := sent + {c};
      }
    }
  }

  predicate LoopSends(c: Connection, n: Notification) {
    && Some(c.socketId) != n.originSocketId
    && (|| c.UserScoped?
        || (c.SessionScoped? && !c.replayOnly && c.sessionId == n.sessionId
            && (|| (c.leaseId.Some? && c.leaseId == n.targetLeaseId)
                || (!Truthy(c.leaseId) && n.targetLegacy))))
  }

  // ---------------------------------------------------------------------------------------------
  // Room names

  predicate ColonFree(s: string) {
    ':' !in s
  }

  /** Ids are colon-free and, where present, non-empty. */
  predicate PlainConnection(c: Connection) {
    && ColonFree(c.userId) && ColonFree(c.socketId) && c.socketId != ""
    && (c.SessionScoped? ==> ColonFree(c.sessionId) && (c.leaseId.Some? ==> c.leaseId.value != ""))
  }

  predicate PlainNotification(n: Notification) {
    && ColonFree(n.userId) && ColonFree(n.sessionId)
    && (n.originSocketId.Some? ==> ColonFree(n.originSocketId.value))
    && (n.targetLeaseId.Some? ==> n.targetLeaseId.value != "")
  }

  /** Splitting at the first colon is unambiguous. */
  lemma SplitAtColon(a: string, x: string, b: string, y: string)
    requires ColonFree(a) && ColonFree(b) && a + ":" + x == b + ":" + y
    ensures a == b && x == y
  {
    var s, t := a + ":" + x, b + ":" + y;
    assert s[|a|] == ':' && t[|b|] == ':';
    assert forall i :: 0 <= i < |a| ==> s[i] == a[i];
    assert forall i :: 0 <= i < |b| ==> t[i] == b[i];
    assert |a| == |b|;
    assert a == s[..|a|] == b;
    assert x == s[|a| + 1..] == y;
  }

  lemma AccountRoomInjective(u: string, x: string, v: string, y: string)
    requires ColonFree(u) && ColonFree(v) && AccountRoom(u, x) == AccountRoom(v, y)
    ensures u == v && x == y
  {
    var s, t := AccountRoom(u, x), AccountRoom(v, y);
    assert s[8..] == u + ":" + x;
    assert t[8..] == v + ":" + y;
    SplitAtColon(u, x, v, y);
  }

  /** No two kinds of scope coincide, and each scope determines its ids. */
  lemma SessionScopes(s: string, t: string, l: string, m: string, machine: string)
    requires ColonFree(s) && ColonFree(t)
    ensures "session:" + s == "session:" + t ==> s == t
    ensures "session:" + s != "session:" + t + ":runtime-lease:" + m
    ensures "session:" + s + ":runtime-lease:" + l == "session:" + t + ":runtime-lease:" + m ==> s == t && l == m
    ensures "session:" + s != "user" && "session:" + s != "all" && "session:" + s != "machine:" + machine
    ensures "session:" + s + ":runtime-lease:" + l != "user"
    ensures "session:" + s + ":runtime-lease:" + l != "all"
    ensures "session:" + s + ":runtime-lease:" + l != "machine:" + machine
  {
    assert ("session:" + s)[8..] == s && ("session:" + t)[8..] == t;
    var p, q := "session:" + s + ":runtime-lease:" + l, "session:" + t + ":runtime-lease:" + m;
    assert p[8..] == s + ":" + ("runtime-lease:" + l);
    assert q[8..] == t + ":" + ("runtime-lease:" + m);
    assert q[8..][|t|] == ':';
    if p == q {
      SplitAtColon(s, "runtime-lease:" + l, t, "runtime-lease:" + m);
      assert ("runtime-lease:" + l)[14..] == l && ("runtime-lease:" + m)[14..] == m;
    }
    assert ("session:" + s)[0] == 's' && p[0] == 's' && ("machine:" + machine)[0] == 'm';
    assert "user"[0] == 'u' && "all"[0] == 'a';
  }

  // ---------------------------------------------------------------------------------------------
  // Rooms against the loop

  predicate InRooms(c: Connection, n: Notification) {
    JoinedRooms(c) * RecipientRooms(n) != {}
  }

  predicate IsOrigin(c: Connection, n: Notification) {
    Truthy(n.originSocketId) && n.originSocketId.value in JoinedRooms(c)
  }

  lemma AccountRoomsHaveColons(user: string, scope: string)
    ensures !ColonFree(AccountRoom(user, scope))
  {
    assert AccountRoom(user, scope)[7] == ':';
  }

  lemma RoomNamesAreNotIds(c: Connection, n: Notification)
    requires PlainConnection(c) && PlainNotification(n)
    ensures forall room :: room in ConnectionRooms(c) + RecipientRooms(n) ==> !ColonFree(room)
  {
    forall room | room in ConnectionRooms(c) + RecipientRooms(n) ensures !ColonFree(room) {
      var user, scope :| room == AccountRoom(user, scope);
      AccountRoomsHaveColons(user, scope);
    }
  }

  lemma OriginIsItsSocket(c: Connection, n: Notification)
    requires PlainConnection(c) && PlainNotification(n)
    ensures IsOrigin(c, n) <==> n.originSocketId == Some(c.socketId)
  {
    RoomNamesAreNotIds(c, n);
  }

  /** Which recipient rooms a connection shares, scope by scope. */
  lemma InRoomsMeaning(c: Connection, n: Notification)
    requires PlainConnection(c) && PlainNotification(n)
    ensures InRooms(c, n) <==>
            && c.userId == n.userId
            && match c
               case UserScoped(_, _) => true
               case SessionScoped(_, _, session, lease, replayOnly) =>
                 && !replayOnly && session == n.sessionId
                 && if n.targetLeaseId.Some? then lease == n.targetLeaseId else lease.None? && n.targetLegacy
               case MachineScoped(_, _, _) => false
  {
    RoomNamesAreNotIds(c, n);
    if room :| room in JoinedRooms(c) && room in RecipientRooms(n) {
      assert room in ConnectionRooms(c);
      SharedRoom(c, n, room);
    }
    if c.userId == n.userId {
      if c.UserScoped? {
        assert AccountRoom(c.userId, "user") in JoinedRooms(c) * RecipientRooms(n);
      } else if c.SessionScoped? && !c.replayOnly && c.sessionId == n.sessionId {
        if n.targetLeaseId.Some? && c.leaseId == n.targetLeaseId {
          assert LeaseRoom(c.userId, c.sessionId, c.leaseId.value) in JoinedRooms(c) * RecipientRooms(n);
        } else if n.targetLeaseId.None? && c.leaseId.None? && n.targetLegacy {
          assert AccountRoom(c.userId, "session:" + c.sessionId) in JoinedRooms(c) * RecipientRooms(n);
        }
      }
    }
  }

  lemma SharedRoom(c: Connection, n: Notification, room: string)
    requires PlainConnection(c) && PlainNotification(n)
    requires room in ConnectionRooms(c) && room in RecipientRooms(n)
    ensures c.userId == n.userId && !c.MachineScoped?
    ensures c.SessionScoped? ==>
              && !c.replayOnly && c.sessionId == n.sessionId
              && if n.targetLeaseId.Some? then c.leaseId == n.targetLeaseId else c.leaseId.None? && n.targetLegacy
  {
    var lease := if n.targetLeaseId.Some? then n.targetLeaseId.value else "";
    var x := if room == AccountRoom(n.userId, "user") then "user"
             else if n.targetLeaseId.Some? then "session:" + n.sessionId + ":runtime-lease:" + lease
             else "session:" + n.sessionId;
    assert room == AccountRoom(n.userId, x);
    var y := ScopeOf(c, room);
    AccountRoomInjective(c.userId, y, n.userId, x);
    var machine := if c.MachineScoped? then c.machineId else "";
    SessionScopes(n.sessionId, if c.SessionScoped? then c.sessionId else "", lease,
                  if c.SessionScoped? && c.leaseId.Some? then c.leaseId.value else "", machine);
    if c.SessionScoped? {
      SessionScopes(c.sessionId, n.sessionId, "", lease, "");
    }
    assert "user"[0] == 'u' && "all"[0] == 'a' && ("machine:" + machine)[0] == 'm';
  }

  /** The scope under which a connection joined one of its account rooms. */
  function ScopeOf(c: Connection, room: string): (scope: string)
    requires room in ConnectionRooms(c)
    ensures room == AccountRoom(c.userId, scope)
  {
    if room == AccountRoom(c.userId, "all") then "all"
    else
      match c
      case UserScoped(_, _) => "user"
      case SessionScoped(_, _, session, lease, _) =>
        if Truthy(lease) then "session:" + session + ":runtime-lease:" + lease.value else "session:" + session
      case MachineScoped(_, _, machine) => "machine:" + machine
  }

  /** Room delivery reaches exactly the addressed connections, whatever the notification: never a
      replay socket, another generation, another session, another account or the origin. */
  lemma RoomsReachTheAddressed(all: set<Connection>, n: Notification)
    requires PlainNotification(n) && forall c :: c in all ==> PlainConnection(c)
    ensures RoomDelivery(all, n) == set c | c in all && Addressed(c, n)
  {
    forall c | c in all ensures c in RoomDelivery(all, n) <==> Addressed(c, n) {
      InRoomsMeaning(c, n);
      OriginIsItsSocket(c, n);
    }
  }

  /** The loop over the account's own connections agrees with the rooms on every set of connections
      exactly when the notification does not name both a lease and the legacy room. */
  lemma RoomsMatchLoopIffOneTarget(n: Notification)
    requires PlainNotification(n)
    ensures !(n.targetLeaseId.Some? && n.targetLegacy) <==>
            forall all: set<Connection> | forall c :: c in all ==> PlainConnection(c) ::
              RoomDelivery(all, n) == set c | c in all && c.userId == n.userId && LoopSends(c, n)
  {
    if n.targetLeaseId.Some? && n.targetLegacy {
      var socket := if n.originSocketId == Some("a") then "b" else "a";
      var legacy := SessionScoped(socket, n.userId, n.sessionId, None, false);
      assert PlainConnection(legacy) && LoopSends(legacy, n) && !Addressed(legacy, n);
      RoomsReachTheAddressed({legacy}, n);
      assert legacy !in RoomDelivery({legacy}, n);
      assert legacy in (set c | c in {legacy} && c.userId == n.userId && LoopSends(c, n));
    } else {
      forall all: set<Connection> | forall c :: c in all ==> PlainConnection(c)
        ensures RoomDelivery(all, n) == set c | c in all && c.userId == n.userId && LoopSends(c, n)
      {
        RoomsReachTheAddressed(all, n);
        forall c | c in all ensures Addressed(c, n) <==> c.userId == n.userId && LoopSends(c, n) {
          assert PlainConnection(c);
        }
      }
    }
  }

  /** Outbox rows name at most one target, so for every committed message both forms deliver to the
      same connections. */
  lemma CommittedMessagesRouteAlike(
      s: Lease.Lease, ts: int, all: set<Connection>, userId: string, sessionId: string, origin: Option<string>)
    requires ColonFree(userId) && ColonFree(sessionId) && (origin.Some? ==> ColonFree(origin.value))
    requires s.row.leaseId != Some("")
    requires forall c :: c in all ==> PlainConnection(c)
    ensures var t := MessageLog.TargetOf(s, ts);
            var n := Notification(userId, sessionId, origin, t.leaseId, t.legacy);
            && RoomDelivery(all, n) == (set c | c in all && c.userId == userId && LoopSends(c, n))
            && RoomDelivery(all, n) == (set c | c in all && Addressed(c, n))
  {
    var t := MessageLog.TargetOf(s, ts);
    var n := Notification(userId, sessionId, origin, t.leaseId, t.legacy);
    MessageLog.TargetIsExclusive(s, ts);
    RoomsMatchLoopIffOneTarget(n);
    RoomsReachTheAddressed(all, n);
  }
}
