/** From a socket to what it may do: the authorisation its handlers attach to a request, and that a
    stale socket's requests come to nothing. */
module SocketFence {
  import opened Sql
  import opened Lease
  import opened MessageLog
  import opened SessionRuns
  import opened SessionTheorems

  datatype Socket =
    | Observer                        // user-scoped or machine-scoped
    | Runtime(sessionId: Id, instance: Option<Id>, lease: Option<Id>, replayOnly: bool)

  /** `runtimeWriteAuthorization`: None refuses the write; otherwise the tuple for the CAS. */
  function WriteAuthorization(socket: Socket, sid: Id): Option<(Option<Id>, Option<Id>)> {
    match socket
    case Observer => Some((None, None))
    case Runtime(sessionId, instance, lease, replayOnly) =>
      if replayOnly || sessionId != sid then None
      else if Truthy(instance) && Truthy(lease) then Some((instance, lease))
      else if !Truthy(instance) && !Truthy(lease) then Some((None, None))
      else None
  }

  /** What the message handler attaches to a persistence request. */
  function MessageAuthorization(socket: Socket): Option<Authorization> {
    match socket
    case Observer => None
    case Runtime(_, instance, lease, replayOnly) =>
      if replayOnly then
        Some(ReplayAuth(if Truthy(instance) then instance else None, if Truthy(lease) then lease else None))
      else if Truthy(instance) && Truthy(lease) then Some(LeaseAuth(instance.value, lease.value))
      else Some(LegacyAuth)
  }

  /** A socket whose generation was displaced, or whose incarnation is terminally retired, never
      again creates a message or passes the fence of a session write, in any later state of any run
      and with any request. */
  lemma StaleSocketIsFenced(
      states: seq<State>, events: seq<Event>, i: nat, j: nat, k: nat, socket: Socket, input: Input, ts: int)
    requires Run(states, events) && i <= j <= k < |states|
    requires socket.Runtime? && Truthy(socket.instance) && Truthy(socket.lease)
    requires || (states[i].lease.row.leaseId == socket.lease && states[j].lease.row.leaseId != socket.lease)
             || states[i].lease.Terminal(socket.instance.value)
    requires input.authorization == MessageAuthorization(socket)
    ensures Apply(states[k], Post(input, ts)) == states[k]
    ensures !Decide(states[k].lease, states[k].log, states[k].seqColumn, input, ts).Created?
    ensures var w := WriteAuthorization(socket, socket.sessionId);
            w.Some? ==> !Owns(states[k].lease, w.value.0, w.value.1, ts)
  {
    if states[i].lease.Terminal(socket.instance.value) {
      RetirementIsPermanent(states, events, i, k, socket.instance.value);
    } else {
      DisplacedLeaseIsFenced(states, events, i, j, k, socket.instance.value, socket.lease.value, ts);
    }
  }

  /** Conversely a runtime socket's request creates a message only as the generation, in the mode,
      that the row records at that moment. */
  lemma CreationRequiresTheStoredGeneration(
      states: seq<State>, events: seq<Event>, k: nat, s: State, socket: Socket, input: Input, ts: int)
    requires Run(states, events) && k < |states| && s == states[k]
    requires socket.Runtime? && input.authorization == MessageAuthorization(socket)
    requires Decide(s.lease, s.log, s.seqColumn, input, ts).Created?
    ensures if socket.replayOnly || (Truthy(socket.instance) && Truthy(socket.lease)) then
              && s.lease.row.activeInstance == socket.instance && s.lease.row.leaseId == socket.lease
              && s.lease.row.leaseExpires.Some? && s.lease.row.leaseExpires.value > ts
              && s.lease.row.active == !socket.replayOnly
              && (s.lease.CurrentRetired() <==> socket.replayOnly)
            else Unmarked(s.lease.row) && s.lease.row.active
  {
    RunInv(states, events, k);
  }

  /** Exactly when a write of the socket passes its fence: it writes to its own session, not as a replay,
      and is the connected generation or, without ids, the active legacy client. */
  lemma WritePassesIff(states: seq<State>, events: seq<Event>, k: nat, socket: Socket, sid: Id, ts: int)
    requires Run(states, events) && k < |states| && socket.Runtime?
    ensures var l, w := states[k].lease, WriteAuthorization(socket, sid);
            w.Some? && Owns(l, w.value.0, w.value.1, ts) <==>
            && !socket.replayOnly && sid == socket.sessionId
            && if Truthy(socket.instance) && Truthy(socket.lease) then
                 Marked(l.row) && Connected(l, ts) && l.row.activeInstance == socket.instance && l.row.leaseId == socket.lease
               else !Truthy(socket.instance) && !Truthy(socket.lease) && l.row.active && Unmarked(l.row)
  {
    RunInv(states, events, k);
  }

  /** Exactly when a message of the socket is authorised: always for observers; for a live socket if it is
      the connected generation; for a replay socket if its incarnation is replaying under its lease;
      for one without ids if it is the legacy client in its grace period. */
  lemma MessagePassesIff(states: seq<State>, events: seq<Event>, k: nat, socket: Socket, ts: int)
    requires Run(states, events) && k < |states|
    ensures var l, a := states[k].lease, MessageAuthorization(socket);
            (a.Some? ==> Authorized(l, a.value, ts)) <==>
            match socket
            case Observer => true
            case Runtime(_, instance, lease, true) =>
              && Truthy(instance) && Truthy(lease) && l.row.activeInstance == instance && l.row.leaseId == lease
              && l.row.leaseExpires.Some? && l.row.leaseExpires.value > ts
              && l.CurrentRetired() && !l.Terminal(instance.value)
            case Runtime(_, instance, lease, false) =>
              if Truthy(instance) && Truthy(lease)
              then Marked(l.row) && Connected(l, ts) && l.row.activeInstance == instance && l.row.leaseId == lease
              else l.row.active && Unmarked(l.row) && l.row.lastActiveAt > ts - GRACE_MS
  {
    RunInv(states, events, k);
  }
}
