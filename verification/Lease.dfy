/** The runtime connection lease: one Session row, its retirement table, and what each SQL
    statement does to them. Conditions are stated here in two-valued logic; module SessionStore
    evaluates the statements' own WHERE clauses in three-valued logic. */
module Lease {
  import opened Sql

  type Id = string

  const LEASE_MS := 240_000
  const GRACE_MS := LEASE_MS

  datatype Status = Replaying | Ended | Superseded

  datatype Row = Row(
    active: bool,
    activeInstance: Option<Id>,
    leaseId: Option<Id>,
    leaseInstance: Option<Id>,
    leaseExpires: Option<int>,
    lastActiveAt: int)

  datatype Lease = Lease(row: Row, retired: map<Id, Status>) {
    /** The incarnation can never act for the session again. */
    predicate Terminal(instance: Id) {
      instance in retired && retired[instance] != Replaying
    }

    predicate CurrentRetired() {
      row.activeInstance.Some? && row.activeInstance.value in retired
    }
  }

  /** Any lease marker puts the row under the lease protocol for good. */
  predicate Marked(r: Row) {
    r.leaseId.Some? || r.leaseInstance.Some? || r.leaseExpires.Some?
  }

  /** The readiness function of the TypeScript side, on a snapshot of the row. */
  predicate IsRuntimeConnected(r: Row, instanceRetired: bool, now: int) {
    if !r.active || r.activeInstance.None? || instanceRetired then false
    else if Marked(r) then
      r.leaseId.Some? && r.leaseInstance == r.activeInstance
      && r.leaseExpires.Some? && r.leaseExpires.value > now
    else r.lastActiveAt > now - GRACE_MS
  }

  predicate Connected(s: Lease, now: int) {
    IsRuntimeConnected(s.row, s.CurrentRetired(), now)
  }

  /** Who may write as the session's runtime: the exact persisted generation, or, when neither
      id is given, the wholly unmarked legacy row. */
  predicate Owns(s: Lease, instance: Option<Id>, leaseId: Option<Id>, ts: int) {
    if instance.None? != leaseId.None? then false
    else if !Truthy(instance) then
      s.row.active && s.row.activeInstance.None? && !Marked(s.row)
    else
      && s.row.active
      && s.row.activeInstance == instance
      && s.row.leaseInstance == instance
      && s.row.leaseId == leaseId
      && s.row.leaseExpires.Some? && s.row.leaseExpires.value > ts
      && instance.value !in s.retired
  }

  predicate MayLiveClaim(s: Lease, instance: Id, ts: int) {
    && instance !in s.retired
    && (|| s.row.activeInstance.None?
        || s.row.activeInstance == Some(instance)
        || !s.row.active
        || (s.row.leaseExpires.Some? && s.row.leaseExpires.value <= ts)
        || (!Marked(s.row) && s.row.lastActiveAt <= ts - GRACE_MS))
  }

  /** The incarnation a replay handshake acts for: supplied, synthetic or inferred. */
  function ReplayInstance(r: Row, supplied: Option<Id>, synthetic: Id): Id {
    if supplied.Some? then supplied.value
    else if r.activeInstance.None? then synthetic
    else r.activeInstance.value
  }

  predicate MayReplayClaim(s: Lease, supplied: Option<Id>, synthetic: Id, ts: int) {
    var r := s.row;
    && (supplied.Some? ==> r.activeInstance.None? || r.activeInstance == supplied)
    && (supplied.None? ==>
          || !r.active
          || (Marked(r) && (|| r.leaseId.None?
                            || r.leaseInstance != r.activeInstance
                            || (r.leaseExpires.Some? && r.leaseExpires.value <= ts)))
          || (!Marked(r) && r.lastActiveAt <= ts - GRACE_MS))
    && !s.Terminal(ReplayInstance(r, supplied, synthetic))
  }

  predicate MayEnd(s: Lease, instance: Id) {
    s.row.activeInstance == Some(instance) && !s.Terminal(instance)
  }

  /** The exact live generation, whether or not its lease has run out. */
  predicate Generation(s: Lease, instance: Id, leaseId: Id) {
    && s.row.active
    && s.row.activeInstance == Some(instance)
    && s.row.leaseInstance == Some(instance)
    && s.row.leaseId == Some(leaseId)
    && instance !in s.retired
  }

  predicate Unmarked(r: Row) {
    r.activeInstance.None? && !Marked(r)
  }

  datatype Statement =
    | LiveClaim(instance: Option<Id>, leaseId: Id)
    | ReplayClaim(supplied: Option<Id>, synthetic: Id, leaseId: Id)
    | Expire(inst: Id, oldLease: Id, tombstone: Id)
    | Renew(inst: Id, oldLease: Id)
    | RenewLegacy
    | End(inst: Id, tombstone: Id)
    | LegacyEnd(endedAt: int, tombstone: Id)
    | Timeout(cutoff: int)

  /** Whether the statement's condition picks the row. */
  predicate Applies(s: Lease, st: Statement, ts: int) {
    match st
    case LiveClaim(instance, _) => Truthy(instance) && MayLiveClaim(s, instance.value, ts)
    case ReplayClaim(supplied, synthetic, _) => MayReplayClaim(s, supplied, synthetic, ts)
    case Expire(inst, oldLease, _) => Generation(s, inst, oldLease)
    case Renew(inst, oldLease) => Generation(s, inst, oldLease)
    case RenewLegacy => Unmarked(s.row)
    case End(inst, _) => MayEnd(s, inst)
    case LegacyEnd(endedAt, _) => Unmarked(s.row) && s.row.lastActiveAt <= endedAt
    case Timeout(cutoff) => s.row.active && s.row.lastActiveAt <= cutoff
  }

  /** The displaced incarnation becomes superseded unless its retirement is already terminal. */
  function Supersede(s: Lease, successor: Id): map<Id, Status> {
    var previous := s.row.activeInstance;
    if previous.None? || previous.value == successor then s.retired
    else if s.Terminal(previous.value) then s.retired
    else s.retired[previous.value := Superseded]
  }

  /** One SQL statement, executed atomically at transaction time `ts`. */
  function Execute(s: Lease, st: Statement, ts: int): Lease {
    if !Applies(s, st, ts) then s
    else
      match st
      case LiveClaim(instance, leaseId) =>
        Lease(Row(true, instance, Some(leaseId), instance, Some(ts + LEASE_MS), ts),
              Supersede(s, instance.value))
      case ReplayClaim(supplied, synthetic, leaseId) =>
        var replay := ReplayInstance(s.row, supplied, synthetic);
        Lease(Row(false, Some(replay), Some(leaseId), Some(replay), Some(ts + LEASE_MS), s.row.lastActiveAt),
              s.retired[replay := Replaying])
      case Expire(inst, _, tombstone) =>
        s.(row := s.row.(leaseId := Some(tombstone), leaseInstance := Some(inst), leaseExpires := Some(ts)))
      case Renew(_, _) =>
        s.(row := s.row.(leaseExpires := Some(ts + LEASE_MS), lastActiveAt := ts))
      case RenewLegacy =>
        s.(row := s.row.(active := true, lastActiveAt := ts))
      case End(inst, tombstone) =>
        Lease(s.row.(active := false, lastActiveAt := ts, leaseId := Some(tombstone),
              leaseInstance := Some(inst), leaseExpires := Some(ts)),
              s.retired[inst := Ended])
      case LegacyEnd(endedAt, tombstone) =>
        s.(row := s.row.(lastActiveAt := endedAt, active := false, leaseId := Some(tombstone),
           leaseInstance := None, leaseExpires := Some(endedAt)))
      case Timeout(_) =>
        s.(row := s.row.(active := false))
  }

  /** A fresh row, or one last written by the lease-unaware binary; nothing retired yet. */
  predicate Initial(s: Lease) {
    !Marked(s.row) && s.retired == map[]
  }

  // ---------------------------------------------------------------------------------------------
  // Shapes of reachable rows

  /** Wholly unmarked, an inactive legacy tombstone, or fully leased to the active instance. */
  predicate Shaped(r: Row) {
    || !Marked(r)
    || (!r.active && r.activeInstance.None? && r.leaseId.Some? && r.leaseInstance.None? && r.leaseExpires.Some?)
    || Leased(r)
  }

  predicate Leased(r: Row) {
    r.activeInstance.Some? && r.leaseId.Some? && r.leaseInstance == r.activeInstance && r.leaseExpires.Some?
  }

  predicate Valid(s: Lease) {
    && Shaped(s.row)
    && (s.row.active ==> !s.CurrentRetired())
    && (s.row.active && Leased(s.row) ==> Truthy(s.row.activeInstance))
    && (!Marked(s.row) ==> s.retired == map[])
  }

  lemma ExecuteKeepsValid(s: Lease, st: Statement, ts: int)
    requires Valid(s)
    ensures Valid(Execute(s, st, ts))
    ensures Marked(s.row) ==> Marked(Execute(s, st, ts).row)
    ensures s.row.activeInstance.Some? ==> Execute(s, st, ts).row.activeInstance.Some?
  {
  }

  /** Retirement only grows, and `ended` and `superseded` never change. */
  lemma ExecuteKeepsRetirements(s: Lease, st: Statement, ts: int, i: Id)
    ensures i in s.retired ==> i in Execute(s, st, ts).retired
    ensures s.Terminal(i) ==> Execute(s, st, ts).Terminal(i)
                              && Execute(s, st, ts).retired[i] == s.retired[i]
  {
  }

  /** A statement that moves the row away from an incarnation retires it terminally, and one that
      moves the row to an incarnation finds it unretired or still replaying. */
  lemma ExecuteMovesForward(s: Lease, st: Statement, ts: int, i: Id)
    ensures s.row.activeInstance == Some(i) && Execute(s, st, ts).row.activeInstance != Some(i) ==>
              Execute(s, st, ts).Terminal(i)
    ensures s.row.activeInstance != Some(i) && Execute(s, st, ts).row.activeInstance == Some(i) ==>
              !s.Terminal(i)
  {
  }

  /** Lease ids a statement writes; all come from `randomUUID`. */
  function Minted(st: Statement): set<Id> {
    match st
    case LiveClaim(_, leaseId) => {leaseId}
    case ReplayClaim(_, _, leaseId) => {leaseId}
    case Expire(_, _, tombstone) => {tombstone}
    case End(_, tombstone) => {tombstone}
    case LegacyEnd(_, tombstone) => {tombstone}
    case _ => {}
  }

  lemma ExecuteLeaseId(s: Lease, st: Statement, ts: int)
    ensures var next := Execute(s, st, ts).row.leaseId;
            next == s.row.leaseId || (next.Some? && next.value in Minted(st))
  {
  }
}
