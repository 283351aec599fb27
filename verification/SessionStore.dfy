/** The SQL conditions of the lease statements, clause by clause in three-valued logic, and the
    persisted session they act on. */
module SessionStore {
  import opened Sql
  import opened Lease

  function NotRetired(s: Lease, instance: Id): Bool3 {
    Lift(instance !in s.retired)
  }

  function NoMarkers(r: Row): Bool3 {
    And(And(IsNull(r.leaseId), IsNull(r.leaseInstance)), IsNull(r.leaseExpires))
  }

  function SomeMarker(r: Row): Bool3 {
    Or(Or(NotNull(r.leaseId), NotNull(r.leaseInstance)), NotNull(r.leaseExpires))
  }

  function QuietSince(r: Row, ts: int): Bool3 {
    AtMost(Some(r.lastActiveAt), ts - GRACE_MS)
  }

  function LiveClaimWhere(s: Lease, instance: Id, ts: int): Bool3 {
    var r := s.row;
    And(NotRetired(s, instance),
        Or(Or(Or(Or(IsNull(r.activeInstance), Eq(r.activeInstance, Some(instance))),
                 Not(Lift(r.active))),
              AtMost(r.leaseExpires, ts)),
           And(NoMarkers(r), QuietSince(r, ts))))
  }

  function ReplayClaimWhere(s: Lease, supplied: Option<Id>, resolved: Id, ts: int): Bool3 {
    var r := s.row;
    And(And(Or(And(NotNull(supplied), Or(IsNull(r.activeInstance), Eq(r.activeInstance, supplied))),
               IsNull(supplied)),
            // AND binds tighter than OR, as in the statement
            Or(Or(Or(NotNull(supplied), Not(Lift(r.active))),
                  And(SomeMarker(r),
                      Or(Or(IsNull(r.leaseId), Distinct(r.leaseInstance, r.activeInstance)),
                         AtMost(r.leaseExpires, ts)))),
               And(NoMarkers(r), QuietSince(r, ts)))),
        Lift(!s.Terminal(resolved)))
  }

  function GenerationWhere(s: Lease, instance: Id, leaseId: Id): Bool3 {
    And(And(And(And(Lift(s.row.active), Eq(s.row.activeInstance, Some(instance))),
                Eq(s.row.leaseInstance, Some(instance))),
            Eq(s.row.leaseId, Some(leaseId))),
        NotRetired(s, instance))
  }

  function EndWhere(s: Lease, instance: Id): Bool3 {
    And(Eq(s.row.activeInstance, Some(instance)), Lift(!s.Terminal(instance)))
  }

  /** `runtimeConnectionOwnershipSql` */
  function OwnershipSql(s: Lease, instance: Option<Id>, leaseId: Option<Id>, ts: int): Bool3 {
    if instance.None? != leaseId.None? then False
    else if !Truthy(instance) then
      And(And(Lift(s.row.active), IsNull(s.row.activeInstance)), NoMarkers(s.row))
    else And(GenerationWhere(s, instance.value, leaseId.value), Above(s.row.leaseExpires, ts))
  }

  /** The CASE expression of `findRuntimeConnectionSession`. */
  function ReadinessCase(s: Lease, ts: int): Bool3 {
    var r := s.row;
    if Holds(Or(Or(Not(Lift(r.active)), IsNull(r.activeInstance)), Lift(s.CurrentRetired()))) then False
    else if Holds(SomeMarker(r)) then
      And(And(NotNull(r.leaseId), Eq(r.leaseInstance, r.activeInstance)), Above(r.leaseExpires, ts))
    else Above(Some(r.lastActiveAt), ts - GRACE_MS)
  }

  /** The column `runtimeLeaseCurrent` read by message persistence. */
  function RuntimeLeaseCurrent(s: Lease, ts: int): Bool3 {
    var r := s.row;
    And(And(And(And(And(Lift(r.active), NotNull(r.activeInstance)), NotNull(r.leaseId)),
                Eq(r.leaseInstance, r.activeInstance)),
            Above(r.leaseExpires, ts)),
        Lift(!s.CurrentRetired()))
  }

  // ---------------------------------------------------------------------------------------------
  // The readers agree

  /** On every row the SQL readiness is true exactly when the TypeScript readiness is; it is NULL
      only on half-written lease tuples. */
  lemma ReadinessSqlMatchesTypeScript(s: Lease, ts: int)
    ensures Holds(ReadinessCase(s, ts)) <==> Connected(s, ts)
    ensures ReadinessCase(s, ts) == Null <==>
              && s.row.active && s.row.activeInstance.Some? && !s.CurrentRetired() && s.row.leaseId.Some?
              && (s.row.leaseInstance.None? || s.row.leaseExpires.None?)
              && (s.row.leaseInstance.None? || s.row.leaseInstance == s.row.activeInstance)
              && (s.row.leaseExpires.None? || s.row.leaseExpires.value > ts)
  {
  }

  /** On reachable rows readiness is never NULL, and on leased rows readiness, ownership by the
      stored generation and the column read by message persistence are one predicate. Nobody else
      owns the row: an owner presents exactly the stored tuple. */
  lemma LeaseReadersAgree(s: Lease, ts: int)
    requires Valid(s)
    ensures ReadinessCase(s, ts) != Null
    ensures Leased(s.row) ==>
              (Connected(s, ts) <==> Holds(RuntimeLeaseCurrent(s, ts)))
              && (Connected(s, ts) <==> Holds(OwnershipSql(s, s.row.activeInstance, s.row.leaseId, ts)))
    ensures forall instance, leaseId :: Truthy(instance) && Holds(OwnershipSql(s, instance, leaseId, ts)) ==>
              Connected(s, ts) && s.row.activeInstance == instance && s.row.leaseId == leaseId
  {
  }

  lemma OwnershipSqlMatches(s: Lease, instance: Option<Id>, leaseId: Option<Id>, ts: int)
    ensures Holds(OwnershipSql(s, instance, leaseId, ts)) <==> Owns(s, instance, leaseId, ts)
  {
  }

  // ---------------------------------------------------------------------------------------------
  // Sessions are neither stolen nor wedged

  /** A different, unretired incarnation can take the session over exactly when the session is not
      connected; the current one can always rotate its lease. */
  lemma TakeoverIffDisconnected(s: Lease, instance: Id, leaseId: Id, ts: int)
    requires Valid(s) && instance != "" && instance !in s.retired
    ensures s.row.activeInstance != Some(instance) ==>
              (Applies(s, LiveClaim(Some(instance), leaseId), ts) <==> !Connected(s, ts))
    ensures s.row.activeInstance == Some(instance) ==> Applies(s, LiveClaim(Some(instance), leaseId), ts)
    ensures Applies(s, LiveClaim(Some(instance), leaseId), ts) ==>
              Owns(Execute(s, LiveClaim(Some(instance), leaseId), ts), Some(instance), Some(leaseId), ts)
  {
  }

  /** A replay handshake without an id never displaces a connected or in-grace row, and apart from
      that it is refused only to a terminally retired incarnation. */
  lemma AnonymousReplayIffIdle(s: Lease, synthetic: Id, leaseId: Id, ts: int)
    requires Valid(s)
    ensures var idle := !Connected(s, ts)
                        && !(s.row.active && Unmarked(s.row) && s.row.lastActiveAt > ts - GRACE_MS);
            Applies(s, ReplayClaim(None, synthetic, leaseId), ts) <==>
            idle && !s.Terminal(ReplayInstance(s.row, None, synthetic))
  {
  }

  /** On arbitrary rows the first guarantee fails: exactly here a session is, at this time, neither
      connected nor claimable by another incarnation. */
  lemma StuckIff(s: Lease, instance: Id, leaseId: Id, ts: int)
    requires instance != "" && instance !in s.retired && s.row.activeInstance != Some(instance)
    ensures !Connected(s, ts) && !Applies(s, LiveClaim(Some(instance), leaseId), ts) <==>
            && s.row.active && s.row.activeInstance.Some?
            && if !Marked(s.row) then s.CurrentRetired() && s.row.lastActiveAt > ts - GRACE_MS
               else if s.row.leaseExpires.None? then true
               else s.row.leaseExpires.value > ts
                    && (s.row.leaseId.None? || s.row.leaseInstance != s.row.activeInstance || s.CurrentRetired())
  {
  }

  /** On arbitrary rows with an incarnation: where the lease has an expiry or the row is unmarked, an
      anonymous replay is refused exactly if the runtime would be connected but for its retirement,
      or is terminally retired. */
  lemma AnonymousReplayRefusedIff(s: Lease, synthetic: Id, leaseId: Id, ts: int)
    requires s.row.activeInstance.Some? && (Marked(s.row) ==> s.row.leaseExpires.Some?)
    ensures !Applies(s, ReplayClaim(None, synthetic, leaseId), ts) <==>
            IsRuntimeConnected(s.row, false, ts) || s.Terminal(s.row.activeInstance.value)
  {
  }

  /** The condition of renewal and expiry is ownership at the last moment of the lease. */
  lemma GenerationOwnsToTheEnd(s: Lease, instance: Id, leaseId: Id)
    requires instance != "" && s.row.leaseExpires.Some?
    ensures Generation(s, instance, leaseId) <==> Owns(s, Some(instance), Some(leaseId), s.row.leaseExpires.value - 1)
  {
  }

  /** And it is so for ever exactly when a marked row has no expiry. */
  lemma WedgedForEverIff(s: Lease, instance: Id, leaseId: Id)
    requires instance != "" && instance !in s.retired && s.row.activeInstance != Some(instance)
    ensures (forall ts :: !Connected(s, ts) && !Applies(s, LiveClaim(Some(instance), leaseId), ts)) <==>
            && s.row.active && s.row.activeInstance.Some? && s.row.leaseExpires.None?
            && (s.row.leaseId.Some? || s.row.leaseInstance.Some?)
    ensures s.row.active && s.row.activeInstance.Some? && Marked(s.row) && s.row.leaseExpires.None? ==> !Valid(s)
  {
    var late := if s.row.leaseExpires.Some? then s.row.leaseExpires.value else s.row.lastActiveAt + GRACE_MS;
    StuckIff(s, instance, leaseId, late);
    assert !(s.row.active && s.row.activeInstance.Some? && Marked(s.row) && s.row.leaseExpires.None?) ==>
        Connected(s, late) || Applies(s, LiveClaim(Some(instance), leaseId), late);
  }

  // ---------------------------------------------------------------------------------------------
  // The persisted session

  datatype ClaimResult =
    | NotClaimed
    | Claimed(ownedLeaseId: Id, ownedInstance: Id, displacedLeaseId: Option<Id>)

  /** One Session row with its retirements. Every method is one SQL statement; `ts` is its
      CURRENT_TIMESTAMP and the ids it mints are parameters. */
  class Session {
    const account: Id
    var active: bool
    var activeInstance: Option<Id>
    var leaseId: Option<Id>
    var leaseInstance: Option<Id>
    var leaseExpires: Option<int>
    var lastActiveAt: int
    var retired: map<Id, Status>

    function State(): Lease
      reads this
    {
      Lease(Row(active, activeInstance, leaseId, leaseInstance, leaseExpires, lastActiveAt), retired)
    }

    /** A new row, or one as the lease-unaware binary left it. */
    constructor (account: Id, active: bool, activeInstance: Option<Id>, lastActiveAt: int)
      ensures this.account == account
      ensures Initial(State()) && Valid(State())
      ensures State().row == Row(active, activeInstance, None, None, None, lastActiveAt)
    {
      this.account := account;
      this.active, this.activeInstance, this.lastActiveAt := active, activeInstance, lastActiveAt;
      this.leaseId, this.leaseInstance, this.leaseExpires, this.retired := None, None, None, map[];
    }

    method ClaimLive(accountId: Id, instance: Option<Id>, newLease: Id, ts: int) returns (r: ClaimResult)
      modifies this
      ensures State() == if accountId == account then Execute(old(State()), LiveClaim(instance, newLease), ts)
                         else old(State())
      ensures r.Claimed? <==> accountId == account && Applies(old(State()), LiveClaim(instance, newLease), ts)
      ensures r.Claimed? ==>
                r == Claimed(newLease, instance.value, if Truthy(old(leaseId)) then old(leaseId) else None)
    {
      if !Truthy(instance) {
        return NotClaimed;
      }
      var me := instance.value;
      if accountId != account || !Holds(LiveClaimWhere(State(), me, ts)) {
        return NotClaimed;
      }
      var previous, previousLease := activeInstance, leaseId;
      if previous.Some? && previous.value != me {
        // ON CONFLICT: only a replaying retirement moves on to superseded
        var replaced := if previous.value in retired && retired[previous.value] != Replaying
                        then retired[previous.value] else Superseded;
        retired := retired[previous.value := replaced];
      }
      activeInstance, leaseId, leaseInstance := Some(me), Some(newLease), Some(me);
      leaseExpires, active, lastActiveAt := Some(ts + LEASE_MS), true, ts;
      r := Claimed(newLease, me, if Truthy(previousLease) then previousLease else None);
    }

    method ClaimReplay(accountId: Id, supplied: Option<Id>, synthetic: Id, newLease: Id, ts: int)
      returns (r: ClaimResult)
      modifies this
      ensures State() == if accountId == account
                         then Execute(old(State()), ReplayClaim(supplied, synthetic, newLease), ts)
                         else old(State())
      ensures var replay := ReplayInstance(old(State()).row, supplied, synthetic);
              && (r.Claimed? <==> accountId == account && replay != ""
                                  && Applies(old(State()), ReplayClaim(supplied, synthetic, newLease), ts))
              && (r.Claimed? ==>
                    r == Claimed(newLease, replay, if Truthy(old(leaseId)) then old(leaseId) else None))
    {
      var replay := if supplied.Some? then supplied.value
                    else if activeInstance.None? then synthetic else activeInstance.value;
      if accountId != account || !Holds(ReplayClaimWhere(State(), supplied, replay, ts)) {
        return NotClaimed;
      }
      var previousLease := leaseId;
      retired := retired[replay := Replaying];
      active, activeInstance, leaseId, leaseInstance := false, Some(replay), Some(newLease), Some(replay);
      leaseExpires := Some(ts + LEASE_MS);
      r := if replay == "" then NotClaimed
           else Claimed(newLease, replay, if Truthy(previousLease) then previousLease else None);
    }

    method ExpireLease(accountId: Id, instance: Id, oldLease: Id, tombstone: Id, ts: int) returns (expired: bool)
      modifies this
      ensures expired <==> accountId == account && Generation(old(State()), instance, oldLease)
      ensures State() == if expired then Execute(old(State()), Expire(instance, oldLease, tombstone), ts)
                         else old(State())
    {
      expired := accountId == account && Holds(GenerationWhere(State(), instance, oldLease));
      if expired {
        leaseId, leaseInstance, leaseExpires := Some(tombstone), Some(instance), Some(ts);
      }
    }

    method RenewLease(accountId: Id, instance: Id, oldLease: Id, ts: int) returns (renewed: bool)
      modifies this
      ensures renewed <==> accountId == account && Generation(old(State()), instance, oldLease)
      ensures State() == if renewed then Execute(old(State()), Renew(instance, oldLease), ts) else old(State())
    {
      renewed := accountId == account && Holds(GenerationWhere(State(), instance, oldLease));
      if renewed {
        leaseExpires, lastActiveAt := Some(ts + LEASE_MS), ts;
      }
    }

    method RenewLegacyConnection(accountId: Id, ts: int) returns (renewed: bool)
      modifies this
      ensures renewed <==> accountId == account && Unmarked(old(State()).row)
      ensures State() == if renewed then Execute(old(State()), RenewLegacy, ts) else old(State())
    {
      renewed := accountId == account && Holds(And(IsNull(activeInstance), NoMarkers(State().row)));
      if renewed {
        active, lastActiveAt := true, ts;
      }
    }

    method EndLease(accountId: Id, instance: Id, tombstone: Id, ts: int) returns (endedAt: Option<int>)
      modifies this
      ensures endedAt == if accountId == account && MayEnd(old(State()), instance) then Some(ts) else None
      ensures State() == if endedAt.Some? then Execute(old(State()), End(instance, tombstone), ts) else old(State())
    {
      if accountId != account || !Holds(EndWhere(State(), instance)) {
        return None;
      }
      active, lastActiveAt := false, ts;
      leaseId, leaseInstance, leaseExpires := Some(tombstone), Some(instance), Some(ts);
      retired := retired[instance := Ended];
      endedAt := Some(lastActiveAt);
    }

    /** The timestamp-fenced end of a client without an incarnation. */
    method EndLegacy(accountId: Id, endedAt: int, tombstone: Id) returns (ended: bool)
      modifies this
      ensures ended <==> accountId == account && Unmarked(old(State()).row) && old(lastActiveAt) <= endedAt
      ensures State() == if ended then Execute(old(State()), LegacyEnd(endedAt, tombstone), endedAt)
                         else old(State())
    {
      ended := accountId == account && lastActiveAt <= endedAt
               && Holds(And(IsNull(activeInstance), NoMarkers(State().row)));
      if ended {
        lastActiveAt, active := endedAt, false;
        leaseId, leaseInstance, leaseExpires := Some(tombstone), None, Some(endedAt);
      }
    }

    /** The sweep repeats the cutoff it selected by. */
    method TimeOut(cutoff: int) returns (updated: bool)
      modifies this
      ensures updated <==> old(active) && old(lastActiveAt) <= cutoff
      ensures State() == Execute(old(State()), Timeout(cutoff), cutoff)
    {
      updated := active && lastActiveAt <= cutoff;
      if updated {
        active := false;
      }
    }
  }
}
