/** Who can claim a session in a run, and how long a client without incarnation stays connected. */
module ClaimTheorems {
  import opened Sql
  import opened Lease
  import opened MessageLog
  import opened SessionRuns
  import opened SessionTheorems

  // ---------------------------------------------------------------------------------------------
  // Why an incarnation is retired

  /** The end of incarnation x takes effect. */
  predicate Ends(s: State, e: Event, x: Id) {
    e.Db? && e.st.End? && e.st.inst == x && Applies(s.lease, e.st, e.ts)
  }

  predicate Ended(states: seq<State>, events: seq<Event>, k: nat, x: Id)
    requires k <= |states| && k <= |events|
  {
    exists j :: 0 <= j < k && Ends(states[j], events[j], x)
  }

  lemma StepRetires(s: State, e: Event, x: Id)
    requires Inv(s) && Enabled(s, e)
    ensures Ends(s, e, x) ==> Apply(s, e).lease.Terminal(x)
    ensures Apply(s, e).lease.Terminal(x) && !s.lease.Terminal(x) && !Ends(s, e, x) ==>
              s.lease.row.activeInstance == Some(x) && Apply(s, e).lease.row.activeInstance != Some(x)
    ensures s.lease.row.activeInstance.Some? ==> Apply(s, e).lease.row.activeInstance.Some?
    ensures Apply(s, e).lease.row.activeInstance.None? && s.lease.retired == map[] ==> Apply(s, e).lease.retired == map[]
  {
  }

  /** The current incarnation is terminal exactly if it was ended. */
  lemma {:induction false} CurrentTerminalIffEnded(states: seq<State>, events: seq<Event>, k: nat, x: Id)
    requires Run(states, events) && k < |states| && states[k].lease.row.activeInstance == Some(x)
    ensures states[k].lease.Terminal(x) <==> Ended(states, events, k, x)
  {
    forall j | 0 <= j < k && Ends(states[j], events[j], x) ensures states[k].lease.Terminal(x) {
      assert Steps(states, events, j);
      RunInv(states, events, j);
      StepRetires(states[j], events[j], x);
      RetirementIsPermanent(states, events, j + 1, k, x);
    }
    if states[k].lease.Terminal(x) {
      var j := TerminalOrigin(states, events, k, x);
      if !Ends(states[j], events[j], x) {
        DisplacedIncarnationNeverReturns(states, events, j, k, x);
      }
    }
  }

  lemma {:induction false} TerminalOrigin(states: seq<State>, events: seq<Event>, k: nat, x: Id) returns (j: nat)
    requires Run(states, events) && k < |states| && states[k].lease.Terminal(x)
    ensures j < k
    ensures Ends(states[j], events[j], x)
            || (states[j].lease.row.activeInstance == Some(x) && states[j + 1].lease.row.activeInstance != Some(x))
  {
    assert Steps(states, events, k - 1);
    RunInv(states, events, k - 1);
    StepRetires(states[k - 1], events[k - 1], x);
    if states[k - 1].lease.Terminal(x) {
      j := TerminalOrigin(states, events, k - 1, x);
    } else {
      j := k - 1;
    }
  }

  lemma {:induction false} NothingRetiredBeforeFirst(states: seq<State>, events: seq<Event>, k: nat)
    requires Run(states, events) && k < |states| && states[k].lease.row.activeInstance.None?
    ensures states[k].lease.retired == map[]
  {
    if k > 0 {
      assert Steps(states, events, k - 1);
      RunInv(states, events, k - 1);
      StepRetires(states[k - 1], events[k - 1], "");
      NothingRetiredBeforeFirst(states, events, k - 1);
    }
  }

  // ---------------------------------------------------------------------------------------------
  // Claims by a named incarnation

  /** A replay handshake that names its incarnation succeeds exactly if the session has had none so far,
      or this one is current and was not ended; and what it wins is the right to replay. */
  lemma NamedReplayIff(states: seq<State>, events: seq<Event>, k: nat, x: Id, synthetic: Id, leaseId: Id, ts: int, at: int)
    requires Run(states, events) && k < |states|
    ensures var s, claim := states[k].lease, ReplayClaim(Some(x), synthetic, leaseId);
            && (Applies(s, claim, ts) <==>
                  match s.row.activeInstance
                  case None => true
                  case Some(current) => current == x && !Ended(states, events, k, x))
            && (Applies(s, claim, ts) ==>
                  (Authorized(Execute(s, claim, ts), ReplayAuth(Some(x), Some(leaseId)), at) <==> at < ts + LEASE_MS))
  {
    if states[k].lease.row.activeInstance == Some(x) {
      CurrentTerminalIffEnded(states, events, k, x);
    } else if states[k].lease.row.activeInstance.None? {
      NothingRetiredBeforeFirst(states, events, k);
    }
  }

  /** A live handshake succeeds exactly if its incarnation is not retired and either is current or finds
      nobody connected; and what it wins is the session, for one lease duration. */
  lemma NamedLiveIff(states: seq<State>, events: seq<Event>, k: nat, x: Id, leaseId: Id, ts: int, at: int)
    requires Run(states, events) && k < |states|
    ensures var s, claim := states[k].lease, LiveClaim(Some(x), leaseId);
            && (Applies(s, claim, ts) <==>
                  x != "" && x !in s.retired && (s.row.activeInstance == Some(x) || !Connected(s, ts)))
            && (Applies(s, claim, ts) ==>
                  (Owns(Execute(s, claim, ts), Some(x), Some(leaseId), at) <==> at < ts + LEASE_MS))
  {
    NeitherStolenNorWedged(states, events, k, x, leaseId, "", ts);
  }

  /** For every incarnation, ever current or not: a stale answer says retryable exactly if the incarnation
      is current and its own claim, live or, once it is replaying, replay, would succeed now. */
  lemma RetryableIffCurrentCanClaim(
      states: seq<State>, events: seq<Event>, k: nat, x: Id, lease: Id, synthetic: Id, newLease: Id, ts: int)
    requires Run(states, events) && k < |states| && x != ""
    ensures var s := states[k].lease;
            && (Retryable(s, LeaseAuth(x, lease)) <==>
                  s.row.activeInstance == Some(x) && Applies(s, LiveClaim(Some(x), newLease), ts))
            && (Retryable(s, ReplayAuth(Some(x), Some(lease))) <==>
                  s.row.activeInstance == Some(x) && x in s.retired && Applies(s, ReplayClaim(Some(x), synthetic, newLease), ts))
  {
    NamedLiveIff(states, events, k, x, newLease, ts, ts);
    NamedReplayIff(states, events, k, x, synthetic, newLease, ts, ts);
    if states[k].lease.row.activeInstance == Some(x) {
      CurrentTerminalIffEnded(states, events, k, x);
    }
  }

  // ---------------------------------------------------------------------------------------------
  // Clients without incarnation

  /** A legacy heartbeat takes effect. */
  predicate Beats(s: State, e: Event) {
    e.Db? && e.st.RenewLegacy? && Applies(s.lease, e.st, e.ts)
  }

  lemma StepStaysUnmarked(s: State, e: Event)
    requires Inv(s) && Enabled(s, e) && Unmarked(Apply(s, e).lease.row)
    ensures Unmarked(s.lease.row)
    ensures if Beats(s, e) then Apply(s, e).lease.row.active && Apply(s, e).lease.row.lastActiveAt == e.ts
            else Apply(s, e).lease.row.lastActiveAt == s.lease.row.lastActiveAt
                 && Apply(s, e).lease.row.active == (s.lease.row.active && !Sweeps(s, e))
  {
  }

  /** After a legacy heartbeat, as long as the row stays unmarked and unless it is swept, the client owns
      the session, and may write and is a delivery target for exactly the grace period. */
  lemma {:induction false} LegacyLivesByHeartbeats(states: seq<State>, events: seq<Event>, i: nat, k: nat, at: int)
    requires Run(states, events) && i < k < |states| && Beats(states[i], events[i]) && Unmarked(states[k].lease.row)
    requires forall j :: i < j < k ==> !Beats(states[j], events[j])
    ensures var s := states[k].lease;
            var alive := forall j :: i < j < k ==> !Sweeps(states[j], events[j]);
            && s.row.lastActiveAt == events[i].ts
            && (s.row.active <==> alive)
            && (Owns(s, None, None, at) <==> alive)
            && (Authorized(s, LegacyAuth, at) <==> alive && at < events[i].ts + GRACE_MS)
            && (TargetOf(s, at) == Target(None, alive && at < events[i].ts + GRACE_MS))
    decreases k
  {
    assert Steps(states, events, k - 1);
    RunInv(states, events, k - 1);
    StepStaysUnmarked(states[k - 1], events[k - 1]);
    if i < k - 1 {
      LegacyLivesByHeartbeats(states, events, i, k - 1, at);
    }
  }

  /** A claim or a legacy end takes effect. */
  predicate Marks(s: State, e: Event) {
    e.Db? && (e.st.LiveClaim? || e.st.ReplayClaim? || e.st.LegacyEnd?) && Applies(s.lease, e.st, e.ts)
  }

  /** The client without incarnation owns the session exactly while it is active, if it never had an
      incarnation and no claim or legacy end has taken effect. */
  lemma {:induction false} TuplelessOwnerIff(states: seq<State>, events: seq<Event>, k: nat, ts: int)
    requires Run(states, events) && k < |states|
    ensures var r := states[k].lease.row;
            Owns(states[k].lease, None, None, ts) <==>
            && r.active && states[0].lease.row.activeInstance.None?
            && forall j :: 0 <= j < k ==> !Marks(states[j], events[j])
  {
    UnmarkedIff(states, events, k);
  }

  lemma {:induction false} UnmarkedIff(states: seq<State>, events: seq<Event>, k: nat)
    requires Run(states, events) && k < |states|
    ensures Unmarked(states[k].lease.row) <==>
            states[0].lease.row.activeInstance.None? && forall j :: 0 <= j < k ==> !Marks(states[j], events[j])
  {
    if k > 0 {
      assert Steps(states, events, k - 1);
      RunInv(states, events, k - 1);
      UnmarkedIff(states, events, k - 1);
    }
  }

  // ---------------------------------------------------------------------------------------------
  // When a session was last active

  /** The time of the latest activity that took effect: a live claim, a heartbeat or an end. */
  function LastActivity(states: seq<State>, events: seq<Event>, k: nat): int
    requires k <= |events| && k < |states|
  {
    if k == 0 then states[0].lease.row.lastActiveAt
    else
      var s, e := states[k - 1], events[k - 1];
      if !e.Db? || !Applies(s.lease, e.st, e.ts) then LastActivity(states, events, k - 1)
      else match e.st
        case LiveClaim(_, _) => e.ts
        case Renew(_, _) => e.ts
        case RenewLegacy => e.ts
        case End(_, _) => e.ts
        case LegacyEnd(endedAt, _) => endedAt
        case _ => LastActivity(states, events, k - 1)
  }

  lemma {:induction false} LastActiveIsLastActivity(states: seq<State>, events: seq<Event>, k: nat)
    requires Run(states, events) && k < |states|
    ensures states[k].lease.row.lastActiveAt == LastActivity(states, events, k)
  {
    if k > 0 {
      assert Steps(states, events, k - 1);
      LastActiveIsLastActivity(states, events, k - 1);
    }
  }

  /** The lease of the latest statement that minted one, and when that lease runs out: one duration after
      its claim or latest heartbeat, or at its end. */
  function LastLease(states: seq<State>, events: seq<Event>, k: nat): (Option<Id>, Option<int>)
    requires k <= |events| && k < |states|
  {
    if k == 0 then (None, None)
    else
      var s, e := states[k - 1], events[k - 1];
      var before := LastLease(states, events, k - 1);
      if !e.Db? || !Applies(s.lease, e.st, e.ts) then before
      else match e.st
        case LiveClaim(_, leaseId) => (Some(leaseId), Some(e.ts + LEASE_MS))
        case ReplayClaim(_, _, leaseId) => (Some(leaseId), Some(e.ts + LEASE_MS))
        case Renew(_, _) => (before.0, Some(e.ts + LEASE_MS))
        case Expire(_, _, tombstone) => (Some(tombstone), Some(e.ts))
        case End(_, tombstone) => (Some(tombstone), Some(e.ts))
        case LegacyEnd(endedAt, tombstone) => (Some(tombstone), Some(endedAt))
        case _ => before
  }

  lemma {:induction false} LeaseTellsItsPast(states: seq<State>, events: seq<Event>, k: nat)
    requires Run(states, events) && k < |states|
    ensures (states[k].lease.row.leaseId, states[k].lease.row.leaseExpires) == LastLease(states, events, k)
  {
    if k > 0 {
      assert Steps(states, events, k - 1);
      LeaseTellsItsPast(states, events, k - 1);
    }
  }

  /** A legacy end takes effect exactly while no claim or other end has, and unless a later activity
      has; the sweep exactly on an active session without activity after its cutoff. */
  lemma TimedEndsIff(states: seq<State>, events: seq<Event>, k: nat, endedAt: int, tombstone: Id, cutoff: int, ts: int)
    requires Run(states, events) && k < |states|
    ensures Applies(states[k].lease, LegacyEnd(endedAt, tombstone), ts) <==>
            && states[0].lease.row.activeInstance.None? && (forall j :: 0 <= j < k ==> !Marks(states[j], events[j]))
            && LastActivity(states, events, k) <= endedAt
    ensures Applies(states[k].lease, Timeout(cutoff), ts) <==>
            states[k].lease.row.active && LastActivity(states, events, k) <= cutoff
  {
    UnmarkedIff(states, events, k);
    LastActiveIsLastActivity(states, events, k);
  }

  /** A claim that mints this lease id takes effect. */
  predicate Issues(s: State, e: Event, leaseId: Id) {
    && e.Db? && (e.st.LiveClaim? || e.st.ReplayClaim?) && e.st.leaseId == leaseId && Applies(s.lease, e.st, e.ts)
  }

  /** The lease ids sockets have are exactly those that claims have won. */
  lemma {:induction false} IssuedIff(states: seq<State>, events: seq<Event>, k: nat, leaseId: Id)
    requires Run(states, events) && k < |states|
    ensures leaseId in states[k].issued <==> exists j :: 0 <= j < k && Issues(states[j], events[j], leaseId)
  {
    if k > 0 {
      assert Steps(states, events, k - 1);
      IssuedIff(states, events, k - 1, leaseId);
    }
  }
}
