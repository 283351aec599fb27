/** What holds in every run of a session. */
module SessionTheorems {
  import opened Sql
  import opened Lease
  import opened MessageLog
  import opened SessionRuns
  import SessionStore

  // ---------------------------------------------------------------------------------------------
  // No resurrection

  lemma StepKeepsRetirements(s: State, e: Event, i: Id)
    ensures i in s.lease.retired ==> i in Apply(s, e).lease.retired
    ensures s.lease.Terminal(i) ==>
              Apply(s, e).lease.Terminal(i) && Apply(s, e).lease.retired[i] == s.lease.retired[i]
  {
    if e.Db? {
      ExecuteKeepsRetirements(s.lease, e.st, e.ts, i);
    }
  }

  /** Along a run retirement is permanent, `ended` and `superseded` never change, and neither a
      retired incarnation nor anyone in its name satisfies the ownership predicate again. */
  lemma {:induction false} RetirementIsPermanent(
      states: seq<State>, events: seq<Event>, i: nat, k: nat, instance: Id)
    requires Run(states, events) && i <= k < |states|
    requires instance in states[i].lease.retired
    ensures instance in states[k].lease.retired
    ensures states[i].lease.Terminal(instance) ==>
              states[k].lease.Terminal(instance)
              && states[k].lease.retired[instance] == states[i].lease.retired[instance]
    ensures instance != "" ==> forall leaseId, ts :: !Owns(states[k].lease, Some(instance), leaseId, ts)
    ensures forall leaseId, ts :: !Applies(states[k].lease, LiveClaim(Some(instance), leaseId), ts)
    ensures !(states[k].lease.row.active && states[k].lease.row.activeInstance == Some(instance))
    decreases k - i
  {
    RunInv(states, events, k);
    if i < k {
      assert Steps(states, events, k - 1);
      RetirementIsPermanent(states, events, i, k - 1, instance);
      StepKeepsRetirements(states[k - 1], events[k - 1], instance);
    }
  }

  /** Leaving an incarnation is final: it is terminal from then on and never current again. */
  lemma {:induction false} DisplacedIncarnationNeverReturns(
      states: seq<State>, events: seq<Event>, i: nat, k: nat, instance: Id)
    requires Run(states, events) && i < k < |states|
    requires states[i].lease.row.activeInstance == Some(instance)
    requires states[i + 1].lease.row.activeInstance != Some(instance)
    ensures states[k].lease.row.activeInstance != Some(instance)
    ensures states[k].lease.Terminal(instance)
    decreases k - i
  {
    assert Steps(states, events, k - 1);
    var before, e := states[k - 1], events[k - 1];
    assert e.Db?  || before.lease == states[k].lease;
    if k == i + 1 {
      ExecuteMovesForward(before.lease, e.st, e.ts, instance);
    } else {
      DisplacedIncarnationNeverReturns(states, events, i, k - 1, instance);
      StepKeepsRetirements(before, e, instance);
      if e.Db? {
        ExecuteMovesForward(before.lease, e.st, e.ts, instance);
      }
    }
  }

  /** Each incarnation's time as the active instance is one unbroken interval. */
  lemma {:induction false} TenureIsOneInterval(
      states: seq<State>, events: seq<Event>, i: nat, j: nat, k: nat, instance: Id)
    requires Run(states, events) && i <= j <= k < |states|
    requires states[i].lease.row.activeInstance == Some(instance) == states[k].lease.row.activeInstance
    ensures states[j].lease.row.activeInstance == Some(instance)
    decreases j - i
  {
    if i < j {
      if states[i + 1].lease.row.activeInstance == Some(instance) {
        TenureIsOneInterval(states, events, i + 1, j, k, instance);
      } else {
        DisplacedIncarnationNeverReturns(states, events, i, k, instance);
      }
    }
  }

  /** A lease id that was minted and is not the stored one is never stored again. */
  lemma {:induction false} UsedLeaseNeverReturns(
      states: seq<State>, events: seq<Event>, i: nat, k: nat, leaseId: Id)
    requires Run(states, events) && i <= k < |states|
    requires leaseId in states[i].used && states[i].lease.row.leaseId != Some(leaseId)
    ensures leaseId in states[k].used && states[k].lease.row.leaseId != Some(leaseId)
    decreases k - i
  {
    if i < k {
      assert Steps(states, events, k - 1);
      UsedLeaseNeverReturns(states, events, i, k - 1, leaseId);
      var e := events[k - 1];
      if e.Db? {
        ExecuteLeaseId(states[k - 1].lease, e.st, e.ts);
      }
    }
  }

  /** A displaced generation is fenced for good: no ownership, renewal, expiry or message commit
      under its lease id succeeds at any later time. */
  lemma DisplacedLeaseIsFenced(
      states: seq<State>, events: seq<Event>, i: nat, j: nat, k: nat, instance: Id, leaseId: Id, ts: int)
    requires Run(states, events) && i <= j <= k < |states|
    requires states[i].lease.row.leaseId == Some(leaseId) && states[j].lease.row.leaseId != Some(leaseId)
    ensures instance != "" ==> !Owns(states[k].lease, Some(instance), Some(leaseId), ts)
    ensures !Generation(states[k].lease, instance, leaseId)
    ensures !Authorized(states[k].lease, LeaseAuth(instance, leaseId), ts)
    ensures !Authorized(states[k].lease, ReplayAuth(Some(instance), Some(leaseId)), ts)
  {
    RunInv(states, events, i);
    UsedGrows(states, events, i, j);
    UsedLeaseNeverReturns(states, events, j, k, leaseId);
  }

  lemma {:induction false} UsedGrows(states: seq<State>, events: seq<Event>, i: nat, k: nat)
    requires Run(states, events) && i <= k < |states|
    ensures states[i].used <= states[k].used
    decreases k - i
  {
    if i < k {
      assert Steps(states, events, k - 1);
      UsedGrows(states, events, i, k - 1);
    }
  }

  // ---------------------------------------------------------------------------------------------
  // Rows and readiness

  /** Every reachable row has one of three shapes, is never unmarked again once marked, and an
      active row's incarnation is not retired. */
  lemma {:induction false} RowShapes(states: seq<State>, events: seq<Event>, i: nat, k: nat)
    requires Run(states, events) && i <= k < |states|
    ensures Shaped(states[k].lease.row)
    ensures Marked(states[i].lease.row) ==> Marked(states[k].lease.row)
    ensures states[i].lease.row.activeInstance.Some? ==> states[k].lease.row.activeInstance.Some?
    ensures states[k].lease.row.active ==> !states[k].lease.CurrentRetired()
    decreases k - i
  {
    RunInv(states, events, k);
    if i < k {
      assert Steps(states, events, k - 1);
      RowShapes(states, events, i, k - 1);
      RunInv(states, events, k - 1);
      var e := events[k - 1];
      if e.Db? {
        ExecuteKeepsValid(states[k - 1].lease, e.st, e.ts);
      }
    }
  }

  /** On every reachable row the TypeScript readiness, the SQL CASE, the ownership predicate of the
      stored tuple and `runtimeLeaseCurrent` say the same, and the SQL is never NULL. */
  lemma ReadinessAgrees(states: seq<State>, events: seq<Event>, k: nat, ts: int)
    requires Run(states, events) && k < |states|
    ensures var s := states[k].lease;
            && SessionStore.ReadinessCase(s, ts) == Lift(Connected(s, ts))
            && (Leased(s.row) ==>
                  && (Connected(s, ts) <==> Owns(s, s.row.activeInstance, s.row.leaseId, ts))
                  && (Connected(s, ts) <==> Holds(SessionStore.RuntimeLeaseCurrent(s, ts)))
                  && (Connected(s, ts) <==> LeaseCurrent(s, ts)))
  {
    RunInv(states, events, k);
    SessionStore.LeaseReadersAgree(states[k].lease, ts);
    SessionStore.ReadinessSqlMatchesTypeScript(states[k].lease, ts);
  }

  /** On every reachable row, at every time: an unretired incarnation other than the current one
      can take over exactly when the session is not connected, and an anonymous replay never
      displaces a connected or in-grace runtime. */
  lemma NeitherStolenNorWedged(
      states: seq<State>, events: seq<Event>, k: nat, instance: Id, leaseId: Id, synthetic: Id, ts: int)
    requires Run(states, events) && k < |states|
    ensures var s := states[k].lease;
            instance != "" && instance !in s.retired && s.row.activeInstance != Some(instance) ==>
              (Applies(s, LiveClaim(Some(instance), leaseId), ts) <==> !Connected(s, ts))
    ensures var s := states[k].lease;
            Applies(s, ReplayClaim(None, synthetic, leaseId), ts) <==>
            && !Connected(s, ts)
            && !(s.row.active && Unmarked(s.row) && s.row.lastActiveAt > ts - GRACE_MS)
            && !s.Terminal(ReplayInstance(s.row, None, synthetic))
  {
    RunInv(states, events, k);
    if instance != "" && instance !in states[k].lease.retired {
      SessionStore.TakeoverIffDisconnected(states[k].lease, instance, leaseId, ts);
    }
    SessionStore.AnonymousReplayIffIdle(states[k].lease, synthetic, leaseId, ts);
  }

  // ---------------------------------------------------------------------------------------------
  // The message log

  lemma {:induction false} LogOnlyGrows(states: seq<State>, events: seq<Event>, i: nat, k: nat)
    requires Run(states, events) && i <= k < |states|
    ensures states[i].log <= states[k].log
    decreases k - i
  {
    if i < k {
      assert Steps(states, events, k - 1);
      LogOnlyGrows(states, events, i, k - 1);
    }
  }

  /** In every run the runtime-authored messages are legacy ones, then one contiguous block per
      incarnation (and generation), live before replay; numbers are exactly 1..n and local ids
      occur once. */
  lemma LogIsBlocks(states: seq<State>, events: seq<Event>, k: nat)
    requires Run(states, events) && k < |states|
    ensures Blocks(states[k].log)
    ensures Numbered(states[k].log, states[k].seqColumn)
    ensures UniqueLocalIds(states[k].log)
  {
    RunInv(states, events, k);
  }

  /** Nothing an incarnation produces follows its end or supersession, and nothing live follows
      its replay handshake. */
  lemma {:induction false} SilentAfterRetirement(
      states: seq<State>, events: seq<Event>, i: nat, k: nat, instance: Id)
    requires Run(states, events) && i <= k < |states|
    requires instance in states[i].lease.retired
    ensures |states[i].log| <= |states[k].log|
    ensures forall p :: |states[i].log| <= p < |states[k].log| && Producer(states[k].log[p]) == Some(instance) ==>
              states[k].log[p].author.Replay? && !states[i].lease.Terminal(instance)
    decreases k - i
  {
    if i < k {
      assert Steps(states, events, k - 1);
      SilentAfterRetirement(states, events, i, k - 1, instance);
      RetirementIsPermanent(states, events, i, k - 1, instance);
    }
  }

  /** A retry changes nothing: once a message with this local id is committed, every later request
      with that id leaves the state alone, and answers with the original message, or that the
      ciphertext differs, or that the producer is stale. */
  lemma RetryIsIdempotent(states: seq<State>, events: seq<Event>, i: nat, k: nat, p: nat, input: Input, ts: int)
    requires Run(states, events) && i <= k < |states| && p < |states[i].log|
    requires Truthy(input.localId) && states[i].log[p].localId == input.localId
    ensures Apply(states[k], Post(input, ts)) == states[k]
    ensures var original := states[i].log[p];
            var outcome := Decide(states[k].lease, states[k].log, states[k].seqColumn, input, ts);
            var same := HasCiphertext(original.content, input.ciphertext);
            && !outcome.Created?
            && (outcome.Duplicate? ==> same && outcome.original == original)
            && (outcome.IdempotencyConflict? ==> !same)
            && (outcome.Stale? ==> input.authorization.Some?
                                   && !Authorized(states[k].lease, input.authorization.value, ts))
            && !outcome.ConstraintViolation?
            && (input.authorization.None? || Authorized(states[k].lease, input.authorization.value, ts) ==>
                  (outcome.Duplicate? <==> same))
  {
    LogOnlyGrows(states, events, i, k);
    RunInv(states, events, k);
    var found := IndexOf(states[k].log, input.localId.value);
    assert states[k].log[p] == states[i].log[p];
    assert found == p;
  }

  // ---------------------------------------------------------------------------------------------
  // What claims, heartbeats, ends and sweeps amount to in a run

  /** The event is this statement, and its condition picks the row. */
  predicate Does(s: State, e: Event, st: Statement) {
    e.Db? && e.st == st && Applies(s.lease, st, e.ts)
  }

  predicate Sweeps(s: State, e: Event) {
    e.Db? && e.st.Timeout? && Applies(s.lease, e.st, e.ts)
  }

  /** The timestamp of the claim at step i, or of the last later heartbeat of that lease before k. */
  function LastBeat(states: seq<State>, events: seq<Event>, i: nat, k: nat, instance: Id, leaseId: Id): int
    requires i < k <= |events| && k < |states| && events[i].Db?
    decreases k
  {
    if k == i + 1 then events[i].ts
    else if Does(states[k - 1], events[k - 1], Renew(instance, leaseId)) then events[k - 1].ts
    else LastBeat(states, events, i, k - 1, instance, leaseId)
  }

  /** The row is this incarnation's, under this lease. */
  predicate Holding(s: Lease, instance: Id, leaseId: Id, expires: int) {
    && s.row.activeInstance == Some(instance) == s.row.leaseInstance
    && s.row.leaseId == Some(leaseId) && s.row.leaseExpires == Some(expires)
  }

  lemma StepHolds(s: State, e: Event, instance: Id, leaseId: Id, expires: int)
    requires Holding(s.lease, instance, leaseId, expires) && instance !in s.lease.retired
    requires Apply(s, e).lease.row.leaseId == Some(leaseId) && leaseId in s.used && Enabled(s, e)
    ensures instance !in Apply(s, e).lease.retired
    ensures Holding(Apply(s, e).lease, instance, leaseId,
                    if Does(s, e, Renew(instance, leaseId)) then e.ts + LEASE_MS else expires)
    ensures Apply(s, e).lease.row.active == (s.lease.row.active && !Sweeps(s, e))
  {
    if e.Db? && e.st.Renew? && Applies(s.lease, e.st, e.ts) {
      assert e.st == Renew(instance, leaseId);
    }
  }

  lemma {:induction false} LeaseHolds(states: seq<State>, events: seq<Event>, i: nat, k: nat, instance: Id, leaseId: Id)
    requires Run(states, events) && i < k < |states| && Does(states[i], events[i], LiveClaim(Some(instance), leaseId))
    requires states[k].lease.row.leaseId == Some(leaseId)
    ensures instance !in states[k].lease.retired
    ensures Holding(states[k].lease, instance, leaseId, LastBeat(states, events, i, k, instance, leaseId) + LEASE_MS)
    ensures states[k].lease.row.active <==> forall j :: i < j < k ==> !Sweeps(states[j], events[j])
    decreases k
  {
    assert Steps(states, events, k - 1) && Steps(states, events, i);
    if i + 1 < k {
      var s, e := states[k - 1], events[k - 1];
      UsedGrows(states, events, i + 1, k - 1);
      if e.Db? {
        ExecuteLeaseId(s.lease, e.st, e.ts);
      }
      LeaseHolds(states, events, i, k - 1, instance, leaseId);
      StepHolds(s, e, instance, leaseId, LastBeat(states, events, i, k - 1, instance, leaseId) + LEASE_MS);
    }
  }

  /** As long as the lease of a live claim has not been rotated, its holder owns the session, is
      connected and may write exactly until one lease duration after its last heartbeat, unless
      the sweep deactivated the row; and nobody else may. */
  lemma LeaseLivesByHeartbeats(
      states: seq<State>, events: seq<Event>, i: nat, k: nat, instance: Id, leaseId: Id, at: int,
      x: Option<Id>, l: Option<Id>, a: Authorization)
    requires Run(states, events) && i < k < |states| && Does(states[i], events[i], LiveClaim(Some(instance), leaseId))
    requires states[k].lease.row.leaseId == Some(leaseId)
    ensures var s := states[k].lease;
            var alive := at < LastBeat(states, events, i, k, instance, leaseId) + LEASE_MS
                         && forall j :: i < j < k ==> !Sweeps(states[j], events[j]);
            && (Connected(s, at) <==> alive)
            && (Owns(s, x, l, at) <==> alive && x == Some(instance) && l == Some(leaseId))
            && (Authorized(s, a, at) <==> alive && a == LeaseAuth(instance, leaseId))
  {
    LeaseHolds(states, events, i, k, instance, leaseId);
  }

  /** As long as the lease of a replay claim has not been rotated nobody is live, and its holder alone
      may write, for one lease duration that no heartbeat extends. */
  lemma {:induction false} ReplayLivesOnce(
      states: seq<State>, events: seq<Event>, i: nat, k: nat, supplied: Option<Id>, synthetic: Id, leaseId: Id, at: int)
    requires Run(states, events) && i < k < |states|
    requires Does(states[i], events[i], ReplayClaim(supplied, synthetic, leaseId))
    requires states[k].lease.row.leaseId == Some(leaseId)
    ensures states[k].lease == states[i + 1].lease
    ensures var s, replay := states[k].lease, ReplayInstance(states[i].lease.row, supplied, synthetic);
            && !Connected(s, at)
            && (forall x, l :: !Owns(s, x, l, at))
            && (forall a :: Authorized(s, a, at) <==>
                  at < events[i].ts + LEASE_MS && a == ReplayAuth(Some(replay), Some(leaseId)))
    decreases k
  {
    assert Steps(states, events, k - 1) && Steps(states, events, i);
    if i + 1 < k {
      var s, e := states[k - 1], events[k - 1];
      UsedGrows(states, events, i + 1, k - 1);
      if e.Db? {
        ExecuteLeaseId(s.lease, e.st, e.ts);
      }
      ReplayLivesOnce(states, events, i, k - 1, supplied, synthetic, leaseId, at);
      assert states[k].lease == s.lease;
    }
  }

  /** Expiry, an end, or the sweep takes effect. */
  predicate TakesAway(s: State, e: Event) {
    e.Db? && (e.st.Expire? || e.st.End? || e.st.LegacyEnd? || e.st.Timeout?) && Applies(s.lease, e.st, e.ts)
  }

  /** A claim, a legacy heartbeat, or a heartbeat or expiry under a lease no claim handed out. */
  predicate Revives(s: State, e: Event) {
    && e.Db?
    && (|| e.st.LiveClaim? || e.st.ReplayClaim? || e.st.RenewLegacy?
        || ((e.st.Renew? || e.st.Expire?) && e.st.oldLease !in s.issued))
  }

  /** Nobody acts for the session: it is inactive and nobody replays, or its lease has run out and
      was rotated to an id no socket has. */
  predicate Lapsed(s: State, since: int) {
    var l := s.lease;
    || (!l.row.active && !(l.CurrentRetired() && l.retired[l.row.activeInstance.value] == Replaying))
    || (Leased(l.row) && l.row.leaseExpires.value <= since && l.row.leaseId.value !in s.issued)
  }

  lemma StepStaysLapsed(s: State, e: Event, since: int)
    requires Inv(s) && Enabled(s, e) && Lapsed(s, since) && !Revives(s, e)
    ensures Lapsed(Apply(s, e), since)
  {
  }

  lemma StepLapses(s: State, e: Event)
    requires Inv(s) && Enabled(s, e) && TakesAway(s, e)
    ensures Lapsed(Apply(s, e), e.ts)
  {
  }

  lemma {:induction false} StaysLapsed(states: seq<State>, events: seq<Event>, i: nat, k: nat)
    requires Run(states, events) && i < k < |states| && TakesAway(states[i], events[i])
    requires forall j :: i < j < k ==> !Revives(states[j], events[j])
    ensures Lapsed(states[k], events[i].ts)
    decreases k
  {
    assert Steps(states, events, k - 1);
    var s := states[k - 1];
    RunInv(states, events, k - 1);
    if i + 1 < k {
      StaysLapsed(states, events, i, k - 1);
      StepStaysLapsed(s, events[k - 1], events[i].ts);
    } else {
      StepLapses(s, events[i]);
    }
  }

  /** After an expiry, an end or a sweep, until the next claim or legacy heartbeat, nobody is
      connected, owns the session or may write, in any mode and with any ids; heartbeats of the
      old generation change nothing; and exactly the unretired incarnations can claim it. */
  lemma EndsTakeAway(states: seq<State>, events: seq<Event>, i: nat, k: nat, at: int, instance: Id, leaseId: Id)
    requires Run(states, events) && i < k < |states| && TakesAway(states[i], events[i])
    requires forall j :: i < j < k ==> !Revives(states[j], events[j])
    requires at >= events[i].ts
    ensures var s := states[k].lease;
            && !Connected(s, at)
            && (forall x, l :: !Owns(s, x, l, at))
            && (forall a :: !Authorized(s, a, at))
            && (Applies(s, LiveClaim(Some(instance), leaseId), at) <==> instance != "" && instance !in s.retired)
    ensures events[i].st.End? ==> states[k].lease.Terminal(events[i].st.inst)
  {
    StaysLapsed(states, events, i, k);
    RunInv(states, events, k);
    assert Steps(states, events, i);
    if events[i].st.End? {
      RetirementIsPermanent(states, events, i + 1, k, events[i].st.inst);
    }
  }

  /** The incarnation was current at some earlier point of the run. */
  predicate WasCurrent(states: seq<State>, i: nat, k: nat, instance: Id) {
    i <= k < |states| && states[i].lease.row.activeInstance == Some(instance)
  }

  lemma {:induction false} OnceCurrentThenTerminal(states: seq<State>, events: seq<Event>, i: nat, k: nat, instance: Id)
    requires Run(states, events) && WasCurrent(states, i, k, instance)
    ensures states[k].lease.row.activeInstance == Some(instance) || states[k].lease.Terminal(instance)
    decreases k - i
  {
    if i < k && states[k].lease.row.activeInstance != Some(instance) {
      assert Steps(states, events, k - 1);
      if states[i + 1].lease.row.activeInstance == Some(instance) {
        OnceCurrentThenTerminal(states, events, i + 1, k, instance);
      } else {
        DisplacedIncarnationNeverReturns(states, events, i, k, instance);
      }
    }
  }

  /** A stale answer is marked retryable exactly when the producer can recover: a live producer whose
      incarnation would now win a fresh claim, or a replay producer whose incarnation would. */
  lemma RetryableIffRecoverable(
      states: seq<State>, events: seq<Event>, i: nat, k: nat, instance: Id, leaseId: Id, newLease: Id, synthetic: Id, ts: int)
    requires Run(states, events) && WasCurrent(states, i, k, instance) && instance != ""
    ensures Retryable(states[k].lease, LeaseAuth(instance, leaseId)) <==>
            Applies(states[k].lease, LiveClaim(Some(instance), newLease), ts)
    ensures instance in states[k].lease.retired ==>
              (Retryable(states[k].lease, ReplayAuth(Some(instance), Some(leaseId))) <==>
               Applies(states[k].lease, ReplayClaim(Some(instance), synthetic, newLease), ts))
    ensures !Retryable(states[k].lease, LegacyAuth)
  {
    OnceCurrentThenTerminal(states, events, i, k, instance);
  }

  // ---------------------------------------------------------------------------------------------
  // Owner-locked operations

  /** Timing outside the protocol's own control: a heartbeat commits less than `lag` after its
      timestamp, and the sweep's clock runs ahead of the database by at most `skew`. */
  predicate Timely(s: State, e: Event, skew: int, lag: int) {
    e.Db? ==>
      && (e.st.Renew? ==> e.ts > s.now - lag)
      && (e.st.Timeout? ==> e.st.cutoff <= s.now + skew - SWEEP_MS)
  }

  predicate TimelyRun(states: seq<State>, events: seq<Event>, skew: int, lag: int) {
    Run(states, events) && forall i :: 0 <= i < |events| ==> Timely(states[i], events[i], skew, lag)
  }

  /** While a modern tuple holds the owner lock, the row keeps that exact generation, active and
      unretired. */
  predicate Fenced(s: State) {
    s.lock.Held? && Truthy(s.lock.instance) ==>
      s.lock.leaseId.Some? && Generation(s.lease, s.lock.instance.value, s.lock.leaseId.value)
  }

  /** How long before the lock was taken its holder's last activity can lie. */
  function Quiet(lag: int): int {
    if lag > LEASE_MS then lag else LEASE_MS
  }

  predicate HolderFresh(s: State, lag: int) {
    s.lock.Held? && Truthy(s.lock.instance) ==>
      && s.lock.leaseId.Some?
      && s.lease.row.lastActiveAt > s.lock.since - Quiet(lag)
      && s.lock.since <= s.now <= s.lock.since + OWNER_LOCK_MS
  }

  /** The sweep's 10 minutes leave room for the lock and the quiet time before it. */
  predicate Roomy(skew: int, lag: int) {
    skew + Quiet(lag) + OWNER_LOCK_MS <= SWEEP_MS
  }

  lemma StepKeepsFence(s: State, e: Event, skew: int, lag: int)
    requires Inv(s) && Enabled(s, e) && Timely(s, e, skew, lag) && Roomy(skew, lag)
    requires Fenced(s) && HolderFresh(s, lag)
    ensures Fenced(Apply(s, e)) && HolderFresh(Apply(s, e), lag)
  {
  }

  lemma {:induction false} OwnerLockFences(states: seq<State>, events: seq<Event>, skew: int, lag: int, k: nat)
    requires TimelyRun(states, events, skew, lag) && Roomy(skew, lag) && k < |states|
    ensures Fenced(states[k]) && HolderFresh(states[k], lag)
  {
    if k > 0 {
      assert Steps(states, events, k - 1);
      OwnerLockFences(states, events, skew, lag, k - 1);
      RunInv(states, events, k - 1);
      StepKeepsFence(states[k - 1], events[k - 1], skew, lag);
    }
  }

  function Outset(now: int): State {
    State(Lease(Row(true, None, None, None, None, 0), map[]), 0, [], Free, now, {}, {})
  }

  /** A run in which the sweep's clock is so far ahead that it deactivates a locked owner. */
  lemma SweepBeatsLock(skew: int, lag: int) returns (states: seq<State>, events: seq<Event>)
    requires skew + LEASE_MS + OWNER_LOCK_MS > SWEEP_MS
    ensures TimelyRun(states, events, skew, lag) && |states| == 6 && !Fenced(states[5])
  {
    events := [
      Db(LiveClaim(Some("a"), "l"), 1),
      Tick(240_000),
      Acquire(Some("a"), Some("l"), 240_000),
      Tick(280_000),
      Db(Timeout(1), 280_000)];
    var s0 := Outset(1);
    var s1 := Apply(s0, events[0]);
    var s2 := Apply(s1, events[1]);
    var s3 := Apply(s2, events[2]);
    var s4 := Apply(s3, events[3]);
    var s5 := Apply(s4, events[4]);
    states := [s0, s1, s2, s3, s4, s5];
    assert "l" in s1.issued;
    assert Owns(s2.lease, Some("a"), Some("l"), 240_000);
    assert !s5.lease.row.active && s5.lock == Held(Some("a"), Some("l"), 240_000);
  }

  /** A run in which a heartbeat delayed by `lag` drags the activity back under the lock. */
  lemma StaleHeartbeatBeatsLock(skew: int, lag: int) returns (states: seq<State>, events: seq<Event>)
    requires lag > LEASE_MS && skew + lag + OWNER_LOCK_MS > SWEEP_MS
    ensures TimelyRun(states, events, skew, lag) && |states| == 6 && !Fenced(states[5])
  {
    events := [
      Db(LiveClaim(Some("a"), "l"), 0),
      Acquire(Some("a"), Some("l"), 0),
      Db(Renew("a", "l"), 1 - lag),
      Tick(40_000),
      Db(Timeout(1 - lag), 0)];
    var s0 := Outset(0);
    var s1 := Apply(s0, events[0]);
    var s2 := Apply(s1, events[1]);
    var s3 := Apply(s2, events[2]);
    var s4 := Apply(s3, events[3]);
    var s5 := Apply(s4, events[4]);
    states := [s0, s1, s2, s3, s4, s5];
    assert "l" in s1.issued;
    assert Owns(s1.lease, Some("a"), Some("l"), 0);
    assert s3.lease.row.lastActiveAt == 1 - lag;
    assert !s5.lease.row.active && s5.lock == Held(Some("a"), Some("l"), 0);
  }

  /** The owner lock fences every operation in every run exactly when application clock skew, the
      longer of lease and heartbeat delay, and the 40 s lock fit into the 600 s of the sweep. With
      heartbeats that take at most four minutes that is a skew of at most 320 s. */
  lemma OwnerLockFencesIffRoomy(skew: int, lag: int)
    ensures Roomy(skew, lag) <==>
            forall states, events, k: nat :: TimelyRun(states, events, skew, lag) && k < |states| ==> Fenced(states[k])
    ensures lag <= LEASE_MS ==> (Roomy(skew, lag) <==> skew <= 320_000)
  {
    if Roomy(skew, lag) {
      forall states, events, k: nat | TimelyRun(states, events, skew, lag) && k < |states|
        ensures Fenced(states[k])
      {
        OwnerLockFences(states, events, skew, lag, k);
      }
    } else if lag > LEASE_MS {
      var states, events := StaleHeartbeatBeatsLock(skew, lag);
      assert TimelyRun(states, events, skew, lag) && !Fenced(states[5]);
    } else {
      var states, events := SweepBeatsLock(skew, lag);
      assert TimelyRun(states, events, skew, lag) && !Fenced(states[5]);
    }
  }
}
