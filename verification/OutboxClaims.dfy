/** What the columns of an outbox row tell about its past, and that a claim keeps other workers out. */
module OutboxClaims {
  import opened Sql
  import opened Outbox

  /** The claim of the worker's next candidate takes effect: the row carries the new token. */
  predicate Wins(s: State, n: State, e: Event, id: RowId) {
    e.ClaimRow? && id in n.rows && n.rows[id].claimToken == Some(e.token) && e.token !in s.tokens
  }

  /** The readings a worker claims with. */
  function Reading(s: State, w: WorkerId): int {
    if At(s, w).Claiming? then At(s, w).now else 0
  }

  function LeaseOf(s: State, w: WorkerId): int {
    if At(s, w).Claiming? then At(s, w).leaseMs else 0
  }

  /** A mark of the row takes effect. */
  predicate Fails(s: State, e: Event, id: RowId) {
    e.MarkFailed? && At(s, e.w).Failing? && At(s, e.w).todo != [] && At(s, e.w).todo[0].id == id && StillMine(s, At(s, e.w).todo[0])
  }

  predicate Delivers(s: State, e: Event, id: RowId) {
    && e.MarkDelivered? && e.applied && At(s, e.w).Marking? && At(s, e.w).todo != [] && At(s, e.w).todo[0].id == id
    && StillMine(s, At(s, e.w).todo[0])
  }

  // ---------------------------------------------------------------------------------------------
  // The past of a row, from the events alone

  function Claims(states: seq<State>, events: seq<Event>, k: nat, id: RowId): nat
    requires k <= |events| && k < |states|
  {
    if k == 0 then 0 else Claims(states, events, k - 1, id) + if Wins(states[k - 1], states[k], events[k - 1], id) then 1 else 0
  }

  /** The reading of the latest claim, unless it was given up by a mark since. */
  function OpenClaim(states: seq<State>, events: seq<Event>, k: nat, id: RowId): Option<int>
    requires k <= |events| && k < |states|
  {
    if k == 0 then None
    else
      var s, e := states[k - 1], events[k - 1];
      if Wins(s, states[k], e, id) then Some(Reading(s, e.w))
      else if Fails(s, e, id) || Delivers(s, e, id) then None
      else OpenClaim(states, events, k - 1, id)
  }

  function OpenToken(states: seq<State>, events: seq<Event>, k: nat, id: RowId): Option<Id>
    requires k <= |events| && k < |states|
  {
    if k == 0 then None
    else
      var s, e := states[k - 1], events[k - 1];
      if Wins(s, states[k], e, id) then Some(e.token)
      else if Fails(s, e, id) || Delivers(s, e, id) then None
      else OpenToken(states, events, k - 1, id)
  }

  /** When the row is due: at its creation, or after its latest failure. */
  function DueAt(states: seq<State>, events: seq<Event>, k: nat, id: RowId): Option<int>
    requires k <= |events| && k < |states|
  {
    if k == 0 then None
    else
      var s, e := states[k - 1], events[k - 1];
      if e.Insert? && e.id == id then Some(e.createdAt)
      else if Fails(s, e, id) then Some(e.retryAt)
      else DueAt(states, events, k - 1, id)
  }

  function DeliveryAt(states: seq<State>, events: seq<Event>, k: nat, id: RowId): Option<int>
    requires k <= |events| && k < |states|
  {
    if k == 0 then None
    else
      var s, e := states[k - 1], events[k - 1];
      if Delivers(s, e, id) then Some(e.at) else DeliveryAt(states, events, k - 1, id)
  }

  /** Every token a row carries was minted. */
  predicate TokensUsed(s: State) {
    forall id :: id in s.rows && s.rows[id].claimToken.Some? ==> s.rows[id].claimToken.value in s.tokens
  }

  /** A step's effect on one row, by what it does to it. */
  lemma StepRow(s: State, e: Event, id: RowId)
    requires Enabled(s, e) && TokensUsed(s) && id in Apply(s, e).rows
    ensures var n, r := Apply(s, e), Apply(s, e).rows[id];
            if e.Insert? && e.id == id then
              r.nextAttemptAt == e.createdAt && r.claimedAt.None? && r.claimToken.None? && r.deliveredAt.None? && r.attempts == 0
            else
              && id in s.rows && r.session == s.rows[id].session && r.number == s.rows[id].number && r.createdAt == s.rows[id].createdAt
              && r.attempts == s.rows[id].attempts + (if Wins(s, n, e, id) then 1 else 0)
              && r.claimedAt == (if Wins(s, n, e, id) then Some(Reading(s, e.w))
                                 else if Fails(s, e, id) || Delivers(s, e, id) then None else s.rows[id].claimedAt)
              && r.claimToken == (if Wins(s, n, e, id) then Some(e.token)
                                  else if Fails(s, e, id) || Delivers(s, e, id) then None else s.rows[id].claimToken)
              && r.nextAttemptAt == (if Fails(s, e, id) then e.retryAt else s.rows[id].nextAttemptAt)
              && r.deliveredAt == (if Delivers(s, e, id) then Some(e.at) else s.rows[id].deliveredAt)
  {
  }

  lemma StepAbsent(s: State, e: Event, id: RowId)
    requires Enabled(s, e) && Table(s) && id !in Apply(s, e).inserted
    ensures id !in s.inserted && id !in Apply(s, e).rows
    ensures !Wins(s, Apply(s, e), e, id) && !Fails(s, e, id) && !Delivers(s, e, id)
  {
  }

  lemma {:induction false} NothingBeforeInsert(states: seq<State>, events: seq<Event>, k: nat, id: RowId)
    requires Run(states, events) && k < |states| && id !in states[k].inserted
    ensures id !in states[k].rows && Claims(states, events, k, id) == 0
    ensures OpenClaim(states, events, k, id).None? && OpenToken(states, events, k, id).None?
    ensures DeliveryAt(states, events, k, id).None?
  {
    if k > 0 {
      assert Steps(states, events, k - 1);
      RunInv(states, events, k - 1);
      StepAbsent(states[k - 1], events[k - 1], id);
      NothingBeforeInsert(states, events, k - 1, id);
    }
  }

  lemma {:induction false} RunTokens(states: seq<State>, events: seq<Event>, k: nat)
    requires Run(states, events) && k < |states|
    ensures TokensUsed(states[k])
  {
    forall id | id in states[k].rows && states[k].rows[id].claimToken.Some?
      ensures states[k].rows[id].claimToken.value in states[k].tokens
    {
      TokensAreUsed(states, events, k, id);
    }
  }

  /** The columns of a row are its past: how often it was claimed, reading and token of a claim still open,
      when it is due, and when it was marked delivered. */
  lemma {:induction false} RowTellsItsPast(states: seq<State>, events: seq<Event>, k: nat, id: RowId)
    requires Run(states, events) && k < |states| && id in states[k].rows
    ensures var r := states[k].rows[id];
            && r.attempts == Claims(states, events, k, id)
            && r.claimedAt == OpenClaim(states, events, k, id) && r.claimToken == OpenToken(states, events, k, id)
            && Some(r.nextAttemptAt) == DueAt(states, events, k, id)
            && r.deliveredAt == DeliveryAt(states, events, k, id)
  {
    assert Steps(states, events, k - 1);
    var s, e := states[k - 1], events[k - 1];
    RunTokens(states, events, k - 1);
    StepRow(s, e, id);
    if e.Insert? && e.id == id {
      NothingBeforeInsert(states, events, k - 1, id);
    } else {
      RowTellsItsPast(states, events, k - 1, id);
    }
  }

  // ---------------------------------------------------------------------------------------------
  // Claims keep others out, deliveries are kept

  /** A worker's claim of its next candidate takes effect exactly if the row is still there and
      undelivered, is due, and no claim of it is open or the open one has outlived the lease. */
  lemma ClaimIff(states: seq<State>, events: seq<Event>, k: nat, id: RowId)
    requires Run(states, events) && k < |events| && Enabled(states[k], events[k]) && events[k].ClaimRow?
    requires id == states[k].workers[events[k].w].candidates[0]
    ensures var now, lease := Reading(states[k], events[k].w), LeaseOf(states[k], events[k].w);
            var open, due := OpenClaim(states, events, k, id), DueAt(states, events, k, id);
            Wins(states[k], states[k + 1], events[k], id) <==>
            && id in states[k].rows && DeliveryAt(states, events, k, id).None?
            && due.Some? && due.value <= now
            && (open.Some? ==> open.value < now - lease)
  {
    assert Steps(states, events, k);
    RunTokens(states, events, k);
    if id in states[k].rows {
      RowTellsItsPast(states, events, k, id);
    }
  }

  /** A claim that takes effect is of the worker's next candidate. */
  lemma WinsItsCandidate(states: seq<State>, events: seq<Event>, k: nat, id: RowId)
    requires Run(states, events) && k < |events| && Wins(states[k], states[k + 1], events[k], id)
    ensures Enabled(states[k], events[k]) && id == states[k].workers[events[k].w].candidates[0]
  {
    assert Steps(states, events, k);
    RunTokens(states, events, k);
  }

  predicate NoLeaseNegative(events: seq<Event>) {
    forall i :: 0 <= i < |events| && events[i].Select? ==> events[i].leaseMs >= 0
  }

  lemma {:induction false} LeasesStay(states: seq<State>, events: seq<Event>, k: nat, w: WorkerId)
    requires Run(states, events) && NoLeaseNegative(events) && k < |states|
    ensures (At(states[k], w).Claiming? || At(states[k], w).Reading?) ==> At(states[k], w).leaseMs >= 0
  {
    if k > 0 {
      assert Steps(states, events, k - 1);
      LeasesStay(states, events, k - 1, w);
    }
  }

  lemma {:induction false} DeliveredStays(states: seq<State>, events: seq<Event>, i: nat, k: nat, id: RowId)
    requires Run(states, events) && i <= k < |states|
    ensures DeliveryAt(states, events, i, id).Some? ==> DeliveryAt(states, events, k, id).Some?
    decreases k
  {
    if i < k {
      DeliveredStays(states, events, i, k - 1, id);
    }
  }

  /** A claim stays open, or a later one does, until the row fails or is delivered. */
  lemma {:induction false} StaysOpen(states: seq<State>, events: seq<Event>, i: nat, k: nat, id: RowId)
    requires Run(states, events) && NoLeaseNegative(events) && i < k < |states|
    requires Wins(states[i], states[i + 1], events[i], id) && DeliveryAt(states, events, k, id).None?
    requires forall x :: i < x < k ==> !Fails(states[x], events[x], id)
    ensures OpenClaim(states, events, k, id).Some?
    ensures OpenClaim(states, events, k, id).value >= Reading(states[i], events[i].w)
    decreases k
  {
    if i < k - 1 {
      var s, e := states[k - 1], events[k - 1];
      DeliveredStays(states, events, k - 1, k, id);
      StaysOpen(states, events, i, k - 1, id);
      if Wins(s, states[k], e, id) {
        WinsItsCandidate(states, events, k - 1, id);
        ClaimIff(states, events, k - 1, id);
        LeasesStay(states, events, k - 1, e.w);
      }
    }
  }

  /** Two claims of one row, without a failure of it in between, are further apart than the later
      one's lease: until then every other worker is kept out. */
  lemma ClaimsExclude(states: seq<State>, events: seq<Event>, i: nat, j: nat, id: RowId)
    requires Run(states, events) && NoLeaseNegative(events) && i < j < |events|
    requires Wins(states[i], states[i + 1], events[i], id) && Wins(states[j], states[j + 1], events[j], id)
    requires forall x :: i < x < j ==> !Fails(states[x], events[x], id)
    ensures Reading(states[j], events[j].w) - LeaseOf(states[j], events[j].w) > Reading(states[i], events[i].w)
  {
    WinsItsCandidate(states, events, j, id);
    ClaimIff(states, events, j, id);
    StaysOpen(states, events, i, j, id);
  }

  /** A row leaves the table exactly when a clean-up finds it marked delivered before its cutoff. */
  lemma RetentionIff(states: seq<State>, events: seq<Event>, k: nat, id: RowId)
    requires Run(states, events) && k < |events| && id in states[k].rows
    ensures id !in states[k + 1].rows <==>
            && events[k].Cleanup?
            && DeliveryAt(states, events, k, id).Some? && DeliveryAt(states, events, k, id).value < events[k].before
  {
    assert Steps(states, events, k);
    RowTellsItsPast(states, events, k, id);
  }
}
