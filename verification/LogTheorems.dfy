/** What requests make of the log: every message is the one some request asked for, and every request
    gets the answer it is due. */
module LogTheorems {
  import opened Sql
  import opened Lease
  import opened MessageLog
  import opened SessionRuns
  import opened SessionTheorems

  /** The request's authorisation, if it needs one, is granted. */
  predicate Passes(s: Lease, input: Input, ts: int) {
    input.authorization.Some? ==> Authorized(s, input.authorization.value, ts)
  }

  /** A message carries this request: its id, its ciphertext and the identity it was sent under. */
  predicate Carries(m: Message, input: Input) {
    && m.localId == input.localId && m.content == Encrypted(input.ciphertext)
    && match input.authorization
       case None => m.author == User
       case Some(LegacyAuth) => m.author == Legacy
       case Some(LeaseAuth(instance, lease)) => m.author == Live(instance, lease)
       case Some(ReplayAuth(instance, lease)) => instance.Some? && lease.Some? && m.author == Replay(instance.value, lease.value)
  }

  /** No message has the id. */
  predicate Fresh(log: seq<Message>, localId: Option<Id>) {
    localId.Some? ==> forall p :: 0 <= p < |log| ==> log[p].localId != localId
  }

  /** A request is committed exactly when it passes and its id is new; then the log ends in exactly this
      request under the next number, and otherwise nothing changes. */
  lemma CommittedIff(states: seq<State>, events: seq<Event>, k: nat, input: Input, ts: int)
    requires Run(states, events) && k < |states|
    ensures var s, n := states[k], Apply(states[k], Post(input, ts));
            if Passes(s.lease, input, ts) && Fresh(s.log, input.localId)
            then |n.log| == |s.log| + 1 && s.log <= n.log && Carries(n.log[|s.log|], input)
                 && n.log[|s.log|].number == |n.log| == n.seqColumn
                 && Decide(s.lease, s.log, s.seqColumn, input, ts) == Created(n.log[|s.log|])
            else n == s && !Decide(s.lease, s.log, s.seqColumn, input, ts).Created?
  {
    RunInv(states, events, k);
    var s := states[k];
    if input.localId.Some? {
      var found := IndexOf(s.log, input.localId.value);
      assert found < |s.log| <==> !Fresh(s.log, input.localId);
    }
  }

  /** Every message beyond the initial ones was put there by one request, which it carries. */
  lemma {:induction false} EveryMessageWasRequested(states: seq<State>, events: seq<Event>, k: nat, p: nat) returns (i: nat)
    requires Run(states, events) && k < |states| && |states[0].log| <= p < |states[k].log|
    ensures i < k && |states[i].log| == p && events[i].Post? && Passes(states[i].lease, events[i].input, events[i].postTs)
    ensures Carries(states[k].log[p], events[i].input)
  {
    assert Steps(states, events, k - 1);
    var s, e := states[k - 1], events[k - 1];
    if p < |s.log| {
      LogOnlyGrows(states, events, k - 1, k);
      i := EveryMessageWasRequested(states, events, k - 1, p);
    } else {
      assert e.Post?;
      CommittedIff(states, events, k - 1, e.input, e.postTs);
      i := k - 1;
    }
  }

  /** Step i commits the request. */
  predicate Commits(states: seq<State>, events: seq<Event>, i: nat, input: Input) {
    i < |events| && i + 1 < |states| && events[i].Post? && events[i].input == input && |states[i].log| < |states[i + 1].log|
  }

  /** Once a request with a local id has been committed, every later request with that id changes
      nothing. If it has the same ciphertext it gets exactly that message back, or, unless it is a
      replay, that its producer is stale; if not, that it conflicts or is stale. */
  lemma RetriesGetTheOriginal(states: seq<State>, events: seq<Event>, i: nat, k: nat, first: Input, input: Input, ts: int)
    requires Run(states, events) && i < k < |states| && Commits(states, events, i, first)
    requires Truthy(input.localId) && input.localId == first.localId
    ensures Apply(states[k], Post(input, ts)) == states[k]
    ensures var s := states[k];
            var original := states[i + 1].log[|states[i].log|];
            var passes := Passes(s.lease, input, ts);
            && Carries(original, first)
            && Decide(s.lease, s.log, s.seqColumn, input, ts) ==
                 if input.ciphertext == first.ciphertext && (passes || input.authorization.value.ReplayAuth?) then Duplicate(original)
                 else if !passes then Stale(Retryable(s.lease, input.authorization.value))
                 else IdempotencyConflict
  {
    assert Steps(states, events, i);
    CommittedIff(states, events, i, events[i].input, events[i].postTs);
    var p := |states[i].log|;
    LogOnlyGrows(states, events, i + 1, k);
    RunInv(states, events, k);
    var s := states[k];
    assert s.log[p] == states[i + 1].log[p];
    var found := IndexOf(s.log, input.localId.value);
    assert found == p;
    CommittedIff(states, events, k, input, ts);
  }
}
