/** What dispatcher workers do: their phase is their last step, they hold exactly what they won, and a
    worker that is left alone delivers what it selected. */
module OutboxWorkers {
  import opened Sql
  import opened Outbox

  // ---------------------------------------------------------------------------------------------
  // Phases

  /** The worker a step is one of. */
  function Actor(e: Event): Option<WorkerId> {
    match e
    case Insert(_, _, _, _) => None
    case Cleanup(_) => None
    case Select(w, _, _, _) => Some(w)
    case ClaimRow(w, _) => Some(w)
    case ReadBack(w) => Some(w)
    case Deliver(w) => Some(w)
    case Publish(w, _) => Some(w)
    case MarkDelivered(w, _, _, _) => Some(w)
    case MarkFailed(w, _) => Some(w)
    case Crash(w) => Some(w)
  }

  function LastOf(events: seq<Event>, k: nat, w: WorkerId): Option<Event>
    requires k <= |events|
  {
    if k == 0 then None else if Actor(events[k - 1]) == Some(w) then Some(events[k - 1]) else LastOf(events, k - 1, w)
  }

  lemma StepPhase(s: State, e: Event, w: WorkerId)
    requires Enabled(s, e)
    ensures Actor(e) != Some(w) ==> At(Apply(s, e), w) == At(s, w)
    ensures Actor(e) == Some(w) ==>
              var p := At(Apply(s, e), w);
              && (p.Idle? <==> e.Crash?)
              && (p.Reading? ==> e.ClaimRow?)
              && (p.Marking? <==> e.Publish? && e.ok)
              && (p.Failing? <==> (e.Publish? && !e.ok) || (e.MarkDelivered? && !e.ok))
              && (p.Delivering? <==> e.Deliver? || (e.MarkDelivered? && e.ok) || e.MarkFailed?)
  {
  }

  /** A worker is idle before its first step and after a crash; it marks a row delivered only right after
      publishing it, and failed only right after a publish or a mark failed; and otherwise it goes
      on with the next row. */
  lemma {:induction false} PhaseIsLastStep(states: seq<State>, events: seq<Event>, k: nat, w: WorkerId)
    requires Run(states, events) && k < |states|
    ensures var p, last := At(states[k], w), LastOf(events, k, w);
            && (p.Idle? <==> last.None? || last.value.Crash?)
            && (p.Reading? ==> last.Some? && last.value.ClaimRow?)
            && (p.Marking? <==> last.Some? && last.value.Publish? && last.value.ok)
            && (p.Failing? <==> last.Some? && ((last.value.Publish? && !last.value.ok) || (last.value.MarkDelivered? && !last.value.ok)))
            && (p.Delivering? <==> last.Some? && (last.value.Deliver? || (last.value.MarkDelivered? && last.value.ok) || last.value.MarkFailed?))
  {
    if k > 0 {
      assert Steps(states, events, k - 1);
      PhaseIsLastStep(states, events, k - 1, w);
      StepPhase(states[k - 1], events[k - 1], w);
    }
  }

  function LastSelect(events: seq<Event>, k: nat, w: WorkerId): Option<Event>
    requires k <= |events|
  {
    if k == 0 then None
    else if events[k - 1].Select? && events[k - 1].w == w then Some(events[k - 1])
    else LastSelect(events, k - 1, w)
  }

  /** The batch of a claiming worker is its latest selection: with the readings it selected with it goes
      through the rows it found, in their order. */
  predicate FromSelection(p: Worker, selected: Option<Event>) {
    p.Claiming? || p.Reading? ==>
      && selected.Some? && selected.value.Select?
      && p.now == selected.value.now && p.leaseMs == selected.value.leaseMs
      && |p.candidates| <= |selected.value.found|
      && p.candidates == selected.value.found[|selected.value.found| - |p.candidates|..]
  }

  lemma StepSelects(s: State, e: Event, w: WorkerId, selected: Option<Event>)
    requires Enabled(s, e) && FromSelection(At(s, w), selected)
    ensures FromSelection(At(Apply(s, e), w), if e.Select? && e.w == w then Some(e) else selected)
    ensures e.Select? && e.w == w ==> At(Apply(s, e), w) == Claiming(e.now, e.leaseMs, e.found, [])
  {
  }

  lemma {:induction false} BatchIsSelected(states: seq<State>, events: seq<Event>, k: nat, w: WorkerId)
    requires Run(states, events) && k < |states|
    ensures FromSelection(At(states[k], w), LastSelect(events, k, w))
    ensures k < |events| && events[k].Select? && events[k].w == w ==>
              At(states[k + 1], w) == Claiming(events[k].now, events[k].leaseMs, events[k].found, [])
  {
    if k > 0 {
      assert Steps(states, events, k - 1);
      BatchIsSelected(states, events, k - 1, w);
      StepSelects(states[k - 1], events[k - 1], w, LastSelect(events, k - 1, w));
    }
    assert k < |events| ==> Steps(states, events, k);
  }

  // ---------------------------------------------------------------------------------------------
  // Claims held

  function Held(w: Worker): seq<Claim> {
    match w
    case Idle => []
    case Claiming(_, _, _, claimed) => claimed
    case Reading(_, _, _, claimed, _) => claimed
    case Delivering(todo) => todo
    case Marking(todo) => todo
    case Failing(todo) => todo
  }

  /** The worker reads back the row it claimed, and the row carries its token. */
  predicate Confirms(s: State, e: Event, w: WorkerId, c: Claim) {
    && e == ReadBack(w) && At(s, w).Reading? && At(s, w).candidates != []
    && At(s, w).candidates[0] == c.id && At(s, w).token == c.token
    && c.id in s.rows && s.rows[c.id].claimToken == Some(c.token)
  }

  lemma StepHolds(s: State, e: Event, w: WorkerId, c: Claim)
    requires Enabled(s, e) && c in Held(At(Apply(s, e), w))
    ensures c in Held(At(s, w)) || Confirms(s, e, w, c)
  {
  }

  /** A worker publishes and marks only rows that it read back under its own token. */
  lemma {:induction false} HeldWasConfirmed(states: seq<State>, events: seq<Event>, k: nat, w: WorkerId, c: Claim) returns (j: nat)
    requires Run(states, events) && k < |states| && c in Held(At(states[k], w))
    ensures j < k && Confirms(states[j], events[j], w, c)
  {
    assert Steps(states, events, k - 1);
    if Confirms(states[k - 1], events[k - 1], w, c) {
      j := k - 1;
    } else {
      StepHolds(states[k - 1], events[k - 1], w, c);
      j := HeldWasConfirmed(states, events, k - 1, w, c);
    }
  }

  // ---------------------------------------------------------------------------------------------
  // Progress

  /** The steps a worker has left. */
  function Left(w: Worker): nat {
    match w
    case Idle => 0
    case Claiming(_, _, candidates, claimed) => 5 * |candidates| + 3 * |claimed| + 1
    case Reading(_, _, candidates, claimed, _) => if candidates == [] then 0 else 5 * |candidates| + 3 * |claimed|
    case Delivering(todo) => 3 * |todo|
    case Marking(todo) => if todo == [] then 0 else 3 * |todo| - 1
    case Failing(todo) => if todo == [] then 0 else 3 * |todo| - 2
  }

  /** A worker never stands before an empty list it needs. */
  predicate WellFormed(w: Worker) {
    && (w.Reading? ==> w.candidates != [])
    && (w.Marking? || w.Failing? ==> w.todo != [])
  }

  lemma StepWellFormed(s: State, e: Event, w: WorkerId)
    requires Enabled(s, e) && WellFormed(At(s, w))
    ensures WellFormed(At(Apply(s, e), w))
  {
  }

  lemma {:induction false} RunWellFormed(states: seq<State>, events: seq<Event>, k: nat, w: WorkerId)
    requires Run(states, events) && k < |states|
    ensures WellFormed(At(states[k], w))
  {
    if k > 0 {
      assert Steps(states, events, k - 1);
      RunWellFormed(states, events, k - 1, w);
      StepWellFormed(states[k - 1], events[k - 1], w);
    }
  }

  /** What the worker can still deliver: the rows whose claims it holds and that are still its own, the
      row it is about to read back, and the candidates still pending at its reading. */
  predicate Expects(s: State, w: Worker, id: RowId) {
    && id in s.rows && s.rows[id].deliveredAt.None?
    && (|| (s.rows[id].claimToken.Some? && Claim(id, s.rows[id].claimToken.value) in Held(w) && !w.Failing?)
        || (w.Failing? && w.todo != [] && s.rows[id].claimToken.Some? && id != w.todo[0].id
            && Claim(id, s.rows[id].claimToken.value) in w.todo[1..])
        || (w.Reading? && w.candidates != [] && id == w.candidates[0] && s.rows[id].claimToken == Some(w.token))
        || (w.Claiming? && id in w.candidates && Pending(s.rows[id], w.now, w.leaseMs))
        || (w.Reading? && w.candidates != [] && id in w.candidates[1..] && Pending(s.rows[id], w.now, w.leaseMs)))
  }

  /** The worker's next step if nothing fails. */
  function Next(p: Worker, w: WorkerId, token: Id, at: int): Event
    requires Left(p) > 0
  {
    match p
    case Claiming(_, _, candidates, _) => if candidates == [] then Deliver(w) else ClaimRow(w, token)
    case Reading(_, _, _, _, _) => ReadBack(w)
    case Delivering(_) => Publish(w, true)
    case Marking(_) => MarkDelivered(w, at, true, true)
    case Failing(_) => MarkFailed(w, at)
  }

  predicate Ahead(s: State, n: State, w: WorkerId) {
    Left(At(n, w)) < Left(At(s, w)) && s.delivered <= n.delivered
  }

  /** A row the worker expects is delivered by the step or still expected after it. */
  predicate Keeps(s: State, n: State, w: WorkerId, id: RowId) {
    Expects(s, At(s, w), id) ==> id in n.delivered || Expects(n, At(n, w), id)
  }

  lemma ClaimAhead(s: State, w: WorkerId, token: Id, id: RowId)
    requires At(s, w).Claiming? && At(s, w).candidates != [] && token !in s.tokens
    ensures var n := Apply(s, ClaimRow(w, token)); Ahead(s, n, w) && Keeps(s, n, w, id)
  {
  }

  lemma ReadAhead(s: State, w: WorkerId, id: RowId)
    requires At(s, w).Reading? && At(s, w).candidates != []
    ensures var n := Apply(s, ReadBack(w)); Ahead(s, n, w) && Keeps(s, n, w, id)
  {
  }

  lemma SendAhead(s: State, w: WorkerId, token: Id, at: int, id: RowId)
    requires WellFormed(At(s, w)) && Left(At(s, w)) > 0 && !At(s, w).Reading?
    requires At(s, w).Claiming? ==> At(s, w).candidates == []
    ensures var e := Next(At(s, w), w, token, at);
            Enabled(s, e) && Ahead(s, Apply(s, e), w) && Keeps(s, Apply(s, e), w, id)
  {
  }

  lemma StepsAhead(s: State, w: WorkerId, token: Id, at: int, id: RowId)
    requires WellFormed(At(s, w)) && Left(At(s, w)) > 0 && token !in s.tokens
    ensures var e := Next(At(s, w), w, token, at);
            Enabled(s, e) && Ahead(s, Apply(s, e), w) && Keeps(s, Apply(s, e), w, id)
  {
    var p := At(s, w);
    if p.Claiming? && p.candidates != [] {
      ClaimAhead(s, w, token, id);
    } else if p.Reading? {
      ReadAhead(s, w, id);
    } else {
      SendAhead(s, w, token, at, id);
    }
  }

  lemma LongerThanAll(used: set<Id>) returns (token: Id)
    ensures token !in used
  {
    var rest, longest: nat := used, 0;
    while rest != {}
      invariant rest <= used && forall id :: id in used && id !in rest ==> |id| <= longest
    {
      var id :| id in rest;
      rest, longest := rest - {id}, if |id| > longest then |id| else longest;
    }
    token := seq(longest + 1, _ => 'x');
  }

  /** A run may go on with any enabled event. */
  lemma Resume(states: seq<State>, events: seq<Event>, e: Event) returns (more: seq<State>, rest: seq<Event>)
    requires Run(states, events) && Enabled(states[|events|], e)
    ensures Run(more, rest) && rest == events + [e] && more[|rest|] == Apply(states[|events|], e)
  {
    more, rest := states + [Apply(states[|events|], e)], events + [e];
    forall i: nat | i < |rest| ensures Steps(more, rest, i) {
      assert i < |events| ==> Steps(states, events, i);
    }
  }

  /** From every reachable state a worker can go on alone to the end of its batch, and has then delivered
      every row whose claim was still its own and every candidate that was still pending. */
  lemma {:induction false} WorkerCanFinish(states: seq<State>, events: seq<Event>, w: WorkerId, at: int)
    returns (more: seq<State>, rest: seq<Event>)
    requires Run(states, events)
    ensures Run(more, rest) && events <= rest && Left(At(more[|rest|], w)) == 0
    ensures states[|events|].delivered <= more[|rest|].delivered
    ensures forall id :: Expects(states[|events|], At(states[|events|], w), id) ==> id in more[|rest|].delivered
    decreases Left(At(states[|events|], w))
  {
    var s := states[|events|];
    RunWellFormed(states, events, |events|, w);
    if Left(At(s, w)) == 0 {
      more, rest := states, events;
    } else {
      var token := LongerThanAll(s.tokens);
      StepsAhead(s, w, token, at, 0);
      var n := Apply(s, Next(At(s, w), w, token, at));
      forall id ensures Keeps(s, n, w, id) {
        StepsAhead(s, w, token, at, id);
      }
      more, rest := Resume(states, events, Next(At(s, w), w, token, at));
      more, rest := WorkerCanFinish(more, rest, w, at);
    }
  }
}
