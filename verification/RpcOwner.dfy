/** The registration lifecycle of a runtime socket composed with the runs of its session: register and
    refresh run inside a transaction that holds the session's owner lock. */
module RpcOwner {
  import opened Sql
  import opened Lease
  import S = SessionRuns
  import T = SessionTheorems
  import R = RpcLifecycle
  import G = RpcRegistry

  /** Where the socket's owner transaction is: none open, open and holding the lock, or still open for
      the client after the database gave the lock up. */
  datatype Fence = Out | In | Lost

  datatype State = State(session: S.State, rpc: R.State, instance: Option<Id>, leaseId: Option<Id>, fence: Fence)

  datatype Event =
    | Session(work: S.Event)    // claims, ends, heartbeats, sweeps, other owner-locked operations
    | Rpc(step: R.Event)
    | Enter(since: int)         // try the lock and check the ownership
    | Lose                      // the transaction is aborted under the running operation

  /** The last step inside the transaction. */
  predicate Leaves(step: R.Event) {
    || (step.Attempted? && (step.attempt.Throws? || step.attempt.ThrowsInDoubt? || step.attempt == R.SetAnswered(false)
                            || step.attempt.FenceCommitted?))
    || (step.Answered? && step.answer.Refreshed?)
  }

  /** A command that stores targets is sent inside a transaction, and success needs its commit. */
  predicate Fits(f: Fence, step: R.Event) {
    match step
    case Attempted(a) =>
      (match a
       case NotOwner => false
       case OwnerBusy => f.Out?
       case SetApplied(_) => !f.Out?
       case ThrowsInDoubt(_) => !f.Out?
       case FenceCommitted(ok) => ok ==> f.In?
       case _ => true)
    case Answered(a) =>
      (match a
       case RefreshNotOwner => false
       case RefreshBusy => f.Out?
       case Refreshed(applied, ok) => (applied ==> !f.Out?) && (ok ==> f.In?)
       case _ => true)
    case _ => true
  }

  predicate Enabled(s: State, e: Event) {
    match e
    case Session(work) => S.Enabled(s.session, work) && (work.Release? ==> !s.fence.In?)
    case Rpc(step) => R.Enabled(s.rpc, step) && Fits(s.fence, step)
    case Enter(since) =>
      && s.fence.Out? && (s.rpc.running.Attempting? || s.rpc.running.Refreshing?)
      && S.Enabled(s.session, S.Acquire(s.instance, s.leaseId, since))
    case Lose => s.fence.In?
  }

  /** What the step is for the session; `Tick` to the same time is no change. */
  function SessionStep(s: State, e: Event): S.Event {
    match e
    case Session(work) => work
    case Rpc(step) => if Leaves(step) && s.fence.In? then S.Release else S.Tick(s.session.now)
    case Enter(since) => S.Acquire(s.instance, s.leaseId, since)
    case Lose => S.Release
  }

  /** ... and for the lifecycle; a `World` that changes nothing is no change. */
  function RpcStep(s: State, e: Event): R.Event {
    match e
    case Rpc(step) => step
    case Enter(since) =>
      if Owns(s.session.lease, s.instance, s.leaseId, since) then R.World(s.rpc.store)
      else if s.rpc.running.Attempting? then R.Attempted(R.NotOwner)
      else R.Answered(R.RefreshNotOwner)
    case _ => R.World(s.rpc.store)
  }

  function FenceAfter(s: State, e: Event): Fence {
    match e
    case Session(_) => s.fence
    case Rpc(step) => if Leaves(step) then Out else s.fence
    case Enter(since) => if Owns(s.session.lease, s.instance, s.leaseId, since) then In else Out
    case Lose => Lost
  }

  lemma RpcStepEnabled(s: State, e: Event)
    requires Enabled(s, e)
    ensures R.Enabled(s.rpc, RpcStep(s, e))
  {
  }

  function Apply(s: State, e: Event): State
    requires Enabled(s, e)
  {
    RpcStepEnabled(s, e);
    State(S.Apply(s.session, SessionStep(s, e)), R.Apply(s.rpc, RpcStep(s, e)), s.instance, s.leaseId, FenceAfter(s, e))
  }

  predicate Start(s: State) {
    S.Start(s.session) && R.Start(s.rpc) && s.fence.Out?
  }

  predicate Steps(states: seq<State>, events: seq<Event>, i: nat) {
    i < |events| && i + 1 < |states| && Enabled(states[i], events[i]) && states[i + 1] == Apply(states[i], events[i])
  }

  predicate Run(states: seq<State>, events: seq<Event>) {
    |states| == |events| + 1 && Start(states[0]) && forall i: nat :: i < |events| ==> Steps(states, events, i)
  }

  // ---------------------------------------------------------------------------------------------
  // Both parts run as they do alone

  /** The transaction that is in holds the lock, no longer than it may, and while a modern socket holds
      it the row keeps the socket's generation, unretired. */
  predicate Sound(s: State) {
    && (s.session.lock.Held? ==> s.session.now <= s.session.lock.since + S.OWNER_LOCK_MS)
    && (s.fence.In? ==>
          && s.session.lock.Held? && s.session.lock.instance == s.instance && s.session.lock.leaseId == s.leaseId
          && (Truthy(s.instance) ==> Stored(s)))
  }

  predicate Stored(s: State) {
    var row := s.session.lease.row;
    && s.instance.Some? && row.activeInstance == s.instance && row.leaseInstance == s.instance
    && s.leaseId.Some? && row.leaseId == s.leaseId
    && s.instance.value !in s.session.lease.retired
  }

  lemma SessionStepEnabled(s: State, e: Event)
    requires Enabled(s, e) && Sound(s)
    ensures S.Enabled(s.session, SessionStep(s, e))
  {
  }

  lemma DbKeepsStored(l: Lease, st: Statement, ts: int, instance: Id, leaseId: Id)
    requires l.row.activeInstance == Some(instance) == l.row.leaseInstance && l.row.leaseId == Some(leaseId) && instance !in l.retired
    requires !S.NeedsLock(st)
    ensures var n := Execute(l, st, ts);
            n.row.activeInstance == Some(instance) == n.row.leaseInstance && n.row.leaseId == Some(leaseId) && instance !in n.retired
  {
  }

  lemma StepKeepsSound(s: State, e: Event)
    requires Enabled(s, e) && Sound(s)
    ensures Sound(Apply(s, e))
  {
    if e.Session? && e.work.Db? && s.fence.In? && Truthy(s.instance) {
      DbKeepsStored(s.session.lease, e.work.st, e.work.ts, s.instance.value, s.leaseId.value);
    }
  }

  lemma {:induction false} RunSound(states: seq<State>, events: seq<Event>, k: nat)
    requires Run(states, events) && k < |states|
    ensures Sound(states[k]) && states[k].instance == states[0].instance && states[k].leaseId == states[0].leaseId
  {
    if k > 0 {
      assert Steps(states, events, k - 1);
      RunSound(states, events, k - 1);
      StepKeepsSound(states[k - 1], events[k - 1]);
    }
  }

  function Sessions(states: seq<State>): (r: seq<S.State>)
    ensures |r| == |states| && forall i :: 0 <= i < |r| ==> r[i] == states[i].session
  {
    seq(|states|, i requires 0 <= i < |states| => states[i].session)
  }

  function SessionSteps(states: seq<State>, events: seq<Event>): (r: seq<S.Event>)
    requires |events| <= |states|
    ensures |r| == |events| && forall i :: 0 <= i < |r| ==> r[i] == SessionStep(states[i], events[i])
  {
    seq(|events|, i requires 0 <= i < |events| => SessionStep(states[i], events[i]))
  }

  lemma SessionRun(states: seq<State>, events: seq<Event>)
    requires Run(states, events)
    ensures S.Run(Sessions(states), SessionSteps(states, events))
  {
    forall i: nat | i < |events| ensures S.Steps(Sessions(states), SessionSteps(states, events), i) {
      assert Steps(states, events, i);
      RunSound(states, events, i);
      SessionStepEnabled(states[i], events[i]);
    }
  }

  function Lifecycles(states: seq<State>): (r: seq<R.State>)
    ensures |r| == |states| && forall i :: 0 <= i < |r| ==> r[i] == states[i].rpc
  {
    seq(|states|, i requires 0 <= i < |states| => states[i].rpc)
  }

  function RpcSteps(states: seq<State>, events: seq<Event>): (r: seq<R.Event>)
    requires |events| <= |states|
    ensures |r| == |events| && forall i :: 0 <= i < |r| ==> r[i] == RpcStep(states[i], events[i])
  {
    seq(|events|, i requires 0 <= i < |events| => RpcStep(states[i], events[i]))
  }

  /** What is proved of a session and of a lifecycle alone holds of them together. */
  lemma PartsAreRuns(states: seq<State>, events: seq<Event>)
    requires Run(states, events)
    ensures S.Run(Sessions(states), SessionSteps(states, events))
    ensures R.Run(Lifecycles(states), RpcSteps(states, events))
  {
    SessionRun(states, events);
    forall i: nat | i < |events| ensures R.Steps(Lifecycles(states), RpcSteps(states, events), i) {
      assert Steps(states, events, i);
      RpcStepEnabled(states[i], events[i]);
    }
  }

  /** Each part moves only by its own steps: the session's leave the socket alone, the socket's leave the
      session alone but for releasing the lock, and an entry changes nothing but the lock or, if it
      fails, only the socket. */
  predicate MovesAlone(s: State, n: State, e: Event) {
    match e
    case Session(work) => n.rpc == s.rpc && n.session == S.Apply(s.session, work) && n.fence == s.fence
    case Rpc(step) =>
      && R.Enabled(s.rpc, step) && n.rpc == R.Apply(s.rpc, step) && n.session == s.session.(lock := n.session.lock)
      && (n.session.lock == s.session.lock || (Leaves(step) && s.fence.In? && n.session.lock.Free?))
    case Lose => n.rpc == s.rpc && n.session == s.session.(lock := S.Free) && n.fence.Lost?
    case Enter(since) =>
      if Owns(s.session.lease, s.instance, s.leaseId, since)
      then n.rpc == s.rpc && n.session == s.session.(lock := S.Held(s.instance, s.leaseId, since)) && n.fence.In?
      else n.session == s.session && n.rpc.store == s.rpc.store && n.fence.Out?
  }

  lemma PartsMoveAlone(states: seq<State>, events: seq<Event>, k: nat)
    requires Run(states, events) && k < |events|
    ensures MovesAlone(states[k], states[k + 1], events[k])
  {
    assert Steps(states, events, k);
  }

  // ---------------------------------------------------------------------------------------------
  // Registration is linearised with claim and end

  /** The step applies a SET or a refresh of this socket, other than late. */
  predicate Stores(e: Event) {
    && e.Rpc?
    && ((e.step.Attempted? && e.step.attempt.SetApplied?) || (e.step.Answered? && e.step.answer.Refreshed? && e.step.answer.applied))
  }

  predicate TimelyRun(states: seq<State>, events: seq<Event>, skew: int, lag: int) {
    Run(states, events) &&
    forall i :: 0 <= i < |events| && events[i].Session? ==> T.Timely(states[i].session, events[i].work, skew, lag)
  }

  /** Every target a modern socket stores while its transaction is in is stored while the row holds
      exactly the socket's generation, unretired; and active, under the timing that the sweep asks. */
  lemma StoresOnlyAsOwner(states: seq<State>, events: seq<Event>, k: nat, skew: int, lag: int)
    requires Run(states, events) && k < |events| && Stores(events[k]) && Truthy(states[k].instance)
    ensures states[k].fence.In? || states[k].fence.Lost?
    ensures states[k].fence.In? ==> Stored(states[k])
    ensures states[k].fence.In? && TimelyRun(states, events, skew, lag) && T.Roomy(skew, lag) ==>
              Generation(states[k].session.lease, states[k].instance.value, states[k].leaseId.value)
  {
    assert Steps(states, events, k);
    RunSound(states, events, k);
    if states[k].fence.In? && TimelyRun(states, events, skew, lag) && T.Roomy(skew, lag) {
      SessionRun(states, events);
      T.OwnerLockFences(Sessions(states), SessionSteps(states, events), skew, lag, k);
    }
  }

  /** A transaction is lost only by being aborted. */
  lemma {:induction false} LostWasAborted(states: seq<State>, events: seq<Event>, k: nat)
    requires Run(states, events) && k < |states| && states[k].fence.Lost?
    ensures exists i :: 0 <= i < k && events[i].Lose?
  {
    assert Steps(states, events, k - 1);
    if !events[k - 1].Lose? {
      LostWasAborted(states, events, k - 1);
    }
  }

  /** Once another generation has taken the session over, or this one has ended or expired, the socket
      never again enters a transaction and stores nothing, unless its transaction was aborted under
      the operation; what it sent before may still be applied late. */
  lemma SupersededSocketStoresNothing(states: seq<State>, events: seq<Event>, i: nat, j: nat, k: nat)
    requires Run(states, events) && i <= j <= k < |events| && Truthy(states[0].instance) && states[0].leaseId.Some?
    requires states[i].session.lease.row.leaseId == states[0].leaseId && states[j].session.lease.row.leaseId != states[0].leaseId
    ensures !states[k].fence.In? && !states[k + 1].fence.In?
    ensures Stores(events[k]) ==> states[k].fence.Lost?
    ensures (forall x :: 0 <= x < k ==> !events[x].Lose?) ==> !Stores(events[k])
  {
    SessionRun(states, events);
    RunSound(states, events, k);
    RunSound(states, events, k + 1);
    assert Steps(states, events, k);
    var leaseId := states[0].leaseId.value;
    S.RunInv(Sessions(states), SessionSteps(states, events), i);
    T.UsedGrows(Sessions(states), SessionSteps(states, events), i, j);
    T.UsedLeaseNeverReturns(Sessions(states), SessionSteps(states, events), j, k, leaseId);
    T.UsedLeaseNeverReturns(Sessions(states), SessionSteps(states, events), j, k + 1, leaseId);
    if states[k].fence.Lost? {
      LostWasAborted(states, events, k);
    }
  }

  /** A transaction is open exactly between its entry and the last step of the operation: never while the
      lifecycle is idle, at its loop, or about to delete; and always once a SET has been applied. */
  predicate Within(s: State) {
    && (!s.fence.Out? ==> s.rpc.running.Attempting? || s.rpc.running.Stored? || s.rpc.running.Recorded? || s.rpc.running.Refreshing?)
    && (s.rpc.running.Stored? || s.rpc.running.Recorded? ==> !s.fence.Out?)
  }

  lemma RpcKeepsWithin(s: State, step: R.Event)
    requires Within(s) && Enabled(s, Rpc(step))
    ensures Within(Apply(s, Rpc(step)))
  {
    match step
    case Called(c) => assert R.OnCall(s.rpc, c).running == s.rpc.running;
    case Begin => assert s.fence.Out? && !R.Dequeue(s.rpc).running.Stored? && !R.Dequeue(s.rpc).running.Recorded?;
    case Attempted(_) =>
    case Answered(a) => assert R.OnAnswer(s.rpc, a).running.Idle?;
    case _ =>
  }

  lemma {:induction false} TransactionsEnclose(states: seq<State>, events: seq<Event>, k: nat)
    requires Run(states, events) && k < |states|
    ensures Within(states[k])
  {
    if k > 0 {
      assert Steps(states, events, k - 1);
      TransactionsEnclose(states, events, k - 1);
      if events[k - 1].Rpc? {
        RpcKeepsWithin(states[k - 1], events[k - 1].step);
      }
    }
  }

  /** A registration or refresh reports success only while its transaction still holds the lock, and is
      refused for lost ownership only if the socket is not the owner then. */
  lemma AnswersTellTheOwner(states: seq<State>, events: seq<Event>, k: nat)
    requires Run(states, events) && k < |events|
    ensures var s, e, step := states[k], events[k], RpcStep(states[k], events[k]);
            && (step == R.Attempted(R.FenceCommitted(true)) || (step.Answered? && step.answer.Refreshed? && step.answer.ok) ==>
                  s.fence.In? && (Truthy(s.instance) ==> Stored(s)))
            && (step == R.Attempted(R.NotOwner) || step == R.Answered(R.RefreshNotOwner) ==>
                  e.Enter? && !Owns(s.session.lease, s.instance, s.leaseId, e.since))
            && (e.Enter? && !Owns(s.session.lease, s.instance, s.leaseId, e.since) ==>
                  states[k + 1].rpc.running.Idle? && states[k + 1].fence.Out?)
  {
    assert Steps(states, events, k);
    RunSound(states, events, k);
  }

  /** Every step of the lifecycle, but for the refusals, is possible in or out of a transaction. */
  lemma EveryStepFits(s: R.State, step: R.Event)
    requires R.Enabled(s, step) && step != R.Attempted(R.NotOwner) && step != R.Answered(R.RefreshNotOwner)
    ensures Fits(In, step) || Fits(Out, step)
  {
  }

  // ---------------------------------------------------------------------------------------------
  // A run in which the fence fails

  datatype Trail = Trail(states: seq<State>, events: seq<Event>)

  function Last(r: Trail): State
    requires |r.states| > 0
  {
    r.states[|r.states| - 1]
  }

  lemma Goes(r: Trail, e: Event) returns (n: Trail)
    requires Run(r.states, r.events) && Enabled(Last(r), e)
    ensures Run(n.states, n.events) && n.events == r.events + [e] && Last(n) == Apply(Last(r), e)
    ensures |n.states| == |r.states| + 1 && r.states <= n.states
  {
    n := Trail(r.states + [Apply(Last(r), e)], r.events + [e]);
    forall i: nat | i < |n.events| ensures Steps(n.states, n.events, i) {
      assert i < |r.events| ==> Steps(r.states, r.events, i);
    }
  }

  const OWNER := Lease(Row(true, Some("a"), Some("l"), Some("a"), Some(LEASE_MS), 0), map[])

  /** Socket ("a", "l") has called register and waits for its transaction. */
  function Waiting(m: R.Method): State {
    State(S.State(OWNER, 0, [], S.Free, 0, {"l"}, {"l"}),
          R.State(1, map[], {}, false, [], R.Attempting(m), map[], R.History({}, map[m := true], false, {}, {})),
          Some("a"), Some("l"), Out)
  }

  const IDLE := R.State(1, map[], {}, false, [], R.Idle, map[], R.History({}, map[], false, {}, {}))

  lemma ReachOwned() returns (r: Trail)
    ensures Run(r.states, r.events) && Last(r) == State(Waiting("").session, IDLE, Some("a"), Some("l"), Out)
  {
    var unclaimed := S.State(Lease(Row(false, None, None, None, None, 0), map[]), 0, [], S.Free, 0, {}, {});
    r := Trail([State(unclaimed, IDLE, Some("a"), Some("l"), Out)], []);
    r := Goes(r, Session(S.Db(LiveClaim(Some("a"), "l"), 0)));
  }

  lemma ReachWaiting(m: R.Method) returns (r: Trail)
    ensures Run(r.states, r.events) && Last(r) == Waiting(m)
  {
    var w := Waiting(m);
    r := ReachOwned();
    r := Goes(r, Rpc(R.Called(R.CallRegister(m))));
    assert Last(r) == w.(rpc := w.rpc.(queue := [R.Register(m)], running := R.Idle));
    r := Goes(r, Rpc(R.Begin));
    assert Last(r) == w.(rpc := w.rpc.(running := R.Looping(m)));
    r := Goes(r, Rpc(R.Attempted(R.CheckLoop)));
  }

  /** If the transaction is aborted under the operation, a successor may claim the session and the old
      socket's registration still be stored after that. */
  lemma AbortedFenceStoresLate(m: R.Method, t: G.Target) returns (r: Trail)
    ensures Run(r.states, r.events)
    ensures Last(r).session.lease.row.activeInstance == Some("b") && Last(r).instance == Some("a")
    ensures |r.events| > 0 && Stores(r.events[|r.events| - 1]) && m in Last(r).rpc.store && Last(r).rpc.store[m] == G.Encoded(t)
  {
    r := ReachWaiting(m);
    r := Goes(r, Enter(0));
    r := Goes(r, Lose);
    assert Last(r) == Waiting(m).(fence := Lost);
    r := Goes(r, Session(S.Tick(LEASE_MS)));
    r := Goes(r, Session(S.Db(LiveClaim(Some("b"), "n"), LEASE_MS)));
    r := Goes(r, Rpc(R.Attempted(R.SetApplied(t))));
  }
}
