/** From every reachable state the lifecycle can finish what it has begun, if the world lets it. */
module RpcProgress {
  import opened Sql
  import opened RpcRegistry
  import opened RpcLifecycle
  import opened RpcQueue
  import opened RpcClose

  /** The steps left to the running operation if nothing fails any more. */
  function Left(p: Phase): nat {
    match p
    case Idle => 0
    case Looping(_) => 4
    case Attempting(_) => 3
    case Stored(_, _) => 2
    case Recorded(_) => 1
    case Caught(_) => 5
    case Deleting(_, _) => 1
    case Refreshing(_) => 1
    case Closing(_) => 1
  }

  predicate NeedsTarget(p: Phase) {
    p.Looping? || p.Attempting? || p.Caught?
  }

  /** Nobody has asked the running register to stop. */
  predicate Wants(s: State, m: Method) {
    Registering(s.running, m) && !s.closing && m !in s.cancelled
  }

  /** The next step if nothing fails: for a register, towards storing target t. */
  function NextStep(p: Phase, t: Target): Event
    requires !p.Idle?
  {
    match p
    case Looping(_) => Attempted(CheckLoop)
    case Attempting(_) => Attempted(SetApplied(t))
    case Stored(_, _) => Attempted(SetAnswered(true))
    case Recorded(_) => Attempted(FenceCommitted(true))
    case Caught(_) => Attempted(Settle)
    case Deleting(_, _) => Answered(Deleted(true, true))
    case Refreshing(_) => Answered(Refreshed(true, true))
    case Closing(_) => Answered(ClosedAll(true, true))
  }

  lemma StepsAhead(s: State, t: Target)
    requires !s.running.Idle? && (NeedsTarget(s.running) ==> Unseen(s, t))
    requires forall m :: s.running == Recorded(m) ==> m in s.registrations
    ensures Enabled(s, NextStep(s.running, t))
    ensures var n := Apply(s, NextStep(s.running, t));
            && Left(n.running) < Left(s.running) && n.queue == s.queue
            && (NeedsTarget(n.running) ==> Unseen(n, t))
            && (forall m :: Wants(s, m) ==> Wants(n, m) || (n.running.Idle? && m in n.registrations))
  {
    match s.running
    case Deleting(_, _) =>
    case Refreshing(_) =>
    case Closing(_) =>
    case _ =>
  }

  /** Any running operation can come to its end, and the queue is as it was; a register that nobody asked
      to stop then has its method registered. */
  lemma {:induction false} OperationCanFinish(states: seq<State>, events: seq<Event>, t: Target)
    returns (more: seq<State>, rest: seq<Event>)
    requires Run(states, events)
    requires NeedsTarget(states[|events|].running) ==> Unseen(states[|events|], t)
    ensures Run(more, rest) && events <= rest && more[|rest|].running.Idle? && more[|rest|].queue == states[|events|].queue
    ensures forall m :: Wants(states[|events|], m) ==> m in more[|rest|].registrations
    ensures states[|events|].running.Idle? ==> more == states && rest == events
    decreases Left(states[|events|].running)
  {
    var s := states[|events|];
    if s.running.Idle? {
      more, rest := states, events;
    } else {
      RunInv(states, events, |events|);
      StepsAhead(s, t);
      more, rest := Continue(states, events, NextStep(s.running, t));
      more, rest := OperationCanFinish(more, rest, t);
    }
  }

  lemma BeginTakesOne(s: State, t: Target)
    requires s.running.Idle? && s.queue != [] && Unseen(s, t)
    ensures Enabled(s, Begin) && Apply(s, Begin).queue == s.queue[1..] && Unseen(Apply(s, Begin), t)
  {
    BeginFrame(s);
    BeginShortens(s);
  }

  lemma BeginShortens(s: State)
    requires s.running.Idle? && s.queue != []
    ensures Dequeue(s).queue == s.queue[1..]
  {
  }

  /** Whenever an operation waits and none runs, the first one can be taken from the queue and finished. */
  lemma NextOperationCanRun(states: seq<State>, events: seq<Event>, t: Target)
    returns (more: seq<State>, rest: seq<Event>)
    requires Run(states, events) && states[|events|].running.Idle? && states[|events|].queue != [] && Unseen(states[|events|], t)
    ensures Run(more, rest) && events <= rest && more[|rest|].running.Idle?
    ensures more[|rest|].queue == states[|events|].queue[1..]
  {
    BeginTakesOne(states[|events|], t);
    more, rest := Continue(states, events, Begin);
    more, rest := OperationCanFinish(more, rest, t);
  }
}
