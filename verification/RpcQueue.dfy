/** When the operations of a lifecycle run, stop and take effect late, told by the events alone. */
module RpcQueue {
  import opened Sql
  import opened RpcRegistry
  import opened RpcLifecycle

  /** A running register works on m. */
  predicate Registering(p: Phase, m: Method) {
    (p.Looping? || p.Attempting? || p.Stored? || p.Recorded? || p.Caught?) && p.m == m
  }

  predicate Begins(s: State, e: Event, op: Op) {
    e.Begin? && s.running.Idle? && s.queue != [] && s.queue[0] == op
  }

  // ---------------------------------------------------------------------------------------------
  // When a register gives up

  predicate CloseCalled(events: seq<Event>, k: nat)
    requires k <= |events|
  {
    exists j :: 0 <= j < k && events[j] == Called(CallClose)
  }

  /** At its next turn the running register of m ends without success. */
  predicate GivesUp(s: State, e: Event, m: Method) {
    && ((e == Attempted(CheckLoop) && s.running == Looping(m)) || (e == Attempted(Settle) && s.running == Caught(m)))
    && (s.closing || m in s.cancelled)
  }

  /** What takes the cancellation mark off m: a call to register it, the end of an operation for it, or
      the close. */
  predicate Clears(s: State, e: Event, m: Method) {
    || e == Called(CallRegister(m))
    || (Begins(s, e, Unregister(m)) && m !in s.registrations)
    || Begins(s, e, Close)
    || (e.Answered? && e.answer.Deleted? && s.running.Deleting? && s.running.m == m)
    || (e == Attempted(NotOwner) && s.running == Attempting(m))
    || GivesUp(s, e, m)
  }

  predicate Marked(states: seq<State>, events: seq<Event>, k: nat, m: Method)
    requires k <= |events| && k < |states|
  {
    exists j :: 0 <= j < k && events[j] == Called(CallUnregister(m)) && forall i :: j < i < k ==> !Clears(states[i], events[i], m)
  }

  lemma BeginMarks(s: State, m: Method)
    requires s.running.Idle? && s.queue != []
    ensures m in Dequeue(s).cancelled <==> m in s.cancelled && !Clears(s, Begin, m)
    ensures Dequeue(s).closing == s.closing
  {
  }

  lemma AttemptMarks(s: State, a: Attempt, m: Method)
    requires CanAttempt(s, a)
    ensures m in OnAttempt(s, a).cancelled <==> m in s.cancelled && !Clears(s, Attempted(a), m)
    ensures OnAttempt(s, a).closing == s.closing
  {
  }

  lemma AnswerMarks(s: State, a: Answer, m: Method)
    requires CanAnswer(s.running, a)
    ensures m in OnAnswer(s, a).cancelled <==> m in s.cancelled && !Clears(s, Answered(a), m)
    ensures OnAnswer(s, a).closing == s.closing
  {
  }

  lemma CallMarks(s: State, c: Call, m: Method)
    ensures m in OnCall(s, c).cancelled <==> c == CallUnregister(m) || (m in s.cancelled && c != CallRegister(m))
    ensures OnCall(s, c).closing <==> s.closing || c.CallClose?
  {
  }

  lemma StepMarks(s: State, e: Event, m: Method)
    requires Enabled(s, e)
    ensures m in Apply(s, e).cancelled <==> e == Called(CallUnregister(m)) || (m in s.cancelled && !Clears(s, e, m))
    ensures Apply(s, e).closing <==> s.closing || e == Called(CallClose)
  {
    match e
    case Called(c) => CallMarks(s, c, m);
    case Begin => BeginMarks(s, m);
    case Attempted(a) => AttemptMarks(s, a, m);
    case Answered(a) => AnswerMarks(s, a, m);
    case _ =>
  }

  lemma {:induction false} MarksTellTheCalls(states: seq<State>, events: seq<Event>, k: nat, m: Method)
    requires Run(states, events) && k < |states|
    ensures m in states[k].cancelled <==> Marked(states, events, k, m)
    ensures states[k].closing <==> CloseCalled(events, k)
  {
    if k > 0 {
      assert Steps(states, events, k - 1);
      MarksTellTheCalls(states, events, k - 1, m);
      StepMarks(states[k - 1], events[k - 1], m);
      MarkedStep(states, events, k, m);
    }
  }

  lemma MarkedStep(states: seq<State>, events: seq<Event>, k: nat, m: Method)
    requires 0 < k <= |events| && k < |states|
    ensures Marked(states, events, k, m) <==>
            events[k - 1] == Called(CallUnregister(m)) || (Marked(states, events, k - 1, m) && !Clears(states[k - 1], events[k - 1], m))
    ensures CloseCalled(events, k) <==> CloseCalled(events, k - 1) || events[k - 1] == Called(CallClose)
  {
    if Marked(states, events, k - 1, m) && !Clears(states[k - 1], events[k - 1], m) {
      var j :| 0 <= j < k - 1 && events[j] == Called(CallUnregister(m)) && forall i :: j < i < k - 1 ==> !Clears(states[i], events[i], m);
      assert forall i :: j < i < k ==> !Clears(states[i], events[i], m);
    }
  }

  /** At its turn a running register goes on exactly if the socket was not asked to close and its method
      carries no mark: no unregister call since the last register call or ended operation for it. */
  lemma RegisterStopsIff(states: seq<State>, events: seq<Event>, k: nat, m: Method)
    requires Run(states, events) && k < |events| && Registering(states[k].running, m)
    requires events[k] == Attempted(CheckLoop) || events[k] == Attempted(Settle)
    ensures states[k + 1].running.Idle? <==> CloseCalled(events, k) || Marked(states, events, k, m)
    ensures states[k + 1].store == states[k].store && states[k + 1].registrations == states[k].registrations
  {
    assert Steps(states, events, k);
    MarksTellTheCalls(states, events, k, m);
  }

  /** So a register that is unregistered while it runs, and not called again, gives up at its next turn. */
  lemma SupersededRegisterStops(states: seq<State>, events: seq<Event>, j: nat, k: nat, m: Method)
    requires Run(states, events) && j < k < |events| && events[j] == Called(CallUnregister(m))
    requires forall i :: j < i <= k ==> Registering(states[i].running, m)
    requires forall i :: j < i < k ==> events[i] != Called(CallRegister(m))
    requires events[k] == Attempted(CheckLoop) || events[k] == Attempted(Settle)
    ensures states[k + 1].running.Idle?
  {
    forall i | j < i < k ensures !Clears(states[i], events[i], m) {
      assert Steps(states, events, i);
      assert Registering(states[i].running, m) && Registering(states[i + 1].running, m);
    }
    RegisterStopsIff(states, events, k, m);
  }

  // ---------------------------------------------------------------------------------------------
  // When a refresh runs

  function Refreshes(ops: seq<Op>): nat {
    if ops == [] then 0 else Refreshes(ops[..|ops| - 1]) + if ops[|ops| - 1].Refresh? then 1 else 0
  }

  function Waiting(s: State): nat {
    Refreshes(s.queue) + if s.running.Refreshing? then 1 else 0
  }

  lemma {:induction false} RefreshesFirst(ops: seq<Op>)
    requires ops != []
    ensures Refreshes(ops) == Refreshes(ops[1..]) + if ops[0].Refresh? then 1 else 0
  {
    if |ops| > 1 {
      RefreshesFirst(ops[..|ops| - 1]);
      assert ops[1..][..|ops| - 2] == ops[..|ops| - 1][1..];
    }
  }

  lemma {:induction false} NoRefreshes(ops: seq<Op>)
    ensures Refreshes(ops) == 0 <==> Refresh !in ops
  {
    if ops != [] {
      NoRefreshes(ops[..|ops| - 1]);
      assert ops == ops[..|ops| - 1] + [ops[|ops| - 1]];
    }
  }

  lemma CallWaits(s: State, c: Call)
    ensures Waiting(OnCall(s, c)) == if c.CallRefresh? && Waiting(s) == 0 then 1 else Waiting(s)
  {
    NoRefreshes(s.queue);
    var n := OnCall(s, c);
    if n.queue != s.queue {
      assert n.queue[..|n.queue| - 1] == s.queue;
    }
  }

  lemma StepWaits(s: State, e: Event)
    requires Enabled(s, e)
    ensures Waiting(Apply(s, e)) <= Waiting(s) || (e == Called(CallRefresh) && Waiting(s) == 0 && Waiting(Apply(s, e)) == 1)
  {
    match e
    case Called(c) => CallWaits(s, c);
    case Begin => RefreshesFirst(s.queue);
    case Attempted(a) => assert OnAttempt(s, a).queue == s.queue;
    case Answered(a) => assert OnAnswer(s, a).queue == s.queue;
    case _ =>
  }

  /** Refresh calls are joined: at most one refresh is ever waiting or running, and after a call one is. */
  lemma {:induction false} RefreshesAreJoined(states: seq<State>, events: seq<Event>, k: nat)
    requires Run(states, events) && k < |states|
    ensures Waiting(states[k]) <= 1
    ensures k < |events| && events[k] == Called(CallRefresh) ==> Waiting(states[k + 1]) == 1
  {
    if k > 0 {
      assert Steps(states, events, k - 1);
      RefreshesAreJoined(states, events, k - 1);
      StepWaits(states[k - 1], events[k - 1]);
    }
    if k < |events| && events[k] == Called(CallRefresh) {
      assert Steps(states, events, k);
      CallWaits(states[k], CallRefresh);
    }
  }

  /** A refresh offers exactly the registered targets, and is sent only if there are any and the socket
      was not asked to close. */
  lemma RefreshRunsIff(states: seq<State>, events: seq<Event>, k: nat)
    requires Run(states, events) && k < |events| && Begins(states[k], events[k], Refresh)
    ensures states[k + 1].running ==
            if CloseCalled(events, k) || states[k].registrations == map[] then Idle else Refreshing(states[k].registrations)
  {
    assert Steps(states, events, k);
    MarksTellTheCalls(states, events, k, "");
  }

  // ---------------------------------------------------------------------------------------------
  // Commands that take effect late

  /** A command about target t of m reports an error before it is applied. */
  predicate Sends(s: State, e: Event, late: Late) {
    var r := late.registration;
    if late.refresh then
      && e.Answered? && e.answer == Refreshed(false, false)
      && s.running.Refreshing? && r.key in s.running.snapshot && s.running.snapshot[r.key] == r.target
    else e == Attempted(ThrowsInDoubt(r.target)) && s.running == Attempting(r.key)
  }

  predicate InDoubtAt(states: seq<State>, events: seq<Event>, k: nat, late: Late)
    requires k <= |events| && k < |states|
  {
    exists j :: 0 <= j < k && Sends(states[j], events[j], late) && forall i :: j < i < k ==> events[i] != Applied(late)
  }

  lemma AttemptSends(s: State, a: Attempt, late: Late)
    requires CanAttempt(s, a)
    ensures late in OnAttempt(s, a).past.late <==> late in s.past.late || Sends(s, Attempted(a), late)
  {
  }

  lemma AnswerSends(s: State, a: Answer, late: Late)
    requires CanAnswer(s.running, a)
    ensures late in OnAnswer(s, a).past.late <==> late in s.past.late || Sends(s, Answered(a), late)
  {
  }

  lemma StepSends(s: State, e: Event, late: Late)
    requires Enabled(s, e)
    ensures late in Apply(s, e).past.late <==> Sends(s, e, late) || (late in s.past.late && e != Applied(late))
  {
    match e
    case Called(c) => assert OnCall(s, c).past.late == s.past.late;
    case Begin => assert Dequeue(s).past.late == s.past.late;
    case Attempted(a) => AttemptSends(s, a, late);
    case Answered(a) => AnswerSends(s, a, late);
    case _ =>
  }

  /** What may still be applied is exactly what was sent, reported an error and was not applied since. */
  lemma {:induction false} LateIff(states: seq<State>, events: seq<Event>, k: nat, late: Late)
    requires Run(states, events) && k < |states|
    ensures late in states[k].past.late <==> InDoubtAt(states, events, k, late)
  {
    if k > 0 {
      assert Steps(states, events, k - 1);
      LateIff(states, events, k - 1, late);
      StepSends(states[k - 1], events[k - 1], late);
      InDoubtStep(states, events, k, late);
    }
  }

  lemma InDoubtStep(states: seq<State>, events: seq<Event>, k: nat, late: Late)
    requires 0 < k <= |events| && k < |states|
    ensures InDoubtAt(states, events, k, late) <==>
            Sends(states[k - 1], events[k - 1], late) || (InDoubtAt(states, events, k - 1, late) && events[k - 1] != Applied(late))
  {
    if InDoubtAt(states, events, k - 1, late) && events[k - 1] != Applied(late) {
      var j :| 0 <= j < k - 1 && Sends(states[j], events[j], late) && forall i :: j < i < k - 1 ==> events[i] != Applied(late);
      assert forall i :: j < i < k ==> events[i] != Applied(late);
    }
  }

  /** A SET takes effect late whatever the key holds; a refresh does to its key what it would have done in
      time, and spares the other keys. */
  lemma LateTakesEffect(states: seq<State>, events: seq<Event>, k: nat, late: Late, m: Method)
    requires Run(states, events) && k < |events| && events[k] == Applied(late)
    ensures Get(states[k + 1].store, m) ==
            if m != late.registration.key then Get(states[k].store, m)
            else if late.refresh then Get(RpcRegistry.Refresh(states[k].store, late.registration), m)
            else Some(Encoded(late.registration.target))
  {
    assert Steps(states, events, k);
  }
}
