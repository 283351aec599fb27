/** What a socket's registration map holds in any run, told by the events alone. */
module RpcMap {
  import opened Sql
  import opened RpcRegistry
  import opened RpcLifecycle

  function Registered(s: State, m: Method): Option<Target> {
    if m in s.registrations then Some(s.registrations[m]) else None
  }

  predicate Begins(s: State, e: Event, op: Op) {
    e.Begin? && s.running.Idle? && s.queue != [] && s.queue[0] == op
  }

  /** The answer to a SET arrives and the target is recorded. */
  predicate Records(s: State, e: Event, m: Method, t: Target) {
    e == Attempted(SetAnswered(true)) && s.running == Stored(m, t)
  }

  /** A refresh was answered, and the key of m does not hold the target it offered. */
  predicate Outdates(s: State, n: State, e: Event, m: Method) {
    && e.Answered? && e.answer.Refreshed? && e.answer.ok
    && s.running.Refreshing? && m in s.running.snapshot && Get(n.store, m) != Some(Encoded(s.running.snapshot[m]))
  }

  predicate Disowns(s: State, e: Event, m: Method) {
    e == Answered(RefreshNotOwner) && s.running.Refreshing? && m in s.running.snapshot
  }

  /** What takes m out of the map: its unregister or the close begins, or a refresh finds the ownership
      lost or the key taken over. */
  predicate Removes(s: State, n: State, e: Event, m: Method) {
    Begins(s, e, Unregister(m)) || Begins(s, e, Close) || Disowns(s, e, m) || Outdates(s, n, e, m)
  }

  lemma BeginMaps(s: State, m: Method)
    requires s.running.Idle? && s.queue != []
    ensures Registered(Dequeue(s), m) == if s.queue[0] == Unregister(m) || s.queue[0] == Close then None else Registered(s, m)
  {
  }

  lemma AnswerMaps(s: State, a: Answer, m: Method)
    requires CanAnswer(s.running, a) && (s.running.Refreshing? ==> s.running.snapshot == s.registrations)
    ensures var e, n := Answered(a), OnAnswer(s, a);
            Registered(n, m) == if Disowns(s, e, m) || Outdates(s, n, e, m) then None else Registered(s, m)
  {
  }

  lemma StepMaps(s: State, e: Event, m: Method)
    requires Enabled(s, e) && Bounded(s)
    ensures var n := Apply(s, e);
            Registered(n, m) == if s.running.Stored? && Records(s, e, m, s.running.target) then Some(s.running.target)
                                else if Removes(s, n, e, m) then None
                                else Registered(s, m)
  {
    match e
    case Called(c) => assert OnCall(s, c).registrations == s.registrations;
    case Begin => BeginMaps(s, m);
    case Attempted(a) =>
    case Answered(a) => AnswerMaps(s, a, m);
    case _ =>
  }

  /** Step i removes m or records it anew. */
  predicate Changes(states: seq<State>, events: seq<Event>, i: nat, m: Method)
    requires i < |events| && i + 1 < |states|
  {
    var s, e := states[i], events[i];
    Removes(s, states[i + 1], e, m) || (s.running.Stored? && Records(s, e, m, s.running.target))
  }

  /** Neither removed nor recorded anew in the steps after j and before k. */
  predicate Kept(states: seq<State>, events: seq<Event>, j: nat, k: nat, m: Method)
    requires k <= |events| && k < |states|
  {
    forall i :: j < i < k ==> !Changes(states, events, i, m)
  }

  /** In every run a method is registered with a target exactly if the answer to the SET of that target
      was its last recording, and it was not removed since. */
  lemma {:induction false} RegisteredIff(states: seq<State>, events: seq<Event>, k: nat, m: Method, t: Target)
    requires Run(states, events) && k < |states|
    ensures Registered(states[k], m) == Some(t) <==>
            exists j :: 0 <= j < k && Records(states[j], events[j], m, t) && Kept(states, events, j, k, m)
  {
    if k > 0 {
      assert Steps(states, events, k - 1);
      RegisteredIff(states, events, k - 1, m, t);
      RunInv(states, events, k - 1);
      var s, e := states[k - 1], events[k - 1];
      StepMaps(s, e, m);
      if Records(s, e, m, t) {
        assert Kept(states, events, k - 1, k, m);
      } else {
        forall j | 0 <= j < k - 1
          ensures Kept(states, events, j, k, m) <==> Kept(states, events, j, k - 1, m) && !Changes(states, events, k - 1, m)
        {
        }
      }
    }
  }

  /** An answered refresh keeps exactly the registrations whose keys hold their targets afterwards, and
      the others are gone; and one that was applied has restored every key that would accept it. */
  lemma RefreshKeepsTheHeld(states: seq<State>, events: seq<Event>, k: nat, m: Method)
    requires Run(states, events) && k < |events| && events[k].Answered? && events[k].answer.Refreshed?
    ensures var s, n := states[k], states[k + 1];
            && (events[k].answer.ok ==>
                  Registered(n, m) == if m in s.registrations && Get(n.store, m) == Some(Encoded(s.registrations[m]))
                                      then Registered(s, m) else None)
            && (!events[k].answer.ok ==> n.registrations == s.registrations)
            && (events[k].answer.applied && m in s.registrations && Accepts(Get(s.store, m), s.registrations[m]) ==>
                  Get(n.store, m) == Some(Encoded(s.registrations[m])))
  {
    assert Steps(states, events, k);
    RunInv(states, events, k);
    StepMaps(states[k], events[k], m);
  }

  // ---------------------------------------------------------------------------------------------
  // When the last call does not count

  /** A register of m finds the map full. */
  predicate Refuses(s: State, e: Event, m: Method) {
    Begins(s, e, Register(m)) && !s.closing && m !in s.registrations && |s.registrations| >= s.limit
  }

  predicate Loses(s: State, n: State, e: Event, m: Method) {
    || Refuses(s, e, m) || Disowns(s, e, m) || Outdates(s, n, e, m)
    || (e == Attempted(NotOwner) && s.running == Attempting(m))
  }

  predicate LosesAt(states: seq<State>, events: seq<Event>, i: nat, m: Method)
    requires i < |events| && i + 1 < |states|
  {
    Loses(states[i], states[i + 1], events[i], m)
  }

  /** An operation for m begins to run. */
  predicate Starts(s: State, e: Event, m: Method) {
    Begins(s, e, Unregister(m)) || (Begins(s, e, Register(m)) && !s.closing && !Refuses(s, e, m))
  }

  lemma BeginLoses(s: State, m: Method)
    requires s.running.Idle? && s.queue != []
    ensures m in Dequeue(s).past.lost <==> Refuses(s, Begin, m) || (m in s.past.lost && !Starts(s, Begin, m))
  {
  }

  lemma AnswerLoses(s: State, a: Answer, m: Method)
    requires CanAnswer(s.running, a)
    ensures var e, n := Answered(a), OnAnswer(s, a);
            m in n.past.lost <==> Disowns(s, e, m) || Outdates(s, n, e, m) || m in s.past.lost
  {
  }

  lemma AttemptLoses(s: State, a: Attempt, m: Method)
    requires CanAttempt(s, a)
    ensures m in OnAttempt(s, a).past.lost <==> (a == NotOwner && s.running == Attempting(m)) || m in s.past.lost
  {
  }

  lemma StepLoses(s: State, e: Event, m: Method)
    requires Enabled(s, e)
    ensures m in Apply(s, e).past.lost <==> Loses(s, Apply(s, e), e, m) || (m in s.past.lost && !Starts(s, e, m))
  {
    match e
    case Called(c) => assert OnCall(s, c).past.lost == s.past.lost;
    case Begin => BeginLoses(s, m);
    case Attempted(a) => AttemptLoses(s, a, m);
    case Answered(a) => AnswerLoses(s, a, m);
    case _ =>
  }

  /** Since the last operation for m began it was refused, or its registration dropped by a refresh. */
  predicate Undone(states: seq<State>, events: seq<Event>, k: nat, m: Method)
    requires k <= |events| && k < |states|
  {
    exists j :: 0 <= j < k && LosesAt(states, events, j, m) && forall i :: j < i < k ==> !Starts(states[i], events[i], m)
  }

  lemma UndoneStep(states: seq<State>, events: seq<Event>, k: nat, m: Method)
    requires 0 < k <= |events| && k < |states|
    ensures Undone(states, events, k, m) <==>
            LosesAt(states, events, k - 1, m) || (Undone(states, events, k - 1, m) && !Starts(states[k - 1], events[k - 1], m))
  {
    if Undone(states, events, k - 1, m) && !Starts(states[k - 1], events[k - 1], m) {
      var j :| 0 <= j < k - 1 && LosesAt(states, events, j, m) && forall i :: j < i < k - 1 ==> !Starts(states[i], events[i], m);
      assert forall i :: j < i < k ==> !Starts(states[i], events[i], m);
    }
  }

  lemma {:induction false} LostIffUndone(states: seq<State>, events: seq<Event>, k: nat, m: Method)
    requires Run(states, events) && k < |states|
    ensures m in states[k].past.lost <==> Undone(states, events, k, m)
  {
    if k > 0 {
      assert Steps(states, events, k - 1);
      LostIffUndone(states, events, k - 1, m);
      StepLoses(states[k - 1], events[k - 1], m);
      UndoneStep(states, events, k, m);
    }
  }

  /** Whenever nothing is outstanding for a method of an open socket, it is registered exactly if the last
      call for it was register, however calls, busy owners and transient failures met, unless what the
      last operation for it did was undone. */
  lemma LastCallWins(states: seq<State>, events: seq<Event>, k: nat, m: Method)
    requires Run(states, events) && k < |states|
    requires Outstanding(states[k], m).None? && !states[k].closing && !Undone(states, events, k, m)
    ensures m in states[k].registrations <==> LastCalled(states, events, k, m) == Some(true)
  {
    LostIffUndone(states, events, k, m);
    CallsAreRecorded(states, events, k, m);
    SettledAsWanted(states, events, k, m);
  }

  /** Whether the last call for m among the first k events was register. */
  function LastCalled(states: seq<State>, events: seq<Event>, k: nat, m: Method): Option<bool>
    requires k <= |events|
  {
    if k == 0 then None
    else if events[k - 1] == Called(CallRegister(m)) then Some(true)
    else if events[k - 1] == Called(CallUnregister(m)) then Some(false)
    else LastCalled(states, events, k - 1, m)
  }

  lemma {:induction false} CallsAreRecorded(states: seq<State>, events: seq<Event>, k: nat, m: Method)
    requires Run(states, events) && k < |states|
    ensures LastCalled(states, events, k, m) ==
            if m in states[k].past.lastCall then Some(states[k].past.lastCall[m]) else None
  {
    if k > 0 {
      assert Steps(states, events, k - 1);
      CallsAreRecorded(states, events, k - 1, m);
      StepRecordsCalls(states[k - 1], events[k - 1]);
    }
  }

  lemma AttemptKeepsCalls(s: State, a: Attempt)
    requires CanAttempt(s, a)
    ensures OnAttempt(s, a).past.lastCall == s.past.lastCall
  {
  }

  lemma AnswerKeepsCalls(s: State, a: Answer)
    requires CanAnswer(s.running, a)
    ensures OnAnswer(s, a).past.lastCall == s.past.lastCall
  {
  }

  lemma BeginKeepsCalls(s: State)
    requires s.running.Idle? && s.queue != []
    ensures Dequeue(s).past.lastCall == s.past.lastCall
  {
  }

  lemma CallIsRecorded(s: State, c: Call)
    ensures OnCall(s, c).past.lastCall == if c.CallRegister? then s.past.lastCall[c.m := true]
                                          else if c.CallUnregister? then s.past.lastCall[c.m := false]
                                          else s.past.lastCall
  {
  }

  lemma StepRecordsCalls(s: State, e: Event)
    requires Enabled(s, e)
    ensures Apply(s, e).past.lastCall ==
            if e.Called? && e.call.CallRegister? then s.past.lastCall[e.call.m := true]
            else if e.Called? && e.call.CallUnregister? then s.past.lastCall[e.call.m := false]
            else s.past.lastCall
  {
    match e
    case Called(c) => CallIsRecorded(s, c);
    case Begin => BeginKeepsCalls(s);
    case Attempted(a) => AttemptKeepsCalls(s, a);
    case Answered(a) => AnswerKeepsCalls(s, a);
    case Applied(_) =>
    case World(_) =>
  }
}
