/** What a socket leaves behind in Redis when it closes. */
module RpcClose {
  import opened Sql
  import opened RpcRegistry
  import opened RpcLifecycle

  /** A refresh finds the ownership lost and drops m. */
  predicate Drops(s: State, e: Event, m: Method) {
    e == Answered(RefreshNotOwner) && s.running.Refreshing? && m in s.running.snapshot
  }

  /** The socket still answers for target t of m. */
  predicate Answering(s: State, m: Method, t: Target) {
    if s.running.Stored? && s.running.m == m then t == s.running.target
    else
      || (m in s.registrations && s.registrations[m] == t)
      || s.running == Deleting(m, t)
      || (s.running.Closing? && m in s.running.snapshot && s.running.snapshot[m] == t)
  }

  /** A refresh without ownership drops target t of m, a command about it fails, or a command in doubt
      about it takes effect. */
  predicate Abandons(s: State, e: Event, m: Method, t: Target) {
    || (Drops(s, e, m) && s.running.snapshot[m] == t)
    || (e == Attempted(SetAnswered(false)) && s.running == Stored(m, t))
    || (e.Answered? && e.answer.Deleted? && !e.answer.ok && s.running == Deleting(m, t))
    || (e.Answered? && e.answer.ClosedAll? && !e.answer.ok
        && s.running.Closing? && m in s.running.snapshot && s.running.snapshot[m] == t)
    || (e.Applied? && e.late.registration == Registration(m, t))
  }

  predicate Holds(s: State, m: Method, t: Target) {
    Get(s.store, m) == Some(Encoded(t))
  }

  /** If target t is stored after a step, the socket answers for it, or the step abandons it, or it was
      stored before without the socket answering for it. */
  predicate Accounted(s: State, n: State, e: Event, m: Method, t: Target) {
    Holds(n, m, t) && t in n.past.minted ==>
      Answering(n, m, t) || Abandons(s, e, m, t) || (Holds(s, m, t) && t in s.past.minted && !Answering(s, m, t))
  }

  lemma CallAccounts(s: State, c: Call, m: Method, t: Target)
    ensures Accounted(s, OnCall(s, c), Called(c), m, t)
  {
  }

  lemma BeginAccounts(s: State, m: Method, t: Target)
    requires s.running.Idle? && s.queue != []
    ensures Accounted(s, Dequeue(s), Begin, m, t)
  {
  }

  lemma AttemptAccounts(s: State, a: Attempt, m: Method, t: Target)
    requires CanAttempt(s, a)
    ensures Accounted(s, OnAttempt(s, a), Attempted(a), m, t)
  {
  }

  lemma RefreshAccounts(s: State, a: Answer, m: Method, t: Target)
    requires s.running.Refreshing? && CanAnswer(s.running, a) && Bounded(s)
    ensures Accounted(s, OnAnswer(s, a), Answered(a), m, t)
  {
  }

  lemma DeleteAccounts(s: State, a: Answer, m: Method, t: Target)
    requires !s.running.Refreshing? && CanAnswer(s.running, a)
    ensures Accounted(s, OnAnswer(s, a), Answered(a), m, t)
  {
  }

  lemma AnswerAccounts(s: State, a: Answer, m: Method, t: Target)
    requires CanAnswer(s.running, a) && Bounded(s)
    ensures Accounted(s, OnAnswer(s, a), Answered(a), m, t)
  {
    if s.running.Refreshing? {
      RefreshAccounts(s, a, m, t);
    } else {
      DeleteAccounts(s, a, m, t);
    }
  }

  lemma StepAccounts(s: State, e: Event, m: Method, t: Target)
    requires Enabled(s, e) && Bounded(s)
    ensures Accounted(s, Apply(s, e), e, m, t)
  {
    match e
    case Called(c) => CallAccounts(s, c, m, t);
    case Begin => BeginAccounts(s, m, t);
    case Attempted(a) => AttemptAccounts(s, a, m, t);
    case Answered(a) => AnswerAccounts(s, a, m, t);
    case _ =>
  }

  /** Step j abandoned target t of m, and the key has held it ever since. */
  predicate HeldSince(states: seq<State>, events: seq<Event>, j: nat, k: nat, m: Method, t: Target)
    requires j < k < |states| && k <= |events|
  {
    Abandons(states[j], events[j], m, t) && forall i :: j < i <= k ==> Holds(states[i], m, t)
  }

  lemma IsBounded(states: seq<State>, events: seq<Event>, k: nat)
    requires Run(states, events) && k < |states|
    ensures Bounded(states[k])
  {
    RunInv(states, events, k);
  }

  lemma {:induction false} HeldOrigin(states: seq<State>, events: seq<Event>, k: nat, m: Method, t: Target) returns (j: nat)
    requires Run(states, events) && k < |states|
    requires Holds(states[k], m, t) && t in states[k].past.minted && !Answering(states[k], m, t)
    ensures j < k && HeldSince(states, events, j, k, m, t)
  {
    assert Steps(states, events, k - 1);
    var s, e := states[k - 1], events[k - 1];
    IsBounded(states, events, k - 1);
    StepAccounts(s, e, m, t);
    if Abandons(s, e, m, t) {
      j := k - 1;
    } else {
      j := HeldOrigin(states, events, k - 1, m, t);
    }
  }

  // ---------------------------------------------------------------------------------------------
  // Own targets

  /** Every target the socket works with was minted by it. */
  predicate Own(s: State) {
    && (forall m :: m in s.registrations ==> s.registrations[m] in s.past.minted)
    && (s.running.Stored? || s.running.Deleting? ==> s.running.target in s.past.minted)
    && (s.running.Refreshing? || s.running.Closing? ==>
          forall m :: m in s.running.snapshot ==> s.running.snapshot[m] in s.past.minted)
  }

  /** What may be applied late was minted by this socket. */
  predicate LateOwn(s: State) {
    forall late :: late in s.past.late ==> late.registration.target in s.past.minted
  }

  lemma BeginKeepsOwn(s: State)
    requires Own(s) && s.running.Idle? && s.queue != []
    ensures Own(Dequeue(s)) && Dequeue(s).past.minted == s.past.minted
  {
    BeginFrame(s);
  }

  lemma BeginFrame(s: State)
    requires s.running.Idle? && s.queue != []
    ensures var n := Dequeue(s);
            && n.store == s.store && n.past.minted == s.past.minted
            && (forall m :: m in n.registrations ==> m in s.registrations && n.registrations[m] == s.registrations[m])
            && !n.running.Stored? && !n.running.Recorded?
            && (n.running.Deleting? ==> n.running.m in s.registrations && n.running.target == s.registrations[n.running.m])
            && (n.running.Refreshing? || n.running.Closing? ==> n.running.snapshot == s.registrations)
  {
    var n := Dequeue(s);
    match s.queue[0]
    case Register(_) => assert n.registrations == s.registrations;
    case Unregister(m) => assert forall x :: x in n.registrations ==> x in s.registrations && n.registrations[x] == s.registrations[x];
    case Refresh => assert n.registrations == s.registrations;
    case Close =>
  }

  lemma AttemptKeepsOwn(s: State, a: Attempt)
    requires Own(s) && CanAttempt(s, a)
    ensures Own(OnAttempt(s, a)) && s.past.minted <= OnAttempt(s, a).past.minted
  {
  }

  lemma AnswerKeepsOwn(s: State, a: Answer)
    requires Own(s) && CanAnswer(s.running, a)
    ensures Own(OnAnswer(s, a)) && OnAnswer(s, a).past.minted == s.past.minted
  {
  }

  lemma StepKeepsOwn(s: State, e: Event)
    requires Own(s) && Enabled(s, e)
    ensures Own(Apply(s, e)) && s.past.minted <= Apply(s, e).past.minted
  {
    match e
    case Called(c) => assert Own(OnCall(s, c)) && OnCall(s, c).past.minted == s.past.minted;
    case Begin => BeginKeepsOwn(s);
    case Attempted(a) => AttemptKeepsOwn(s, a);
    case Answered(a) => AnswerKeepsOwn(s, a);
    case _ =>
  }

  lemma StepKeepsLateOwn(s: State, e: Event)
    requires Own(s) && LateOwn(s) && Enabled(s, e)
    ensures LateOwn(Apply(s, e))
  {
    match e
    case Called(c) => assert LateOwn(OnCall(s, c));
    case Begin => assert LateOwn(Dequeue(s));
    case Attempted(a) => assert LateOwn(OnAttempt(s, a));
    case Answered(a) => assert LateOwn(OnAnswer(s, a));
    case Applied(late) => assert LateOwn(OnLate(s, late));
    case World(_) =>
  }

  lemma {:induction false} AllOwn(states: seq<State>, events: seq<Event>, k: nat)
    requires Run(states, events) && k < |states|
    ensures Own(states[k]) && LateOwn(states[k])
  {
    if k > 0 {
      assert Steps(states, events, k - 1);
      AllOwn(states, events, k - 1);
      StepKeepsOwn(states[k - 1], events[k - 1]);
      StepKeepsLateOwn(states[k - 1], events[k - 1]);
    }
  }

  lemma {:induction false} MintedGrows(states: seq<State>, events: seq<Event>, j: nat, k: nat)
    requires Run(states, events) && j <= k < |states|
    ensures states[j].past.minted <= states[k].past.minted
    decreases k
  {
    if j < k {
      assert Steps(states, events, k - 1);
      MintedGrows(states, events, j, k - 1);
      AllOwn(states, events, k - 1);
      StepKeepsOwn(states[k - 1], events[k - 1]);
    }
  }

  // ---------------------------------------------------------------------------------------------
  // After the close

  lemma StepKeepsClosed(s: State, e: Event)
    requires Enabled(s, e) && s.past.closed
    ensures Apply(s, e).past.closed
  {
    match e
    case Called(c) => assert OnCall(s, c).past.closed;
    case Begin => assert Dequeue(s).past.closed;
    case Attempted(a) => assert OnAttempt(s, a).past.closed;
    case Answered(a) => assert OnAnswer(s, a).past.closed;
    case _ =>
  }

  lemma {:induction false} ClosedStays(states: seq<State>, events: seq<Event>, i: nat, k: nat)
    requires Run(states, events) && i <= k < |states| && states[i].past.closed
    ensures states[k].past.closed
    decreases k - i
  {
    if i < k {
      assert Steps(states, events, k - 1);
      ClosedStays(states, events, i, k - 1);
      StepKeepsClosed(states[k - 1], events[k - 1]);
    }
  }

  /** In every run, once the close operation has taken the map it is and stays empty; and when no
      operation is under way a key then holds a target of this socket exactly when some earlier drop,
      failed command or late application concerned it and the key has held it ever since. */
  lemma CloseCleansUp(states: seq<State>, events: seq<Event>, i: nat, k: nat, m: Method)
    requires Run(states, events) && i <= k < |states| && states[i].past.closed
    ensures states[k].registrations == map[]
    ensures states[k].running.Idle? ==>
              (Mine(states[k], states[k].store, m) <==>
               exists j, t :: 0 <= j < k && HeldSince(states, events, j, k, m, t))
  {
    ClosedStays(states, events, i, k);
    RunInv(states, events, k);
    if states[k].running.Idle? && Mine(states[k], states[k].store, m) {
      var j := HeldOrigin(states, events, k, m, states[k].store[m].target);
    }
    forall j, t | 0 <= j < k && HeldSince(states, events, j, k, m, t) ensures Mine(states[k], states[k].store, m) {
      AbandonedIsOwn(states, events, j, m, t);
      MintedGrows(states, events, j, k);
      assert Holds(states[k], m, t);
    }
  }

  lemma AbandonedIsOwn(states: seq<State>, events: seq<Event>, j: nat, m: Method, t: Target)
    requires Run(states, events) && j < |events| && Abandons(states[j], events[j], m, t)
    ensures t in states[j].past.minted
  {
    assert Steps(states, events, j);
    AllOwn(states, events, j);
  }

  /** Another writer changes the key of m, or this socket registers m again. */
  predicate Touches(s: State, e: Event, m: Method) {
    || (e.World? && Get(e.next, m) != Get(s.store, m))
    || (e.Attempted? && e.attempt.SetApplied? && s.running.Attempting? && s.running.m == m)
  }

  lemma CallsKeepStore(s: State, e: Event)
    requires Enabled(s, e) && (e.Called? || e.Begin?)
    ensures Apply(s, e).store == s.store
  {
    match e
    case Called(c) => assert OnCall(s, c).store == s.store;
    case Begin => assert Dequeue(s).store == s.store;
  }

  /** The answer to a delete of what the key holds, or to a refresh the key accepts. */
  predicate Overwrites(s: State, a: Answer, m: Method)
    requires CanAnswer(s.running, a)
  {
    match a
    case Deleted(_, _) => s.running.m == m && Holds(s, m, s.running.target)
    case ClosedAll(_, _) => m in s.running.snapshot && Holds(s, m, s.running.snapshot[m])
    case Refreshed(_, _) => m in s.running.snapshot && Accepts(Get(s.store, m), s.running.snapshot[m])
    case _ => false
  }

  lemma AnswerAlters(s: State, a: Answer, m: Method)
    requires CanAnswer(s.running, a)
    ensures Get(OnAnswer(s, a).store, m) == Get(s.store, m) || Overwrites(s, a, m)
  {
  }

  /** What ends it: another writer, a new registration, a command in doubt, a delete of what the key
      holds, or a refresh it accepts. */
  lemma OnlyTheseAlter(s: State, e: Event, m: Method)
    requires Enabled(s, e)
    ensures || Get(Apply(s, e).store, m) == Get(s.store, m)
            || Touches(s, e, m)
            || (e.Applied? && e.late.registration.key == m)
            || (e.Answered? && Overwrites(s, e.answer, m))
  {
    match e
    case Called(_) => CallsKeepStore(s, e);
    case Begin => CallsKeepStore(s, e);
    case Attempted(_) =>
    case Answered(a) => AnswerAlters(s, a, m);
    case Applied(_) =>
    case World(_) =>
  }

  // ---------------------------------------------------------------------------------------------
  // When all commands succeed

  /** A command that did not report success. */
  predicate Fails(e: Event) {
    || (e.Attempted? && (e.attempt.ThrowsInDoubt? || e.attempt == SetAnswered(false)))
    || (e.Answered? && match e.answer
                       case Deleted(_, ok) => !ok
                       case Refreshed(_, ok) => !ok
                       case ClosedAll(_, ok) => !ok
                       case _ => false)
  }

  predicate AllSucceed(events: seq<Event>) {
    forall i :: 0 <= i < |events| ==> !Fails(events[i])
  }

  lemma StepKeepsCertain(s: State, e: Event)
    requires Enabled(s, e) && !Fails(e)
    ensures Apply(s, e).past.late <= s.past.late
  {
    match e
    case Called(c) => assert OnCall(s, c).past.late == s.past.late;
    case Begin => assert Dequeue(s).past.late == s.past.late;
    case Attempted(a) => assert OnAttempt(s, a).past.late == s.past.late;
    case Answered(a) => assert OnAnswer(s, a).past.late == s.past.late;
    case _ =>
  }

  lemma {:induction false} NothingLate(states: seq<State>, events: seq<Event>, k: nat)
    requires Run(states, events) && AllSucceed(events) && k < |states|
    ensures states[k].past.late == {}
  {
    if k > 0 {
      assert Steps(states, events, k - 1);
      NothingLate(states, events, k - 1);
      StepKeepsCertain(states[k - 1], events[k - 1]);
    }
  }

  /** The socket has nothing to do with m but, possibly, registering it anew. */
  predicate Absent(s: State, m: Method) {
    && m !in s.registrations
    && !((s.running.Stored? || s.running.Recorded? || s.running.Deleting?) && s.running.m == m)
    && (s.running.Refreshing? || s.running.Closing? ==> m !in s.running.snapshot)
  }

  lemma CallKeepsAbsent(s: State, c: Call, m: Method)
    requires Absent(s, m)
    ensures Absent(OnCall(s, c), m) && OnCall(s, c).store == s.store
  {
  }

  lemma BeginKeepsAbsent(s: State, m: Method)
    requires Absent(s, m) && s.running.Idle? && s.queue != []
    ensures Absent(Dequeue(s), m) && Dequeue(s).store == s.store
  {
    BeginFrame(s);
  }

  lemma AttemptSpares(s: State, a: Attempt, m: Method)
    requires Absent(s, m) && CanAttempt(s, a) && !Touches(s, Attempted(a), m)
    ensures Absent(OnAttempt(s, a), m) && Get(OnAttempt(s, a).store, m) == Get(s.store, m)
  {
  }

  lemma AnswerSpares(s: State, a: Answer, m: Method)
    requires Absent(s, m) && CanAnswer(s.running, a)
    ensures Absent(OnAnswer(s, a), m) && Get(OnAnswer(s, a).store, m) == Get(s.store, m)
  {
  }

  lemma AbsentStays(s: State, e: Event, m: Method)
    requires Absent(s, m) && Enabled(s, e) && !Touches(s, e, m) && !e.Applied?
    ensures Absent(Apply(s, e), m) && Get(Apply(s, e).store, m) == Get(s.store, m)
  {
    match e
    case Called(c) => CallKeepsAbsent(s, c, m);
    case Begin => BeginKeepsAbsent(s, m);
    case Attempted(a) => AttemptSpares(s, a, m);
    case Answered(a) => AnswerSpares(s, a, m);
    case World(_) =>
  }

  /** At step j a refresh found the ownership lost while Redis still held the target it dropped for m,
      and up to k neither another writer nor a new registration touched the key. */
  predicate LeftBehind(states: seq<State>, events: seq<Event>, j: nat, k: nat, m: Method)
    requires j < k < |states| && k <= |events|
  {
    && Drops(states[j], events[j], m)
    && Get(states[j].store, m) == Some(Encoded(states[j].running.snapshot[m]))
    && forall i :: j < i < k ==> !Touches(states[i], events[i], m)
  }

  lemma {:induction false} DroppedStays(states: seq<State>, events: seq<Event>, j: nat, k: nat, m: Method)
    requires Run(states, events) && AllSucceed(events) && j < k < |states| && LeftBehind(states, events, j, k, m)
    ensures Absent(states[k], m) && Get(states[k].store, m) == Get(states[j].store, m)
    decreases k
  {
    assert Steps(states, events, k - 1);
    var s, e := states[k - 1], events[k - 1];
    RunInv(states, events, k - 1);
    if j < k - 1 {
      DroppedStays(states, events, j, k - 1, m);
      NothingLate(states, events, k - 1);
      AbsentStays(s, e, m);
    }
  }

  /** In a run whose commands all succeed, after the close a key holds a target of this socket exactly
      when a refresh that found the ownership lost left it there. */
  lemma LeftBehindIff(states: seq<State>, events: seq<Event>, k: nat, m: Method)
    requires Run(states, events) && AllSucceed(events) && k < |states|
    requires states[k].past.closed && states[k].running.Idle?
    ensures Mine(states[k], states[k].store, m) <==> exists j :: 0 <= j < k && LeftBehind(states, events, j, k, m)
  {
    CloseCleansUp(states, events, k, k, m);
    forall j, t | 0 <= j < k && HeldSince(states, events, j, k, m, t) ensures LeftBehind(states, events, j, k, m) {
      HeldIsLeftBehind(states, events, j, k, m, t);
    }
    forall j | 0 <= j < k && LeftBehind(states, events, j, k, m)
      ensures HeldSince(states, events, j, k, m, states[j].running.snapshot[m])
    {
      forall i | j < i <= k ensures Holds(states[i], m, states[j].running.snapshot[m]) {
        DroppedStays(states, events, j, i, m);
      }
    }
  }

  lemma HeldIsLeftBehind(states: seq<State>, events: seq<Event>, j: nat, k: nat, m: Method, t: Target)
    requires Run(states, events) && AllSucceed(events) && j < k < |states| && HeldSince(states, events, j, k, m, t)
    ensures LeftBehind(states, events, j, k, m)
  {
    assert Steps(states, events, j) && !Fails(events[j]) && Holds(states[j + 1], m, t);
    NothingLate(states, events, j);
    forall i | j < i < k ensures !Touches(states[i], events[i], m) {
      assert Steps(states, events, i) && Holds(states[i], m, t) && Holds(states[i + 1], m, t);
    }
  }

  /** So a socket that never lost the ownership during a refresh, and whose commands all succeed,
      leaves nothing. */
  lemma UndisturbedCloseLeavesNothing(states: seq<State>, events: seq<Event>, k: nat, m: Method)
    requires Run(states, events) && AllSucceed(events) && k < |states|
    requires forall i :: 0 <= i < |events| ==> events[i] != Answered(RefreshNotOwner)
    requires states[k].past.closed && states[k].running.Idle?
    ensures !Mine(states[k], states[k].store, m)
  {
    LeftBehindIff(states, events, k, m);
  }

  // ---------------------------------------------------------------------------------------------
  // Runs that leave something

  /** A run may go on with any enabled event, and keeps succeeding if the event does not fail. */
  lemma Continue(states: seq<State>, events: seq<Event>, e: Event) returns (more: seq<State>, rest: seq<Event>)
    requires Run(states, events) && Enabled(states[|events|], e)
    ensures rest == events + [e] && more == states + [Apply(states[|events|], e)] && Run(more, rest)
    ensures AllSucceed(events) && !Fails(e) ==> AllSucceed(rest)
  {
    more, rest := states + [Apply(states[|events|], e)], events + [e];
    forall i: nat | i < |rest| ensures Steps(more, rest, i) {
      assert i < |events| ==> Steps(states, events, i);
    }
  }

  /** One register call, waiting for its owner fence. */
  function Attempting(m: Method, limit: nat): State {
    State(limit, map[], {}, false, [], Phase.Attempting(m), map[], History({}, map[m := true], false, {}, {}))
  }

  lemma ReachAttempting(m: Method, limit: nat) returns (states: seq<State>, events: seq<Event>)
    requires limit > 0
    ensures Run(states, events) && states[|events|] == Attempting(m, limit)
    ensures events == [Called(CallRegister(m)), Begin, Attempted(CheckLoop)]
  {
    var s0 := State(limit, map[], {}, false, [], Idle, map[], History({}, map[], false, {}, {}));
    states, events := Continue([s0], [], Called(CallRegister(m)));
    assert states[1] == s0.(queue := [Register(m)], past := s0.past.(lastCall := map[m := true]));
    states, events := Continue(states, events, Begin);
    assert states[2] == Attempting(m, limit).(running := Looping(m));
    states, events := Continue(states, events, Attempted(CheckLoop));
  }

  function Registered(m: Method, t: Target, limit: nat): State {
    State(limit, map[m := t], {}, false, [], Idle, map[m := Encoded(t)], History({t}, map[m := true], false, {}, {}))
  }

  lemma ReachRegistered(m: Method, t: Target, limit: nat) returns (states: seq<State>, events: seq<Event>)
    requires limit > 0
    ensures Run(states, events) && states[|events|] == Registered(m, t, limit) && AllSucceed(events)
  {
    states, events := ReachAttempting(m, limit);
    states, events := Continue(states, events, Attempted(SetApplied(t)));
    assert states[|events|] == Registered(m, t, limit).(registrations := map[], running := Stored(m, t));
    states, events := Continue(states, events, Attempted(SetAnswered(true)));
    assert states[|events|] == Registered(m, t, limit).(running := Recorded(m));
    states, events := Continue(states, events, Attempted(FenceCommitted(true)));
  }

  function DroppedState(m: Method, t: Target, limit: nat): State {
    State(limit, map[], {}, false, [], Idle, map[m := Encoded(t)],
          History({t}, map[m := true], false, {m}, {}))
  }

  lemma ReachDropped(m: Method, t: Target, limit: nat) returns (states: seq<State>, events: seq<Event>)
    requires limit > 0
    ensures Run(states, events) && states[|events|] == DroppedState(m, t, limit) && AllSucceed(events)
  {
    var s := Registered(m, t, limit);
    states, events := ReachRegistered(m, t, limit);
    states, events := Continue(states, events, Called(CallRefresh));
    assert states[|events|] == s.(queue := [Refresh]) && m in s.registrations;
    states, events := Continue(states, events, Begin);
    assert states[|events|] == s.(running := Refreshing(map[m := t]));
    assert map[m := t].Keys == {m};
    states, events := Continue(states, events, Answered(RefreshNotOwner));
  }

  /** Closing with an empty map deletes nothing. */
  lemma CloseEmpty(states: seq<State>, events: seq<Event>) returns (more: seq<State>, rest: seq<Event>)
    requires Run(states, events) && !states[|events|].closing && states[|events|].running.Idle?
    requires states[|events|].queue == [] && states[|events|].registrations == map[]
    ensures Run(more, rest) && rest == events + [Called(CallClose), Begin, Answered(ClosedAll(true, true))]
    ensures var s := states[|events|];
            more[|rest|] == s.(closing := true, cancelled := {}, past := s.past.(closed := true))
  {
    var s := states[|events|];
    more, rest := Continue(states, events, Called(CallClose));
    assert more[|rest|] == s.(closing := true, queue := [Close]);
    more, rest := Continue(more, rest, Begin);
    assert more[|rest|] == s.(closing := true, cancelled := {}, running := Closing(map[]), past := s.past.(closed := true));
    assert DeleteMap(s.store, map[]) == s.store;
    more, rest := Continue(more, rest, Answered(ClosedAll(true, true)));
  }

  /** A refresh that finds the ownership lost leaves its key behind after the close, although every
      Redis command of the run succeeded: for every method, target and limit there is such a run. */
  lemma LostOwnershipLeavesKey(m: Method, t: Target, limit: nat) returns (states: seq<State>, events: seq<Event>)
    requires limit > 0
    ensures Run(states, events) && AllSucceed(events)
    ensures var s := states[|events|];
            s.past.closed && s.running.Idle? && s.queue == [] && Mine(s, s.store, m) && s.store[m] == Encoded(t)
  {
    states, events := ReachDropped(m, t, limit);
    states, events := CloseEmpty(states, events);
  }

  /** The socket has given m up, and a SET for it may still be applied. */
  function GivenUp(m: Method, t: Target, limit: nat): State {
    State(limit, map[], {}, false, [], Idle, map[],
          History({t}, map[m := false], false, {}, {Late(Registration(m, t), false)}))
  }

  lemma ReachInDoubt(m: Method, t: Target, limit: nat) returns (states: seq<State>, events: seq<Event>)
    requires limit > 0
    ensures Run(states, events) && Answered(RefreshNotOwner) !in events
    ensures states[|events|] == GivenUp(m, t, limit).(running := Caught(m), cancelled := {m}, queue := [Unregister(m)])
  {
    var s := GivenUp(m, t, limit);
    states, events := ReachAttempting(m, limit);
    states, events := Continue(states, events, Attempted(ThrowsInDoubt(t)));
    assert states[|events|] == s.(running := Caught(m), past := s.past.(lastCall := map[m := true]));
    states, events := Continue(states, events, Called(CallUnregister(m)));
  }

  lemma ReachGivenUp(m: Method, t: Target, limit: nat) returns (states: seq<State>, events: seq<Event>)
    requires limit > 0
    ensures Run(states, events) && states[|events|] == GivenUp(m, t, limit) && Answered(RefreshNotOwner) !in events
  {
    states, events := ReachInDoubt(m, t, limit);
    states, events := Continue(states, events, Attempted(Settle));
    assert states[|events|] == GivenUp(m, t, limit).(queue := [Unregister(m)]);
    states, events := Continue(states, events, Begin);
  }

  /** A SET that reported an error may be applied after the close and then stays, though no refresh
      lost the ownership. */
  lemma LateSetOutlivesClose(m: Method, t: Target, limit: nat) returns (states: seq<State>, events: seq<Event>)
    requires limit > 0
    ensures Run(states, events) && Answered(RefreshNotOwner) !in events
    ensures var s := states[|events|];
            && s.past.closed && s.running.Idle? && s.queue == []
            && Mine(s, s.store, m) && s.store[m] == Encoded(t)
  {
    states, events := ReachGivenUp(m, t, limit);
    states, events := CloseEmpty(states, events);
    states, events := Continue(states, events, Applied(Late(Registration(m, t), false)));
  }
}
