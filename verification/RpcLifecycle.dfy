/** One socket's registration lifecycle: calls mark and enqueue synchronously, one queued operation
    runs at a time, and calls, other sockets and Redis loss may come in at every await. */
module RpcLifecycle {
  import opened Sql
  import opened RpcRegistry

  type Method = string

  datatype Op = Register(m: Method) | Unregister(m: Method) | Refresh | Close

  /** Where the running operation is suspended. */
  datatype Phase =
    | Idle
    | Looping(m: Method)                              // register: at the loop condition
    | Attempting(m: Method)                           // waiting for the owner fence and SET
    | Stored(m: Method, target: Target)               // SET done, answer on its way
    | Recorded(m: Method)                             // in the map, fence transaction committing
    | Caught(m: Method)                               // an attempt threw
    | Deleting(m: Method, target: Target)             // unregister: compare-delete under way
    | Refreshing(snapshot: map<Method, Target>)
    | Closing(snapshot: map<Method, Target>)

  /** What happened so far, as far as the properties speak of it. */
  datatype History = History(
    minted: set<Target>,         // every target this socket created
    lastCall: map<Method, bool>, // true: the last call for the method was register
    closed: bool,                // the close operation has taken the map
    lost: set<Method>,           // refused, or dropped by a refresh, since the last operation for it began
    late: set<Late>)             // commands that reported an error and may still be applied

  /** A refresh in doubt stores its target only where the script accepts it, a SET in any case. */
  datatype Late = Late(registration: Registration, refresh: bool)

  datatype State = State(
    limit: nat,
    registrations: map<Method, Target>,
    cancelled: set<Method>,
    closing: bool,
    queue: seq<Op>,
    running: Phase,
    store: Store,                // by method; the key is a hash of it
    past: History)

  /** Synchronous calls from the socket's event handlers. */
  datatype Call = CallRegister(m: Method) | CallUnregister(m: Method) | CallRefresh | CallClose

  /** Steps of a running register. */
  datatype Attempt =
    | CheckLoop
    | SetApplied(target: Target)
    | Throws                          // before anything was sent
    | ThrowsInDoubt(target: Target)   // the SET may still be applied later
    | OwnerBusy
    | NotOwner
    | SetAnswered(ok: bool)
    | FenceCommitted(ok: bool)
    | Settle

  /** Completions of the other operations. A command may be applied and still report an error. */
  datatype Answer =
    | Deleted(applied: bool, ok: bool)
    | RefreshBusy
    | RefreshNotOwner
    | Refreshed(applied: bool, ok: bool)
    | ClosedAll(applied: bool, ok: bool)

  datatype Event =
    | Called(call: Call)
    | Begin
    | Attempted(attempt: Attempt)
    | Answered(answer: Answer)
    | Applied(late: Late)        // a command in doubt takes effect
    | World(next: Store)         // other sockets, expiry, loss of Redis data

  function RefreshMap(store: Store, snapshot: map<Method, Target>): Store {
    store + map m | m in snapshot && Accepts(Get(store, m), snapshot[m]) :: Encoded(snapshot[m])
  }

  function DeleteMap(store: Store, snapshot: map<Method, Target>): Store {
    map m | m in store && !(m in snapshot && store[m] == Encoded(snapshot[m])) :: store[m]
  }

  /** The registrations of a snapshot, listed in some order. */
  predicate Lists(rs: seq<Registration>, snapshot: map<Method, Target>) {
    && (forall r :: r in rs ==> r.key in snapshot && snapshot[r.key] == r.target)
    && (forall m :: m in snapshot ==> Registration(m, snapshot[m]) in rs)
    && (forall i, j :: 0 <= i < j < |rs| ==> rs[i].key != rs[j].key)
  }

  lemma {:induction false} ScriptsAt(store: Store, rs: seq<Registration>, i: nat)
    requires i < |rs| && forall i, j :: 0 <= i < j < |rs| ==> rs[i].key != rs[j].key
    ensures Get(RefreshAll(store, rs), rs[i].key) == Get(RpcRegistry.Refresh(store, rs[i]), rs[i].key)
    ensures Get(DeleteAll(store, rs), rs[i].key) == Get(Delete(store, rs[i]), rs[i].key)
  {
    var n := |rs| - 1;
    if i < n {
      ScriptsAt(store, rs[..n], i);
    } else {
      OthersUntouched(store, rs[..n], rs[n].key);
    }
  }

  /** The batch scripts do to a snapshot, in whatever order it is listed, what these maps say. */
  lemma ScriptsOnSnapshot(store: Store, rs: seq<Registration>, snapshot: map<Method, Target>)
    requires Lists(rs, snapshot)
    ensures forall m :: Get(RefreshAll(store, rs), m) == Get(RefreshMap(store, snapshot), m)
    ensures forall m :: Get(DeleteAll(store, rs), m) == Get(DeleteMap(store, snapshot), m)
  {
    forall m
      ensures Get(RefreshAll(store, rs), m) == Get(RefreshMap(store, snapshot), m)
      ensures Get(DeleteAll(store, rs), m) == Get(DeleteMap(store, snapshot), m)
    {
      if m in snapshot {
        var i :| 0 <= i < |rs| && rs[i] == Registration(m, snapshot[m]);
        ScriptsAt(store, rs, i);
      } else {
        forall i | 0 <= i < |rs| ensures rs[i].key != m {
          assert rs[i] in rs;
        }
        OthersUntouched(store, rs, m);
      }
    }
  }

  predicate Mine(s: State, store: Store, m: Method) {
    m in store && store[m].Encoded? && store[m].target in s.past.minted
  }

  predicate CanAttempt(s: State, a: Attempt) {
    var p := s.running;
    match a
    case CheckLoop => p.Looping?
    case SetApplied(target) => p.Attempting? && Unseen(s, target)
    case Throws => p.Attempting?
    case ThrowsInDoubt(target) => p.Attempting? && Unseen(s, target)
    case OwnerBusy => p.Attempting?
    case NotOwner => p.Attempting?
    case SetAnswered(_) => p.Stored?
    case FenceCommitted(_) => p.Recorded?
    case Settle => p.Caught?
  }

  /** A generation contains a fresh uuid. */
  predicate Unseen(s: State, target: Target) {
    target !in s.past.minted && forall m :: m in s.store ==> s.store[m] != Encoded(target)
  }

  predicate CanAnswer(p: Phase, a: Answer) {
    match a
    case Deleted(applied, ok) => p.Deleting? && (ok ==> applied)
    case RefreshBusy => p.Refreshing?
    case RefreshNotOwner => p.Refreshing?
    case Refreshed(applied, ok) => p.Refreshing? && (ok ==> applied)
    case ClosedAll(applied, ok) => p.Closing? && (ok ==> applied)
  }

  predicate Enabled(s: State, e: Event) {
    match e
    case Called(_) => true
    case Begin => s.running.Idle? && s.queue != []
    case Attempted(a) => CanAttempt(s, a)
    case Answered(a) => CanAnswer(s.running, a)
    case Applied(late) => late in s.past.late
    case World(next) => forall m :: m in next && Mine(s, next, m) ==> m in s.store && s.store[m] == next[m]
  }

  function OnCall(s: State, c: Call): State {
    match c
    case CallRegister(m) =>
      s.(cancelled := s.cancelled - {m}, queue := s.queue + [Register(m)],
         past := s.past.(lastCall := s.past.lastCall[m := true]))
    case CallUnregister(m) =>
      s.(cancelled := s.cancelled + {m}, queue := s.queue + [Unregister(m)],
         past := s.past.(lastCall := s.past.lastCall[m := false]))
    case CallRefresh =>
      if Refresh in s.queue || s.running.Refreshing? then s else s.(queue := s.queue + [Refresh])
    case CallClose =>
      if s.closing then s else s.(closing := true, queue := s.queue + [Close])
  }

  function Dequeue(s: State): State
    requires s.queue != []
  {
    var t := s.(queue := s.queue[1..]);
    match s.queue[0]
    case Register(m) =>
      if s.closing then t
      else if m !in s.registrations && |s.registrations| >= s.limit then t.(past := s.past.(lost := s.past.lost + {m}))
      else t.(running := Looping(m), past := s.past.(lost := s.past.lost - {m}))
    case Unregister(m) =>
      var past := s.past.(lost := s.past.lost - {m});
      if m in s.registrations then
        t.(registrations := s.registrations - {m}, running := Deleting(m, s.registrations[m]), past := past)
      else t.(cancelled := s.cancelled - {m}, past := past)
    case Refresh =>
      if s.closing || s.registrations == map[] then t else t.(running := Refreshing(s.registrations))
    case Close =>
      t.(registrations := map[], cancelled := {}, running := Closing(s.registrations),
         past := s.past.(closed := true))
  }

  /** The register loop ends without success. */
  function GiveUp(s: State, m: Method): State {
    s.(running := Idle, cancelled := s.cancelled - {m})
  }

  function OnAttempt(s: State, a: Attempt): State
    requires CanAttempt(s, a)
  {
    var m := s.running.m;
    match a
    case CheckLoop =>
      if s.closing || m in s.cancelled then GiveUp(s, m) else s.(running := Attempting(m))
    case SetApplied(target) =>
      s.(store := s.store[m := Encoded(target)], running := Stored(m, target),
         past := s.past.(minted := s.past.minted + {target}))
    case Throws => s.(running := Caught(m))
    case ThrowsInDoubt(target) =>
      s.(running := Caught(m),
         past := s.past.(minted := s.past.minted + {target}, late := s.past.late + {Late(Registration(m, target), false)}))
    case OwnerBusy => s.(running := Looping(m))
    case NotOwner => GiveUp(s, m).(past := s.past.(lost := s.past.lost + {m}))
    case SetAnswered(ok) =>
      if ok then s.(registrations := s.registrations[m := s.running.target], running := Recorded(m))
      else s.(running := Caught(m))
    case FenceCommitted(ok) => s.(running := if ok then Idle else Caught(m))
    case Settle =>
      if s.closing || m in s.cancelled then GiveUp(s, m) else s.(running := Looping(m))
  }

  /** A refresh that reported an error without having been applied yet. */
  function InDoubt(past: History, snapshot: map<Method, Target>): History {
    past.(late := past.late + set m | m in snapshot :: Late(Registration(m, snapshot[m]), true))
  }

  function OnLate(s: State, late: Late): State {
    var r := late.registration;
    s.(store := if late.refresh && !Accepts(Get(s.store, r.key), r.target) then s.store else s.store[r.key := Encoded(r.target)],
       past := s.past.(late := s.past.late - {late}))
  }

  function OnAnswer(s: State, a: Answer): State
    requires CanAnswer(s.running, a)
  {
    match a
    case Deleted(applied, ok) =>
      s.(store := if applied then Delete(s.store, Registration(s.running.m, s.running.target)) else s.store,
         cancelled := s.cancelled - {s.running.m}, running := Idle)
    case RefreshBusy => s.(running := Idle)
    case RefreshNotOwner =>
      s.(registrations := s.registrations - s.running.snapshot.Keys, running := Idle,
         past := s.past.(lost := s.past.lost + s.running.snapshot.Keys))
    case Refreshed(applied, ok) =>
      var snapshot := s.running.snapshot;
      var after := if applied then RefreshMap(s.store, snapshot) else s.store;
      var stale := set m | m in snapshot && !HoldsTarget(after, Registration(m, snapshot[m]));
      if ok then
        s.(store := after, registrations := s.registrations - stale, running := Idle,
           past := s.past.(lost := s.past.lost + stale))
      else s.(store := after, running := Idle, past := if applied then s.past else InDoubt(s.past, snapshot))
    case ClosedAll(applied, ok) =>
      s.(store := if applied then DeleteMap(s.store, s.running.snapshot) else s.store, running := Idle)
  }

  function Apply(s: State, e: Event): State
    requires Enabled(s, e)
  {
    match e
    case Called(c) => OnCall(s, c)
    case Begin => Dequeue(s)
    case Attempted(a) => OnAttempt(s, a)
    case Answered(a) => OnAnswer(s, a)
    case Applied(late) => OnLate(s, late)
    case World(next) => s.(store := next)
  }

  predicate Start(s: State) {
    && s.limit > 0 && s.registrations == map[] && s.cancelled == {} && !s.closing && s.queue == [] && s.running.Idle?
    && s.past == History({}, map[], false, {}, {})
  }

  predicate Steps(states: seq<State>, events: seq<Event>, i: nat) {
    i < |events| && i + 1 < |states| && Enabled(states[i], events[i]) && states[i + 1] == Apply(states[i], events[i])
  }

  predicate Run(states: seq<State>, events: seq<Event>) {
    && |states| == |events| + 1
    && Start(states[0])
    && forall i: nat :: i < |events| ==> Steps(states, events, i)
  }

  // ---------------------------------------------------------------------------------------------
  // The last call decides

  function OpFor(op: Op, m: Method): Option<bool> {
    if op == Register(m) then Some(true) else if op == Unregister(m) then Some(false) else None
  }

  /** Whether the last register or unregister of m in the list is a register. */
  function Last(ops: seq<Op>, m: Method): Option<bool> {
    if ops == [] then None
    else if Last(ops[1..], m).Some? then Last(ops[1..], m)
    else OpFor(ops[0], m)
  }

  function CurrentFor(p: Phase, m: Method): Option<bool> {
    if p.Idle? || p.Refreshing? || p.Closing? || p.m != m then None else Some(!p.Deleting?)
  }

  /** What the outstanding operations will finally make of m. */
  function Outstanding(s: State, m: Method): Option<bool> {
    if Last(s.queue, m).Some? then Last(s.queue, m) else CurrentFor(s.running, m)
  }

  predicate Wanted(s: State, m: Method) {
    m in s.past.lastCall && s.past.lastCall[m]
  }

  /** Either an outstanding operation will settle the method as last called, or it is settled, unless
      the last operation for it was refused or undone. */
  predicate Settling(s: State, m: Method) {
    && (m in s.cancelled ==> !Wanted(s, m))
    && (match Outstanding(s, m)
        case Some(registered) => registered == Wanted(s, m)
        case None => m in s.past.lost || (m in s.registrations <==> Wanted(s, m)))
    && (s.running.Recorded? && s.running.m == m ==> m in s.registrations)
    && (s.running.Deleting? && s.running.m == m ==> m !in s.registrations)
  }

  lemma {:induction false} LastOfAppend(ops: seq<Op>, op: Op, m: Method)
    ensures Last(ops + [op], m) == if OpFor(op, m).Some? then OpFor(op, m) else Last(ops, m)
  {
    if ops == [] {
      assert ops + [op] == [op];
    } else {
      LastOfAppend(ops[1..], op, m);
      assert (ops + [op])[1..] == ops[1..] + [op];
    }
  }

  lemma CallKeepsSettling(s: State, c: Call, m: Method)
    requires Settling(s, m)
    ensures Settling(OnCall(s, c), m)
  {
    var t := OnCall(s, c);
    if t.queue != s.queue {
      LastOfAppend(s.queue, t.queue[|s.queue|], m);
    }
  }

  lemma BeginRegisterSettles(s: State, m: Method)
    requires Settling(s, m) && !s.closing && s.running.Idle? && s.queue != [] && s.queue[0].Register?
    ensures Settling(Dequeue(s), m)
  {
    assert Last(s.queue, m) == if Last(s.queue[1..], m).Some? then Last(s.queue[1..], m) else OpFor(s.queue[0], m);
  }

  lemma BeginUnregisterSettles(s: State, m: Method)
    requires Settling(s, m) && !s.closing && s.running.Idle? && s.queue != [] && s.queue[0].Unregister?
    ensures Settling(Dequeue(s), m)
  {
    assert Last(s.queue, m) == if Last(s.queue[1..], m).Some? then Last(s.queue[1..], m) else OpFor(s.queue[0], m);
  }

  lemma BeginRefreshSettles(s: State, m: Method)
    requires Settling(s, m) && !s.closing && s.running.Idle? && s.queue != [] && s.queue[0].Refresh?
    ensures Settling(Dequeue(s), m)
  {
    assert Last(s.queue, m) == if Last(s.queue[1..], m).Some? then Last(s.queue[1..], m) else OpFor(s.queue[0], m);
  }

  lemma BeginKeepsSettling(s: State, m: Method)
    requires Settling(s, m) && !s.closing && s.running.Idle? && s.queue != [] && s.queue[0] != Close
    ensures Settling(Dequeue(s), m)
  {
    match s.queue[0]
    case Register(_) => BeginRegisterSettles(s, m);
    case Unregister(_) => BeginUnregisterSettles(s, m);
    case Refresh => BeginRefreshSettles(s, m);
  }

  lemma AttemptKeepsSettling(s: State, a: Attempt, m: Method)
    requires Settling(s, m) && !s.closing && CanAttempt(s, a)
    ensures Settling(OnAttempt(s, a), m)
  {
  }

  lemma AnswerKeepsSettling(s: State, a: Answer, m: Method)
    requires Settling(s, m) && !s.closing && CanAnswer(s.running, a) && !s.running.Closing?
    ensures Settling(OnAnswer(s, a), m)
  {
  }

  // ---------------------------------------------------------------------------------------------
  // The limit

  predicate Bounded(s: State) {
    && |s.registrations| <= s.limit
    && (s.running.Looping? || s.running.Attempting? || s.running.Stored? || s.running.Recorded? || s.running.Caught? ==>
          s.running.m in s.registrations || |s.registrations| < s.limit)
    && (s.running.Recorded? ==> s.running.m in s.registrations)
    && (s.running.Refreshing? ==> s.running.snapshot == s.registrations)
  }

  lemma Shrinks(before: map<Method, Target>, after: map<Method, Target>)
    requires after.Keys <= before.Keys
    ensures |after| <= |before|
  {
    assert before.Keys == after.Keys + (before.Keys - after.Keys);
    assert |after| == |after.Keys| && |before| == |before.Keys|;
  }

  lemma Grows(before: map<Method, Target>, m: Method, t: Target)
    ensures |before[m := t]| == if m in before then |before| else |before| + 1
  {
    assert before[m := t].Keys == before.Keys + {m};
    assert |before[m := t]| == |before[m := t].Keys| && |before| == |before.Keys|;
  }

  lemma BeginKeepsBounded(s: State)
    requires Bounded(s) && s.running.Idle? && s.queue != []
    ensures Bounded(Dequeue(s))
  {
    Shrinks(s.registrations, Dequeue(s).registrations);
  }

  lemma AttemptKeepsBounded(s: State, a: Attempt)
    requires Bounded(s) && CanAttempt(s, a)
    ensures Bounded(OnAttempt(s, a))
  {
    if a.SetAnswered? {
      Grows(s.registrations, s.running.m, s.running.target);
    }
  }

  lemma AnswerKeepsBounded(s: State, a: Answer)
    requires Bounded(s) && CanAnswer(s.running, a)
    ensures Bounded(OnAnswer(s, a))
  {
    Shrinks(s.registrations, OnAnswer(s, a).registrations);
  }

  // ---------------------------------------------------------------------------------------------
  // Closing

  predicate ClosedEmpty(s: State) {
    && (Close in s.queue ==> s.closing && !s.past.closed)
    && (forall i, j :: 0 <= i < j < |s.queue| && s.queue[i] == Close ==> s.queue[j] != Close)
    && (s.past.closed ==> s.closing && s.registrations == map[] && (s.running.Idle? || s.running.Closing?))
    && (s.running.Closing? ==> s.past.closed)
  }

  lemma CallKeepsClosed(s: State, c: Call)
    requires ClosedEmpty(s)
    ensures ClosedEmpty(OnCall(s, c))
  {
  }

  lemma BeginKeepsClosed(s: State)
    requires ClosedEmpty(s) && s.running.Idle? && s.queue != []
    ensures ClosedEmpty(Dequeue(s)) && (s.past.closed ==> Dequeue(s).past.closed)
  {
    assert s.queue[0] in s.queue;
    assert Close in s.queue[1..] ==> Close in s.queue;
  }

  // ---------------------------------------------------------------------------------------------
  // Every run

  ghost predicate Inv(s: State) {
    && Bounded(s) && ClosedEmpty(s)
    && (!s.closing ==> forall m :: Settling(s, m))
  }

  lemma CallKeepsInv(s: State, c: Call)
    requires Inv(s)
    ensures Inv(OnCall(s, c))
  {
    var t := OnCall(s, c);
    CallKeepsClosed(s, c);
    if !t.closing {
      forall m ensures Settling(t, m) { CallKeepsSettling(s, c, m); }
    }
  }

  lemma BeginKeepsInv(s: State)
    requires Inv(s) && s.running.Idle? && s.queue != []
    ensures Inv(Dequeue(s))
  {
    var t := Dequeue(s);
    BeginKeepsBounded(s);
    BeginKeepsClosed(s);
    if !t.closing {
      assert s.queue[0] in s.queue;
      forall m ensures Settling(t, m) { BeginKeepsSettling(s, m); }
    }
  }

  lemma AttemptKeepsInv(s: State, a: Attempt)
    requires Inv(s) && CanAttempt(s, a)
    ensures Inv(OnAttempt(s, a))
  {
    var t := OnAttempt(s, a);
    AttemptKeepsBounded(s, a);
    if !t.closing {
      forall m ensures Settling(t, m) { AttemptKeepsSettling(s, a, m); }
    }
  }

  lemma AnswerKeepsInv(s: State, a: Answer)
    requires Inv(s) && CanAnswer(s.running, a)
    ensures Inv(OnAnswer(s, a))
  {
    var t := OnAnswer(s, a);
    AnswerKeepsBounded(s, a);
    if !t.closing {
      forall m ensures Settling(t, m) { AnswerKeepsSettling(s, a, m); }
    }
  }

  lemma StoreKeepsInv(s: State, t: State)
    requires Inv(s) && t == s.(store := t.store, past := s.past.(late := t.past.late))
    ensures Inv(t)
  {
    if !t.closing {
      forall m ensures Settling(t, m) { assert Settling(s, m); }
    }
  }

  lemma {:induction false} RunInv(states: seq<State>, events: seq<Event>, k: nat)
    requires Run(states, events) && k < |states|
    ensures Inv(states[k])
  {
    if k > 0 {
      assert Steps(states, events, k - 1);
      var s := states[k - 1];
      RunInv(states, events, k - 1);
      match events[k - 1]
      case Called(c) => CallKeepsInv(s, c);
      case Begin => BeginKeepsInv(s);
      case Attempted(a) => AttemptKeepsInv(s, a);
      case Answered(a) => AnswerKeepsInv(s, a);
      case Applied(_) => StoreKeepsInv(s, states[k]);
      case World(_) => StoreKeepsInv(s, states[k]);
    }
  }

  /** With nothing outstanding for it, a method of an open socket is registered exactly if the last call
      for it was register, unless the last operation for it was refused or undone (see `RpcMap`). */
  lemma SettledAsWanted(states: seq<State>, events: seq<Event>, k: nat, m: Method)
    requires Run(states, events) && k < |states|
    requires Outstanding(states[k], m).None? && !states[k].closing && m !in states[k].past.lost
    ensures m in states[k].registrations <==> m in states[k].past.lastCall && states[k].past.lastCall[m]
  {
    RunInv(states, events, k);
    assert Settling(states[k], m);
  }

  /** The map never exceeds the limit. */
  lemma NeverOverLimit(states: seq<State>, events: seq<Event>, k: nat)
    requires Run(states, events) && k < |states|
    ensures |states[k].registrations| <= states[k].limit
  {
    RunInv(states, events, k);
  }
}
