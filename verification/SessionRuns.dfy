/** Whole runs of one session: lease statements, message commits, owner-locked operations and the
    clock, in any interleaving. Every SQL statement or transaction is one step; its transaction
    time may lag behind the clock by any amount. */
module SessionRuns {
  import opened Sql
  import opened Lease
  import opened MessageLog

  /** The advisory lock, as far as it outlives a step: every other user takes and frees it within
      one step. `since` is the start of the holding transaction. */
  datatype Lock = Free | Held(instance: Option<Id>, leaseId: Option<Id>, since: int)

  const OWNER_LOCK_MS := 40_000
  const SWEEP_MS := 600_000

  datatype State = State(
    lease: Lease,
    seqColumn: nat,
    log: seq<Message>,
    lock: Lock,
    now: int,
    used: set<Id>,     // every lease id ever minted
    issued: set<Id>)   // those handed to a socket by a claim

  datatype Event =
    | Db(st: Statement, ts: int)
    | Post(input: Input, postTs: int)
    | Acquire(instance: Option<Id>, leaseId: Option<Id>, since: int)
    | Release
    | Tick(to: int)

  predicate NeedsLock(st: Statement) {
    st.LiveClaim? || st.ReplayClaim? || st.Expire? || st.End?
  }

  /** A socket only ever presents a lease id that a claim gave it, and an owner-locked transaction
      is aborted OWNER_LOCK_MS after it began. */
  predicate Enabled(s: State, e: Event) {
    match e
    case Db(st, ts) => ts <= s.now && Minted(st) !! s.used && (NeedsLock(st) ==> s.lock.Free?)
    case Post(_, ts) => ts <= s.now && s.lock.Free?
    case Acquire(_, leaseId, since) =>
      since <= s.now <= since + OWNER_LOCK_MS && s.lock.Free? && (leaseId.Some? ==> leaseId.value in s.issued)
    case Release => s.lock.Held?
    case Tick(to) => s.now <= to && (s.lock.Held? ==> to <= s.lock.since + OWNER_LOCK_MS)
  }

  function Issued(l: Lease, st: Statement, ts: int): set<Id> {
    if (st.LiveClaim? || st.ReplayClaim?) && Applies(l, st, ts) then Minted(st) else {}
  }

  function Apply(s: State, e: Event): State {
    match e
    case Db(st, ts) =>
      s.(lease := Execute(s.lease, st, ts),
         used := s.used + Minted(st),
         issued := s.issued + Issued(s.lease, st, ts))
    case Post(input, ts) =>
      var outcome := Decide(s.lease, s.log, s.seqColumn, input, ts);
      if outcome.Created? then s.(seqColumn := s.seqColumn + 1, log := s.log + [outcome.message]) else s
    case Acquire(instance, leaseId, since) =>
      if Owns(s.lease, instance, leaseId, since) then s.(lock := Held(instance, leaseId, since)) else s
    case Release => s.(lock := Free)
    case Tick(to) => s.(now := to)
  }

  /** Messages written before the lease protocol carry no incarnation. */
  predicate Start(s: State) {
    && Initial(s.lease)
    && Numbered(s.log, s.seqColumn)
    && UniqueLocalIds(s.log)
    && (forall m :: m in s.log ==> m.author.User? || m.author.Legacy?)
    && s.lock.Free? && s.used == {} && s.issued == {}
  }

  predicate Steps(states: seq<State>, events: seq<Event>, i: nat) {
    i < |events| && i + 1 < |states| && Enabled(states[i], events[i]) && states[i + 1] == Apply(states[i], events[i])
  }

  predicate Run(states: seq<State>, events: seq<Event>) {
    && |states| == |events| + 1
    && Start(states[0])
    && forall i: nat :: i < |events| ==> Steps(states, events, i)
  }

  predicate Numbered(log: seq<Message>, seqColumn: nat) {
    && seqColumn == |log|
    && forall i :: 0 <= i < |log| ==> log[i].number == i + 1
  }

  predicate UniqueLocalIds(log: seq<Message>) {
    forall i, j :: 0 <= i < j < |log| && log[i].localId.Some? ==> log[i].localId != log[j].localId
  }

  function Producer(m: Message): Option<Id> {
    if m.author.Live? || m.author.Replay? then Some(m.author.instance) else None
  }

  function LeaseOf(m: Message): Option<Id> {
    if m.author.Live? || m.author.Replay? then Some(m.author.leaseId) else None
  }

  /** The order the runtime-authored messages of a session always have: legacy output first, then
      one contiguous block per incarnation and within it one per socket generation, live output
      before replay output. */
  predicate Blocks(log: seq<Message>) {
    LegacyFirst(log) && LiveBeforeReplay(log) && OneBlockPerIncarnation(log) && OneBlockPerGeneration(log)
  }

  predicate LegacyFirst(log: seq<Message>) {
    forall i, j :: 0 <= i < j < |log| && Producer(log[i]).Some? ==> !log[j].author.Legacy?
  }

  predicate LiveBeforeReplay(log: seq<Message>) {
    forall i, j :: 0 <= i < j < |log| && log[i].author.Replay? && Producer(log[i]) == Producer(log[j]) ==>
      log[j].author.Replay?
  }

  predicate OneBlockPerIncarnation(log: seq<Message>) {
    forall i, k, j :: 0 <= i < k < j < |log| && Producer(log[i]) == Producer(log[j]) && Producer(log[i]).Some? ==>
      Producer(log[k]) == Producer(log[i]) || Producer(log[k]).None?
  }

  predicate OneBlockPerGeneration(log: seq<Message>) {
    forall i, k, j :: 0 <= i < k < j < |log| && LeaseOf(log[i]) == LeaseOf(log[j]) && LeaseOf(log[i]).Some? ==>
      LeaseOf(log[k]) == LeaseOf(log[i]) || LeaseOf(log[k]).None?
  }

  // ---------------------------------------------------------------------------------------------
  // The inductive invariant

  /** A message's incarnation is the current one or terminal, its generation was minted, and a
      replay message's incarnation is retired. */
  predicate AuthorKnown(s: State, m: Message) {
    Producer(m).Some? ==>
      && s.lease.row.activeInstance.Some? && Marked(s.lease.row)
      && (Producer(m) == s.lease.row.activeInstance || s.lease.Terminal(Producer(m).value))
      && LeaseOf(m).value in s.used
      && (m.author.Replay? ==> Producer(m).value in s.lease.retired)
  }

  /** Once the current incarnation, or generation, has spoken nobody else has since. */
  predicate CurrentSuffix(s: State) {
    forall i, k :: 0 <= i < k < |s.log| && Producer(s.log[i]).Some? && Producer(s.log[k]).Some? ==>
      && (Producer(s.log[i]) == s.lease.row.activeInstance ==> Producer(s.log[k]) == Producer(s.log[i]))
      && (LeaseOf(s.log[i]) == s.lease.row.leaseId ==> LeaseOf(s.log[k]) == LeaseOf(s.log[i]))
  }

  /** A generation still held by a socket and active was renewed within one lease duration of its
      expiry; tombstones are never issued. */
  predicate LeaseTimes(s: State) {
    && (s.lease.row.leaseId.Some? ==> s.lease.row.leaseId.value in s.used)
    && s.issued <= s.used
    && (s.lease.row.active && Leased(s.lease.row) && s.lease.row.leaseId.value in s.issued ==>
          s.lease.row.leaseExpires.value <= s.lease.row.lastActiveAt + LEASE_MS)
  }

  ghost predicate Inv(s: State) {
    && Valid(s.lease)
    && Numbered(s.log, s.seqColumn)
    && UniqueLocalIds(s.log)
    && Blocks(s.log)
    && (forall m :: m in s.log ==> AuthorKnown(s, m))
    && CurrentSuffix(s)
    && LeaseTimes(s)
  }

  lemma StartInv(s: State)
    requires Start(s)
    ensures Inv(s)
  {
    forall m | m in s.log ensures Producer(m).None? {}
  }

  lemma DbKeepsInv(s: State, st: Statement, ts: int)
    requires Inv(s) && Enabled(s, Db(st, ts))
    ensures Inv(Apply(s, Db(st, ts)))
  {
    var t := Apply(s, Db(st, ts));
    ExecuteKeepsValid(s.lease, st, ts);
    ExecuteLeaseId(s.lease, st, ts);
    forall m | m in t.log ensures AuthorKnown(t, m) {
      if Producer(m).Some? {
        ExecuteKeepsRetirements(s.lease, st, ts, Producer(m).value);
        ExecuteMovesForward(s.lease, st, ts, Producer(m).value);
      }
    }
    forall i, k | 0 <= i < k < |t.log| && Producer(t.log[i]).Some? && Producer(t.log[k]).Some?
      ensures Producer(t.log[i]) == t.lease.row.activeInstance ==> Producer(t.log[k]) == Producer(t.log[i])
      ensures LeaseOf(t.log[i]) == t.lease.row.leaseId ==> LeaseOf(t.log[k]) == LeaseOf(t.log[i])
    {
      assert AuthorKnown(s, t.log[i]);
      ExecuteMovesForward(s.lease, st, ts, Producer(t.log[i]).value);
    }
  }

  lemma AppendKeepsInv(s: State, m: Message)
    requires Inv(s)
    requires m.number == s.seqColumn + 1
    requires m.localId.Some? ==> IndexOf(s.log, m.localId.value) == |s.log|
    requires m.author.Legacy? ==> s.lease.row.activeInstance.None?
    requires Producer(m).Some? ==>
               && Leased(s.lease.row) && Producer(m) == s.lease.row.activeInstance
               && LeaseOf(m) == s.lease.row.leaseId
               && (m.author.Live? <==> Producer(m).value !in s.lease.retired)
    ensures Inv(s.(seqColumn := s.seqColumn + 1, log := s.log + [m]))
  {
    var t := s.(seqColumn := s.seqColumn + 1, log := s.log + [m]);
    forall x | x in t.log ensures AuthorKnown(t, x) {
      assert x in s.log || x == m;
      assert x in s.log ==> AuthorKnown(s, x);
    }
    forall i | 0 <= i < |s.log| ensures AuthorKnown(s, s.log[i]) {}
    AppendKeepsBlocks(s, m);
  }

  lemma AppendKeepsBlocks(s: State, m: Message)
    requires Blocks(s.log) && CurrentSuffix(s)
    requires forall i :: 0 <= i < |s.log| ==> AuthorKnown(s, s.log[i])
    requires m.author.Legacy? ==> s.lease.row.activeInstance.None?
    requires Producer(m).Some? ==>
               && Producer(m) == s.lease.row.activeInstance && LeaseOf(m) == s.lease.row.leaseId
               && (m.author.Live? <==> Producer(m).value !in s.lease.retired)
    ensures Blocks(s.log + [m])
  {
    AppendKeepsPhases(s, m);
    var log := s.log + [m];
    forall i, k, j | 0 <= i < k < j < |log| && Producer(log[i]) == Producer(log[j]) && Producer(log[i]).Some?
      ensures Producer(log[k]) == Producer(log[i]) || Producer(log[k]).None?
    {
      assert log[i] == s.log[i] && log[k] == s.log[k];
      assert j < |s.log| ==> log[j] == s.log[j];
    }
    forall i, k, j | 0 <= i < k < j < |log| && LeaseOf(log[i]) == LeaseOf(log[j]) && LeaseOf(log[i]).Some?
      ensures LeaseOf(log[k]) == LeaseOf(log[i]) || LeaseOf(log[k]).None?
    {
      assert log[i] == s.log[i] && log[k] == s.log[k];
      assert j < |s.log| ==> log[j] == s.log[j];
    }
  }

  lemma AppendKeepsPhases(s: State, m: Message)
    requires LegacyFirst(s.log) && LiveBeforeReplay(s.log)
    requires forall i :: 0 <= i < |s.log| ==> AuthorKnown(s, s.log[i])
    requires m.author.Legacy? ==> s.lease.row.activeInstance.None?
    requires Producer(m).Some? ==>
               && Producer(m) == s.lease.row.activeInstance && LeaseOf(m) == s.lease.row.leaseId
               && (m.author.Live? <==> Producer(m).value !in s.lease.retired)
    ensures LegacyFirst(s.log + [m]) && LiveBeforeReplay(s.log + [m])
  {
    var log := s.log + [m];
    forall i, j | 0 <= i < j < |log| && Producer(log[i]).Some?
      ensures !log[j].author.Legacy?
      ensures log[i].author.Replay? && Producer(log[i]) == Producer(log[j]) ==> log[j].author.Replay?
    {
      assert log[i] == s.log[i] && AuthorKnown(s, s.log[i]);
      assert j < |s.log| ==> log[j] == s.log[j];
    }
  }

  lemma PostKeepsInv(s: State, input: Input, ts: int)
    requires Inv(s) && Enabled(s, Post(input, ts))
    ensures Inv(Apply(s, Post(input, ts)))
  {
    var outcome := Decide(s.lease, s.log, s.seqColumn, input, ts);
    if outcome.Created? {
      AppendKeepsInv(s, outcome.message);
    }
  }

  lemma StepKeepsInv(s: State, e: Event)
    requires Inv(s) && Enabled(s, e)
    ensures Inv(Apply(s, e))
  {
    match e
    case Db(st, ts) => DbKeepsInv(s, st, ts);
    case Post(input, ts) => PostKeepsInv(s, input, ts);
    case _ =>
      var t := Apply(s, e);
      assert t.lease == s.lease && t.log == s.log && t.used == s.used;
      assert forall m :: AuthorKnown(t, m) <==> AuthorKnown(s, m);
  }

  lemma {:induction false} RunInv(states: seq<State>, events: seq<Event>, k: nat)
    requires Run(states, events) && k < |states|
    ensures Inv(states[k])
  {
    if k == 0 {
      StartInv(states[0]);
    } else {
      assert Steps(states, events, k - 1);
      RunInv(states, events, k - 1);
      StepKeepsInv(states[k - 1], events[k - 1]);
    }
  }
}
