/** Every interleaving of queueing, validation, expiry and flushing of the activity cache with a
    database that other writers change. */
module ActivityRuns {
  import opened Sql
  import opened ActivityCache

  // ---------------------------------------------------------------------------------------------
  // The database

  datatype Record = SessionRecord(id: string) | MachineRecord(id: string, account: string)

  datatype Fields = Fields(lastActiveAt: int, activeInstance: Option<string>, active: bool)

  type Database = map<Record, Fields>

  /** Sessions are written by id, machines by account and id. */
  function RecordOf(key: Key, user: string): Record {
    match key
    case SessionKey(id) => SessionRecord(id)
    case MachineKey(id) => MachineRecord(id, user)
  }

  /** What became of a write: stored, or why it matched no record. Only a missing machine is an error
      that the caller sees. */
  datatype Reply =
    | Stored
    | TooOld(at: int)
    | NotOwner(holder: Option<string>, live: bool)
    | NoSession
    | NoMachine

  function Answer(db: Database, record: Record, u: Update): Reply {
    if record !in db then if record.SessionRecord? then NoSession else NoMachine
    else if record.MachineRecord? then Stored
    else
      var f := db[record];
      if f.lastActiveAt >= u.timestamp then TooOld(f.lastActiveAt)
      else if Truthy(u.instance) && !(f.activeInstance == u.instance && f.active) then NotOwner(f.activeInstance, f.active)
      else Stored
  }

  function Written(db: Database, record: Record, u: Update): Database {
    if !Answer(db, record, u).Stored? then db
    else db[record := db[record].(lastActiveAt := u.timestamp, active := record.SessionRecord? || db[record].active)]
  }

  // ---------------------------------------------------------------------------------------------
  // States and events

  datatype Worker = Free | Working(index: nat)

  /** `runBounded`: workers share `next`; `replies` are the database's answers to the statements executed
      so far. */
  datatype Pool = Pool(items: seq<Item>, next: nat, workers: seq<Worker>, completed: set<nat>, replies: map<nat, Reply>)

  const NO_POOL := Pool([], 0, [], {}, map[])

  /** As many workers as are allowed, but no more than there are items. */
  function Started(items: seq<Item>, concurrency: nat): (p: Pool)
    ensures |p.workers| <= concurrency && |p.workers| <= |items|
  {
    Pool(items, 0, seq(if concurrency < |items| then concurrency else |items|, w => Free), {}, map[])
  }

  function Freed(workers: seq<Worker>, index: nat): (r: seq<Worker>)
    ensures |r| == |workers|
    ensures forall w :: 0 <= w < |r| ==> r[w] == if workers[w] == Working(index) then Free else workers[w]
  {
    seq(|workers|, w requires 0 <= w < |workers| => if workers[w] == Working(index) then Free else workers[w])
  }

  datatype Fate =
    | Persisted
    | Overtaken(at: int)                          // the session already had a timestamp as late
    | Fenced(holder: Option<string>, live: bool)  // the session belongs to another instance or to none
    | SessionGone
    | MachineGone
    | Superseded(later: nat)                      // replaced in the queue
    | Yielded(later: nat)                         // failed while a later accepted update was pending
    | Covered(sent: int)                          // within the threshold of a stored timestamp
    | Displaced(other: string)                    // another account validated the same id and took the entry over

  datatype Accepted = Accepted(key: Key, user: string, update: Update)

  /** History: the n-th accepted update has ticket n; `times` are the timestamps a record has held. */
  datatype Book = Book(accepted: seq<Accepted>, fates: map<nat, Fate>, times: map<Record, set<int>>)

  /** A session id belongs to one account for ever; machine ids are chosen by the accounts. */
  datatype State = State(cache: Cache, pool: Pool, concurrency: nat, idents: nat, db: Database, accounts: map<string, string>, book: Book)

  datatype Event =
    | Validate(key: Key, user: string, stored: int, until: int)
    | Enqueue(key: Key, timestamp: int, instance: Option<string>)
    | BeginBatch(taken: seq<Item>)
    | Pick(worker: nat)
    | Execute(index: nat)                 // the database runs the statement
    | Complete(index: nat, answered: bool) // the worker sees its answer, or an error instead
    | EndBatch
    | Purge(now: int)
    | World(record: Record, fields: Option<Fields>)

  function Times(b: Book, record: Record): set<int> {
    if record in b.times then b.times[record] else {}
  }

  predicate Busy(p: Pool, index: nat) {
    Working(index) in p.workers
  }

  /** A validation reads a value the record held at that time or before. */
  predicate Enabled(s: State, e: Event) {
    match e
    case Validate(key, user, stored, _) =>
      && stored in Times(s.book, RecordOf(key, user))
      && (key.SessionKey? ==> key.id in s.accounts && s.accounts[key.id] == user)
    case Enqueue(key, timestamp, instance) =>
      && key in s.cache && Accepts(s.cache[key], timestamp, instance)
      && (key.MachineKey? ==> instance.None?)
    case BeginBatch(taken) => s.pool.items == [] && Batch(s.cache, taken)
    case Pick(worker) => worker < |s.pool.workers| && s.pool.workers[worker].Free? && s.pool.next < |s.pool.items|
    case Execute(index) => Busy(s.pool, index) && index < |s.pool.items| && index !in s.pool.replies
    case Complete(index, answered) => Busy(s.pool, index) && index < |s.pool.items| && (answered ==> index in s.pool.replies)
    case EndBatch => (forall w :: w in s.pool.workers ==> w.Free?) && s.pool.next == |s.pool.items|
    case Purge(_) => true
    case World(_, _) => true
  }

  function Hold(b: Book, record: Record, at: int): Book {
    b.(times := b.times[record := Times(b, record) + {at}])
  }

  function Decide(b: Book, ticket: nat, fate: Fate): Book {
    b.(fates := b.fates[ticket := fate])
  }

  function DecideFor(b: Book, u: Option<Update>, fate: Fate): Book {
    if u.Some? then Decide(b, u.value.ticket, fate) else b
  }

  /** What a replaced entry held is displaced. */
  function ValidatedBook(b: Book, c: Cache, key: Key, user: string): Book {
    if key in c && c[key].user != user
    then DecideFor(DecideFor(b, c[key].pending, Displaced(user)), c[key].inFlight, Displaced(user))
    else b
  }

  function Enter(b: Book, key: Key, user: string, u: Update, previous: Option<Update>): Book {
    DecideFor(b, previous, Fate.Superseded(u.ticket)).(accepted := b.accepted + [Accepted(key, user, u)])
  }

  function FateOf(r: Reply): Fate {
    match r
    case Stored => Persisted
    case TooOld(at) => Overtaken(at)
    case NotOwner(holder, live) => Fenced(holder, live)
    case NoSession => SessionGone
    case NoMachine => MachineGone
  }

  /** What the cache makes of a reply; none means an error. */
  function OutcomeOf(r: Option<Reply>): Outcome {
    if r.None? then Outcome.Failed else if r.value.NoMachine? then Outcome.Missing else Outcome.Written
  }

  /** Fates settled by a finished write: the written update's own, and that of a pending update its
      entry drops. */
  function Settle(b: Book, e: Entry, item: Item, r: Option<Reply>): Book {
    match r
    case None =>
      if e.pending.Some? then Decide(b, item.update.ticket, Yielded(e.pending.value.ticket)) else b
    case Some(NoMachine) =>
      DecideFor(Decide(b, item.update.ticket, MachineGone), e.pending, MachineGone)
    case Some(reply) =>
      var sent := Max(e.lastSent, item.update.timestamp);
      var own := Decide(b, item.update.ticket, FateOf(reply));
      if Redundant(e, sent, item.update.instance) then DecideFor(own, e.pending, Covered(sent)) else own
  }

  /** A write that finishes after its entry was replaced. */
  function SettleOrphan(b: Book, item: Item, r: Option<Reply>): Book {
    if r.Some? then Decide(b, item.update.ticket, FateOf(r.value)) else b
  }

  predicate Attached(c: Cache, item: Item) {
    item.key in c && c[item.key].ident == item.ident
  }

  /** What the worker gets: the database's answer, or an error. */
  function ReplyTo(p: Pool, index: nat, answered: bool): Option<Reply>
    requires answered ==> index in p.replies
  {
    if answered then Some(p.replies[index]) else None
  }

  predicate Finishing(p: Pool, index: nat, r: Option<Reply>) {
    Busy(p, index) && index < |p.items| && (r.Some? ==> index in p.replies && r.value == p.replies[index])
  }

  function Returned(p: Pool, index: nat): Pool {
    p.(workers := Freed(p.workers, index), completed := p.completed + {index})
  }

  function Completed(s: State, index: nat, r: Option<Reply>): State
    requires index < |s.pool.items|
  {
    var item := s.pool.items[index];
    s.(cache := Finish(s.cache, item, OutcomeOf(r)),
       pool := Returned(s.pool, index),
       book := if Attached(s.cache, item) then Settle(s.book, s.cache[item.key], item, r) else SettleOrphan(s.book, item, r))
  }

  function Executed(s: State, index: nat): State
    requires index < |s.pool.items|
  {
    var item := s.pool.items[index];
    var record := RecordOf(item.key, item.user);
    var r := Answer(s.db, record, item.update);
    s.(db := Written(s.db, record, item.update),
       pool := s.pool.(replies := s.pool.replies[index := r]),
       book := if r.Stored? then Hold(s.book, record, item.update.timestamp) else s.book)
  }

  function Apply(s: State, e: Event): State
    requires Enabled(s, e)
  {
    match e
    case Validate(key, user, stored, until) =>
      s.(cache := Validated(s.cache, key, user, stored, until, s.idents), idents := s.idents + 1,
         book := ValidatedBook(s.book, s.cache, key, user))
    case Enqueue(key, timestamp, instance) =>
      var u := Update(|s.book.accepted|, timestamp, instance);
      s.(cache := s.cache[key := s.cache[key].(pending := Some(u))],
         book := Enter(s.book, key, s.cache[key].user, u, s.cache[key].pending))
    case BeginBatch(taken) => s.(cache := TakeAll(s.cache), pool := Started(taken, s.concurrency))
    case Pick(worker) => s.(pool := s.pool.(next := s.pool.next + 1, workers := s.pool.workers[worker := Working(s.pool.next)]))
    case Execute(index) => Executed(s, index)
    case Complete(index, answered) => Completed(s, index, ReplyTo(s.pool, index, answered))
    case EndBatch => s.(pool := NO_POOL)
    case Purge(now) => s.(cache := map key | key in s.cache && !Expired(s.cache[key], now) :: s.cache[key])
    case World(record, fields) =>
      if fields.Some?
      then s.(db := s.db[record := fields.value], book := Hold(s.book, record, fields.value.lastActiveAt))
      else s.(db := s.db - {record})
  }

  predicate Start(s: State) {
    && s.concurrency > 0 && s.cache == map[] && s.pool == NO_POOL
    && s.book == Book([], map[], map record | record in s.db :: {s.db[record].lastActiveAt})
  }

  predicate Steps(states: seq<State>, events: seq<Event>, i: nat) {
    i < |events| && i + 1 < |states| && Enabled(states[i], events[i]) && states[i + 1] == Apply(states[i], events[i])
  }

  predicate Run(states: seq<State>, events: seq<Event>) {
    && |states| == |events| + 1
    && Start(states[0])
    && forall i: nat :: i < |events| ==> Steps(states, events, i)
  }

  // ---------------------------------------------------------------------------------------------
  // The pool: every item once

  /** The indices handed out are exactly those worked on and the completed ones, and no two workers
      share one. */
  ghost predicate Sound(p: Pool, concurrency: nat) {
    && p.next <= |p.items|
    && |p.workers| == (if concurrency < |p.items| then concurrency else |p.items|)
    && (forall i: nat :: i < p.next <==> Busy(p, i) || i in p.completed)
    && (forall i: nat :: Busy(p, i) ==> i !in p.completed)
    && (forall v, w :: 0 <= v < w < |p.workers| && p.workers[v].Working? ==> p.workers[v] != p.workers[w])
  }

  lemma PickKeepsPool(p: Pool, worker: nat, concurrency: nat)
    requires Sound(p, concurrency) && worker < |p.workers| && p.workers[worker].Free? && p.next < |p.items|
    ensures Sound(p.(next := p.next + 1, workers := p.workers[worker := Working(p.next)]), concurrency)
  {
    var q := p.(next := p.next + 1, workers := p.workers[worker := Working(p.next)]);
    assert !Busy(p, p.next);
    assert q.workers[worker] == Working(p.next);
    forall i: nat ensures Busy(q, i) <==> Busy(p, i) || i == p.next {
      if Busy(p, i) {
        var w :| 0 <= w < |p.workers| && p.workers[w] == Working(i);
        assert q.workers[w] == Working(i);
      }
    }
  }

  lemma ReturnKeepsPool(p: Pool, index: nat, concurrency: nat)
    requires Sound(p, concurrency) && Busy(p, index)
    ensures Sound(Returned(p, index), concurrency)
  {
    var q := Returned(p, index);
    forall i: nat ensures Busy(q, i) <==> Busy(p, i) && i != index {
      if Busy(p, i) && i != index {
        var w :| 0 <= w < |p.workers| && p.workers[w] == Working(i);
        assert q.workers[w] == Working(i);
      }
    }
  }

  lemma StepKeepsPool(s: State, e: Event)
    requires Sound(s.pool, s.concurrency) && Enabled(s, e)
    ensures Sound(Apply(s, e).pool, s.concurrency)
  {
    match e
    case Pick(worker) => PickKeepsPool(s.pool, worker, s.concurrency);
    case Complete(index, _) => ReturnKeepsPool(s.pool, index, s.concurrency);
    case Execute(_) => assert forall i: nat :: Busy(Apply(s, e).pool, i) <==> Busy(s.pool, i);
    case _ =>
  }

  /** The indices the workers hold. */
  function Held(workers: seq<Worker>): set<nat> {
    set w | w in workers && w.Working? :: w.index
  }

  lemma {:induction false} HeldBound(workers: seq<Worker>)
    ensures |Held(workers)| <= |workers|
  {
    if workers != [] {
      var n := |workers| - 1;
      var last := workers[n];
      HeldBound(workers[..n]);
      assert workers == workers[..n] + [last];
      assert Held(workers) == Held(workers[..n]) + if last.Working? then {last.index} else {};
    }
  }

  // ---------------------------------------------------------------------------------------------
  // What is in flight

  predicate Open(p: Pool, i: nat) {
    i < |p.items| && i !in p.completed
  }

  ghost predicate HasOpen(p: Pool, key: Key, ident: nat) {
    exists i: nat :: Open(p, i) && p.items[i].key == key && p.items[i].ident == ident
  }

  /** Entries that are in flight are so for an open item of the batch; an open item is in flight, or
      its entry object is gone for good. */
  ghost predicate Flight(c: Cache, p: Pool, idents: nat) {
    && (forall i: nat :: Open(p, i) && Attached(c, p.items[i]) ==>
          c[p.items[i].key].user == p.items[i].user && c[p.items[i].key].inFlight == Some(p.items[i].update))
    && (forall i: nat :: i < |p.items| ==> p.items[i].ident < idents)
    && (forall key :: key in c ==> c[key].ident < idents)
    && (forall i, j :: 0 <= i < j < |p.items| ==> p.items[i].key != p.items[j].key)
    && (forall key :: key in c && c[key].inFlight.Some? ==> HasOpen(p, key, c[key].ident))
  }

  lemma BeginKeepsFlight(c: Cache, p: Pool, q: Pool, taken: seq<Item>, idents: nat)
    requires Flight(c, p, idents) && p.items == [] && Batch(c, taken) && q.items == taken && q.completed == {}
    ensures Flight(TakeAll(c), q, idents)
  {
    forall i: nat | i < |taken| ensures ItemOf(c, taken[i]) {}
    forall key | key in c && Take(c[key]).inFlight.Some? ensures HasOpen(q, key, c[key].ident) {
      assert c[key].inFlight.None? by {
        assert c[key].inFlight.Some? ==> HasOpen(p, key, c[key].ident);
      }
      assert Listed(taken, key);
      var i :| 0 <= i < |taken| && taken[i].key == key;
      assert Open(q, i);
    }
  }

  lemma CompleteKeepsFlight(c: Cache, p: Pool, index: nat, outcome: Outcome, idents: nat)
    requires Flight(c, p, idents) && Open(p, index)
    ensures Flight(Finish(c, p.items[index], outcome), Returned(p, index), idents)
  {
    var item, q := p.items[index], Returned(p, index);
    var d := Finish(c, item, outcome);
    forall i: nat | Open(q, i) ensures Open(p, i) && p.items[i].key != item.key {}
    forall key | key in d && d[key].inFlight.Some? ensures HasOpen(q, key, d[key].ident) {
      assert HasOpen(p, key, c[key].ident);
      var i: nat :| Open(p, i) && p.items[i].key == key && p.items[i].ident == c[key].ident;
      assert Open(q, i);
    }
  }

  lemma NoneInFlight(c: Cache, p: Pool, concurrency: nat, idents: nat)
    requires Flight(c, p, idents) && Sound(p, concurrency) && (forall w :: w in p.workers ==> w.Free?) && p.next == |p.items|
    ensures forall key :: key in c ==> c[key].inFlight.None?
  {
    assert forall i: nat :: !Busy(p, i) && !Open(p, i);
    assert forall key, ident :: !HasOpen(p, key, ident);
  }

  /** Steps that leave the batch alone: an entry keeps its object and in-flight mark, or is a new
      object. */
  lemma SameFlight(c: Cache, d: Cache, p: Pool, q: Pool, idents: nat, more: nat)
    requires Flight(c, p, idents) && idents <= more && q.items == p.items && q.completed == p.completed
    requires forall key :: key in d ==>
               || (d[key].inFlight.None? && idents <= d[key].ident < more)
               || (key in c && d[key].inFlight == c[key].inFlight && d[key].ident == c[key].ident && d[key].user == c[key].user)
    ensures Flight(d, q, more)
  {
    assert forall i: nat :: Open(q, i) <==> Open(p, i);
    assert forall key, ident :: HasOpen(p, key, ident) ==> HasOpen(q, key, ident);
  }

  lemma OthersKeepFlight(s: State, e: Event)
    requires Flight(s.cache, s.pool, s.idents) && Enabled(s, e) && !e.BeginBatch? && !e.Complete? && !e.EndBatch?
    ensures var t := Apply(s, e); Flight(t.cache, t.pool, t.idents)
  {
    var t := Apply(s, e);
    assert t.pool.items == s.pool.items && t.pool.completed == s.pool.completed;
    SameFlight(s.cache, t.cache, s.pool, t.pool, s.idents, t.idents);
  }

  lemma StepKeepsFlight(s: State, e: Event)
    requires Sound(s.pool, s.concurrency) && Flight(s.cache, s.pool, s.idents) && Enabled(s, e)
    ensures var t := Apply(s, e); Flight(t.cache, t.pool, t.idents)
  {
    match e
    case BeginBatch(taken) => BeginKeepsFlight(s.cache, s.pool, Started(taken, s.concurrency), taken, s.idents);
    case Complete(index, answered) =>
      CompleteKeepsFlight(s.cache, s.pool, index, OutcomeOf(ReplyTo(s.pool, index, answered)), s.idents);
    case EndBatch => NoneInFlight(s.cache, s.pool, s.concurrency, s.idents);
    case _ => OthersKeepFlight(s, e);
  }

  // ---------------------------------------------------------------------------------------------
  // The ledger: what becomes of every accepted update

  predicate Known(b: Book, key: Key, user: string, u: Update) {
    u.ticket < |b.accepted| && b.accepted[u.ticket] == Accepted(key, user, u)
  }

  /** Queued updates are accepted and undecided, a pending one is later than the one in flight, and
      one that the finished write would make redundant is close to a stored timestamp. */
  predicate EntryKnown(b: Book, key: Key, e: Entry) {
    var record := RecordOf(key, e.user);
    && (e.pending.Some? ==> Known(b, key, e.user, e.pending.value) && e.pending.value.ticket !in b.fates)
    && (e.inFlight.Some? ==> Known(b, key, e.user, e.inFlight.value) && e.inFlight.value.ticket !in b.fates)
    && (e.pending.Some? && e.inFlight.Some? ==>
          && e.inFlight.value.ticket < e.pending.value.ticket
          && NearStored(b, record, e.lastSent, e.pending.value, e.inFlight.value))
  }

  predicate NearStored(b: Book, record: Record, lastSent: int, p: Update, u: Update) {
    p.instance == u.instance && Near(p.timestamp, Max(lastSent, u.timestamp)) ==>
      u.timestamp <= lastSent && lastSent in Times(b, record)
  }

  predicate Queued(c: Cache, b: Book) {
    forall key :: key in c ==> EntryKnown(b, key, c[key])
  }

  /** Every item of the batch is an accepted update; an open one whose entry is gone was displaced. */
  ghost predicate ItemsKnown(c: Cache, p: Pool, b: Book) {
    && (forall i :: 0 <= i < |p.items| ==> Known(b, p.items[i].key, p.items[i].user, p.items[i].update))
    && (forall i: nat :: Open(p, i) && !Attached(c, p.items[i]) ==>
          p.items[i].update.ticket in b.fates && b.fates[p.items[i].update.ticket].Displaced?)
  }

  predicate RepliesTrue(p: Pool, b: Book) {
    forall i :: i in p.replies ==>
      i < |p.items| && Justified(b, Accepted(p.items[i].key, p.items[i].user, p.items[i].update), FateOf(p.replies[i]))
  }

  /** The cached entry of a session belongs to the session's account. */
  predicate Owned(c: Cache, accounts: map<string, string>) {
    forall key :: key in c && key.SessionKey? ==> key.id in accounts && c[key].user == accounts[key.id]
  }

  predicate Waiting(c: Cache, a: Accepted) {
    && a.key in c && c[a.key].user == a.user
    && (c[a.key].pending == Some(a.update) || c[a.key].inFlight == Some(a.update))
  }

  /** `later` is a later accepted update of the same record. */
  predicate Follows(b: Book, a: Accepted, later: nat) {
    a.update.ticket < later < |b.accepted| && b.accepted[later].key == a.key && b.accepted[later].user == a.user
  }

  predicate Justified(b: Book, a: Accepted, fate: Fate) {
    var record, u := RecordOf(a.key, a.user), a.update;
    match fate
    case Persisted => u.timestamp in Times(b, record)
    case Overtaken(at) => a.key.SessionKey? && at >= u.timestamp && at in Times(b, record)
    case Fenced(holder, live) => a.key.SessionKey? && Truthy(u.instance) && !(holder == u.instance && live)
    case SessionGone => a.key.SessionKey?
    case MachineGone => a.key.MachineKey?
    case Superseded(later) => Follows(b, a, later) && b.accepted[later].update.timestamp >= u.timestamp
    case Yielded(later) => Follows(b, a, later)
    case Covered(sent) => sent in Times(b, record) && Near(u.timestamp, sent)
    case Displaced(other) => a.key.MachineKey? && other != a.user
  }

  predicate Accounted(c: Cache, b: Book, n: nat)
    requires n < |b.accepted|
  {
    var a := b.accepted[n];
    && a.update.ticket == n
    && if n in b.fates then Justified(b, a, b.fates[n]) else Waiting(c, a)
  }

  predicate Ledger(c: Cache, b: Book) {
    forall n :: 0 <= n < |b.accepted| ==> Accounted(c, b, n)
  }

  /** Only accepted updates have fates. */
  predicate Decided(b: Book) {
    forall n :: n in b.fates ==> n < |b.accepted|
  }

  /** Acceptances and timestamps are only added. */
  ghost predicate Knows(b: Book, b': Book) {
    && b.accepted <= b'.accepted
    && (forall record :: Times(b, record) <= Times(b', record))
  }

  lemma JustifiedStays(b: Book, b': Book, a: Accepted, fate: Fate)
    requires Knows(b, b') && Justified(b, a, fate)
    ensures Justified(b', a, fate)
  {
  }

  predicate Undecided(b: Book, u: Option<Update>) {
    u.Some? ==> u.value.ticket !in b.fates
  }

  lemma EntryStays(b: Book, b': Book, key: Key, e: Entry)
    requires Knows(b, b') && EntryKnown(b, key, e) && Undecided(b', e.pending) && Undecided(b', e.inFlight)
    ensures EntryKnown(b', key, e)
  {
  }

  /** Updates of different records have different tickets, so deciding one leaves the others open. */
  lemma OthersStay(c: Cache, b: Book, b': Book, key: Key)
    requires Queued(c, b) && Knows(b, b')
    requires forall n :: n in b'.fates && n !in b.fates ==> n >= |b.accepted| || b.accepted[n].key == key
    ensures forall x :: x in c && x != key ==> EntryKnown(b', x, c[x])
  {
    forall x | x in c && x != key ensures EntryKnown(b', x, c[x]) {
      assert EntryKnown(b, x, c[x]);
      EntryStays(b, b', x, c[x]);
    }
  }

  lemma EnterKeepsQueued(c: Cache, b: Book, key: Key, u: Update)
    requires Queued(c, b) && key in c && u.ticket == |b.accepted| && Decided(b)
    requires Accepts(c[key], u.timestamp, u.instance)
    ensures Queued(c[key := c[key].(pending := Some(u))], Enter(b, key, c[key].user, u, c[key].pending))
  {
    var b' := Enter(b, key, c[key].user, u, c[key].pending);
    assert EntryKnown(b, key, c[key]);
    OthersStay(c, b, b', key);
    assert EntryKnown(b', key, c[key].(pending := Some(u)));
  }

  lemma EnterKeepsLedger(c: Cache, b: Book, key: Key, u: Update, n: nat)
    requires Queued(c, b) && key in c && u.ticket == |b.accepted| && Decided(b)
    requires Accepts(c[key], u.timestamp, u.instance)
    requires n < |b.accepted| ==> Accounted(c, b, n)
    requires n <= |b.accepted|
    ensures Accounted(c[key := c[key].(pending := Some(u))], Enter(b, key, c[key].user, u, c[key].pending), n)
  {
    var b' := Enter(b, key, c[key].user, u, c[key].pending);
    assert EntryKnown(b, key, c[key]);
    assert n < |b.accepted| ==> b'.accepted[n] == b.accepted[n];
  }

  lemma SettleFrame(b: Book, e: Entry, item: Item, r: Option<Reply>)
    ensures var b' := Settle(b, e, item, r);
            && Knows(b, b') && b'.accepted == b.accepted
            && forall n :: n != item.update.ticket && !(e.pending.Some? && n == e.pending.value.ticket) ==>
                 (n in b'.fates <==> n in b.fates) && (n in b.fates ==> b'.fates[n] == b.fates[n])
  {
  }

  lemma SettledEntry(c: Cache, b: Book, item: Item, r: Option<Reply>)
    requires Attached(c, item) && c[item.key].user == item.user && c[item.key].inFlight == Some(item.update)
    requires EntryKnown(b, item.key, c[item.key])
    requires r.Some? ==> Justified(b, Accepted(item.key, item.user, item.update), FateOf(r.value))
    ensures var d := Finish(c, item, OutcomeOf(r));
            item.key in d ==> EntryKnown(Settle(b, c[item.key], item, r), item.key, d[item.key])
  {
    SettleFrame(b, c[item.key], item, r);
  }

  lemma SettleKeepsQueued(c: Cache, b: Book, item: Item, r: Option<Reply>)
    requires Queued(c, b) && Attached(c, item) && c[item.key].user == item.user
    requires c[item.key].inFlight == Some(item.update)
    requires r.Some? ==> Justified(b, Accepted(item.key, item.user, item.update), FateOf(r.value))
    ensures Queued(Finish(c, item, OutcomeOf(r)), Settle(b, c[item.key], item, r))
  {
    var d, b' := Finish(c, item, OutcomeOf(r)), Settle(b, c[item.key], item, r);
    assert EntryKnown(b, item.key, c[item.key]);
    SettleFrame(b, c[item.key], item, r);
    SettledEntry(c, b, item, r);
    OthersStay(c, b, b', item.key);
  }

  lemma SettledFate(b: Book, e: Entry, item: Item, r: Option<Reply>)
    requires e.user == item.user && e.inFlight == Some(item.update) && EntryKnown(b, item.key, e)
    requires r.Some? ==> Justified(b, Accepted(item.key, item.user, item.update), FateOf(r.value))
    ensures var b' := Settle(b, e, item, r);
            && (item.update.ticket in b'.fates <==> r.Some? || e.pending.Some?)
            && (item.update.ticket in b'.fates ==>
                  Justified(b', Accepted(item.key, item.user, item.update), b'.fates[item.update.ticket]))
  {
    var b' := Settle(b, e, item, r);
    SettleFrame(b, e, item, r);
    if r.Some? {
      JustifiedStays(b, b', Accepted(item.key, item.user, item.update), FateOf(r.value));
      assert b'.fates[item.update.ticket] == FateOf(r.value);
    }
  }

  lemma SettledPending(b: Book, e: Entry, item: Item, r: Option<Reply>)
    requires e.user == item.user && e.inFlight == Some(item.update) && e.pending.Some? && EntryKnown(b, item.key, e)
    requires r.Some? ==> Justified(b, Accepted(item.key, item.user, item.update), FateOf(r.value))
    ensures var b', p := Settle(b, e, item, r), e.pending.value;
            p.ticket in b'.fates ==> Justified(b', Accepted(item.key, item.user, p), b'.fates[p.ticket])
  {
    var sent := Max(e.lastSent, item.update.timestamp);
    if r.Some? && !r.value.NoMachine? && Redundant(e, sent, item.update.instance) {
      assert sent in Times(b, RecordOf(item.key, item.user));
    }
  }

  lemma SettleKeepsLedger(c: Cache, b: Book, item: Item, r: Option<Reply>, n: nat)
    requires Attached(c, item) && EntryKnown(b, item.key, c[item.key]) && n < |b.accepted| && Accounted(c, b, n)
    requires c[item.key].user == item.user && c[item.key].inFlight == Some(item.update)
    requires r.Some? ==> Justified(b, Accepted(item.key, item.user, item.update), FateOf(r.value))
    ensures Accounted(Finish(c, item, OutcomeOf(r)), Settle(b, c[item.key], item, r), n)
  {
    var b', e := Settle(b, c[item.key], item, r), c[item.key];
    SettleFrame(b, e, item, r);
    SettledFate(b, e, item, r);
    if e.pending.Some? {
      SettledPending(b, e, item, r);
    }
    if n in b.fates {
      JustifiedStays(b, b', b.accepted[n], b.fates[n]);
    }
  }

  /** Steps that move updates about or learn timestamps, and decide nothing. */
  lemma SameBook(c: Cache, d: Cache, b: Book, b': Book)
    requires Ledger(c, b) && Knows(b, b') && b'.accepted == b.accepted && b'.fates == b.fates
    requires forall a :: Waiting(c, a) ==> Waiting(d, a)
    ensures Ledger(d, b')
  {
    forall n | 0 <= n < |b'.accepted| ensures Accounted(d, b', n) {
      assert Accounted(c, b, n);
      if n in b.fates {
        JustifiedStays(b, b', b.accepted[n], b.fates[n]);
      }
    }
  }

  lemma SameQueue(c: Cache, b: Book, b': Book)
    requires Queued(c, b) && Knows(b, b') && b'.fates == b.fates
    ensures Queued(c, b')
  {
    forall x | x in c ensures EntryKnown(b', x, c[x]) {
      assert EntryKnown(b, x, c[x]);
    }
  }

  lemma OrphanKeepsBook(c: Cache, b: Book, item: Item, r: Option<Reply>)
    requires Queued(c, b) && Ledger(c, b) && Known(b, item.key, item.user, item.update) && item.update.ticket in b.fates
    requires r.Some? ==> Justified(b, Accepted(item.key, item.user, item.update), FateOf(r.value))
    ensures Queued(c, SettleOrphan(b, item, r)) && Ledger(c, SettleOrphan(b, item, r))
  {
    var b' := SettleOrphan(b, item, r);
    forall x | x in c ensures EntryKnown(b', x, c[x]) {
      assert EntryKnown(b, x, c[x]);
      EntryStays(b, b', x, c[x]);
    }
    forall n | 0 <= n < |b'.accepted| ensures Accounted(c, b', n) {
      assert Accounted(c, b, n);
      if n in b'.fates {
        JustifiedStays(b, b', b.accepted[n], b'.fates[n]);
      }
    }
  }

  lemma ValidateKeepsQueued(c: Cache, b: Book, key: Key, user: string, stored: int, until: int, ident: nat)
    requires Queued(c, b) && stored in Times(b, RecordOf(key, user))
    ensures Queued(Validated(c, key, user, stored, until, ident), ValidatedBook(b, c, key, user))
  {
    var d, b' := Validated(c, key, user, stored, until, ident), ValidatedBook(b, c, key, user);
    if key in c {
      assert EntryKnown(b, key, c[key]);
    }
    OthersStay(c, b, b', key);
    assert EntryKnown(b', key, d[key]);
  }

  lemma ValidatedFrame(b: Book, c: Cache, key: Key, user: string)
    ensures var b' := ValidatedBook(b, c, key, user);
            && Knows(b, b') && b'.accepted == b.accepted
            && (forall n :: n in b'.fates ==> (n in b.fates && b'.fates[n] == b.fates[n]) || b'.fates[n] == Displaced(user))
            && (forall n :: n in b.fates ==> n in b'.fates)
            && (forall n :: n in b'.fates && (n in b.fates ==> b'.fates[n] != b.fates[n]) ==>
                  && key in c && c[key].user != user
                  && ((c[key].pending.Some? && n == c[key].pending.value.ticket) || (c[key].inFlight.Some? && n == c[key].inFlight.value.ticket)))
            && (key in c && c[key].user != user ==>
                  && (c[key].pending.Some? ==> Decides(b', c[key].pending.value, Displaced(user)))
                  && (c[key].inFlight.Some? ==> Decides(b', c[key].inFlight.value, Displaced(user))))
  {
  }

  predicate Decides(b: Book, u: Update, fate: Fate) {
    u.ticket in b.fates && b.fates[u.ticket] == fate
  }

  lemma ValidateKeepsLedger(c: Cache, b: Book, accounts: map<string, string>, key: Key, user: string, stored: int, until: int, ident: nat, n: nat)
    requires Queued(c, b) && Owned(c, accounts) && n < |b.accepted| && Accounted(c, b, n)
    requires key.SessionKey? ==> key.id in accounts && accounts[key.id] == user
    ensures Accounted(Validated(c, key, user, stored, until, ident), ValidatedBook(b, c, key, user), n)
  {
    var b' := ValidatedBook(b, c, key, user);
    ValidatedFrame(b, c, key, user);
    if key in c {
      assert EntryKnown(b, key, c[key]);
    }
    if n in b.fates {
      JustifiedStays(b, b', b.accepted[n], b.fates[n]);
    }
  }

  lemma TakeKeepsBook(c: Cache, b: Book)
    requires Queued(c, b) && Ledger(c, b)
    ensures Queued(TakeAll(c), b) && Ledger(TakeAll(c), b)
  {
    forall x | x in c ensures EntryKnown(b, x, Take(c[x])) {
      assert EntryKnown(b, x, c[x]);
    }
    SameBook(c, TakeAll(c), b, b);
  }

  predicate HasFate(s: State, n: nat, fate: Fate) {
    n in s.book.fates && s.book.fates[n] == fate
  }

  predicate IsDisplaced(s: State, n: nat) {
    n in s.book.fates && s.book.fates[n].Displaced?
  }

  // ---------------------------------------------------------------------------------------------
  // Every run

  /** What the database holds is among what it has held. */
  predicate Recorded(s: State) {
    forall record :: record in s.db ==> s.db[record].lastActiveAt in Times(s.book, record)
  }

  ghost predicate Inv(s: State) {
    && Sound(s.pool, s.concurrency)
    && Flight(s.cache, s.pool, s.idents)
    && ItemsKnown(s.cache, s.pool, s.book)
    && RepliesTrue(s.pool, s.book)
    && Recorded(s)
    && Decided(s.book)
    && Owned(s.cache, s.accounts)
    && Queued(s.cache, s.book)
    && Ledger(s.cache, s.book)
  }

  lemma SettledOwn(b: Book, e: Entry, item: Item, r: Option<Reply>)
    requires e.inFlight == Some(item.update) && EntryKnown(b, item.key, e)
    ensures var b' := Settle(b, e, item, r);
            && (r.Some? ==> Decides(b', item.update, FateOf(r.value)))
            && (forall n :: n in b'.fates && n !in b.fates ==> !b'.fates[n].Displaced?)
            && (r.Some? ==> forall n :: n in b'.fates && n !in b.fates ==> !b'.fates[n].Yielded?)
  {
  }

  lemma CompleteFates(s: State, index: nat, r: Option<Reply>, n: nat)
    requires Inv(s) && Finishing(s.pool, index, r)
    ensures var t, mine := Completed(s, index, r), r.Some? && s.pool.items[index].update.ticket == n;
            && (IsDisplaced(t, n) <==> IsDisplaced(s, n) && !mine)
            && (n in s.book.fates && !IsDisplaced(s, n) ==> HasFate(t, n, s.book.fates[n]))
            && (mine ==> HasFate(t, n, FateOf(r.value)))
  {
    var item := s.pool.items[index];
    assert Open(s.pool, index);
    if Attached(s.cache, item) {
      var entry := s.cache[item.key];
      assert EntryKnown(s.book, item.key, entry);
      SettleFrame(s.book, entry, item, r);
      SettledOwn(s.book, entry, item, r);
    }
  }

  lemma CompleteKeepsBook(s: State, index: nat, r: Option<Reply>)
    requires Inv(s) && Finishing(s.pool, index, r)
    ensures var t := Completed(s, index, r); Queued(t.cache, t.book) && Ledger(t.cache, t.book) && Decided(t.book)
  {
    var item := s.pool.items[index];
    assert Open(s.pool, index);
    if Attached(s.cache, item) {
      assert EntryKnown(s.book, item.key, s.cache[item.key]);
      SettleFrame(s.book, s.cache[item.key], item, r);
      SettleKeepsQueued(s.cache, s.book, item, r);
      forall n | 0 <= n < |s.book.accepted|
        ensures Accounted(Finish(s.cache, item, OutcomeOf(r)), Settle(s.book, s.cache[item.key], item, r), n)
      {
        assert Accounted(s.cache, s.book, n);
        SettleKeepsLedger(s.cache, s.book, item, r, n);
      }
    } else {
      OrphanKeepsBook(s.cache, s.book, item, r);
    }
  }

  lemma ValidateKeepsBook(s: State, e: Event)
    requires Inv(s) && e.Validate? && Enabled(s, e)
    ensures var t := Apply(s, e); Queued(t.cache, t.book) && Ledger(t.cache, t.book) && Decided(t.book)
  {
    var t := Apply(s, e);
    if e.key in s.cache {
      assert EntryKnown(s.book, e.key, s.cache[e.key]);
    }
    ValidateKeepsQueued(s.cache, s.book, e.key, e.user, e.stored, e.until, s.idents);
    forall n | 0 <= n < |t.book.accepted| ensures Accounted(t.cache, t.book, n) {
      assert Accounted(s.cache, s.book, n);
      ValidateKeepsLedger(s.cache, s.book, s.accounts, e.key, e.user, e.stored, e.until, s.idents, n);
    }
  }

  lemma EnqueueKeepsBook(s: State, e: Event)
    requires Inv(s) && e.Enqueue? && Enabled(s, e)
    ensures var t := Apply(s, e); Queued(t.cache, t.book) && Ledger(t.cache, t.book) && Decided(t.book)
  {
    var t, u := Apply(s, e), Update(|s.book.accepted|, e.timestamp, e.instance);
    assert EntryKnown(s.book, e.key, s.cache[e.key]);
    EnterKeepsQueued(s.cache, s.book, e.key, u);
    forall n | 0 <= n < |t.book.accepted| ensures Accounted(t.cache, t.book, n) {
      assert n < |s.book.accepted| ==> Accounted(s.cache, s.book, n);
      EnterKeepsLedger(s.cache, s.book, e.key, u, n);
    }
  }

  lemma LearningKeepsBook(c: Cache, b: Book, b': Book)
    requires Queued(c, b) && Ledger(c, b) && Decided(b)
    requires Knows(b, b') && b'.accepted == b.accepted && b'.fates == b.fates
    ensures Queued(c, b') && Ledger(c, b') && Decided(b')
  {
    SameQueue(c, b, b');
    SameBook(c, c, b, b');
  }

  lemma PurgeKeepsBook(c: Cache, d: Cache, b: Book, now: int)
    requires Queued(c, b) && Ledger(c, b) && d == map key | key in c && !Expired(c[key], now) :: c[key]
    ensures Queued(d, b) && Ledger(d, b)
  {
    forall x | x in d ensures EntryKnown(b, x, d[x]) {
      assert EntryKnown(b, x, c[x]);
    }
    SameBook(c, d, b, b);
  }

  lemma PoolKeepsBook(s: State, e: Event)
    requires Queued(s.cache, s.book) && Ledger(s.cache, s.book) && Decided(s.book)
    requires (e.Pick? || e.Execute? || e.EndBatch? || e.World?) && Enabled(s, e)
    ensures var t := Apply(s, e); Queued(t.cache, t.book) && Ledger(t.cache, t.book) && Decided(t.book)
  {
    if e.Execute? || e.World? {
      LearningKeepsBook(s.cache, s.book, Apply(s, e).book);
    }
  }

  lemma StepKeepsBook(s: State, e: Event)
    requires Inv(s) && Enabled(s, e)
    ensures var t := Apply(s, e); Queued(t.cache, t.book) && Ledger(t.cache, t.book) && Decided(t.book)
  {
    match e
    case Validate(_, _, _, _) => ValidateKeepsBook(s, e);
    case Enqueue(_, _, _) => EnqueueKeepsBook(s, e);
    case BeginBatch(_) => TakeKeepsBook(s.cache, s.book);
    case Complete(index, answered) => CompleteKeepsBook(s, index, ReplyTo(s.pool, index, answered));
    case Purge(now) => PurgeKeepsBook(s.cache, Apply(s, e).cache, s.book, now);
    case _ => PoolKeepsBook(s, e);
  }

  lemma CompleteKnows(s: State, index: nat, r: Option<Reply>)
    requires index < |s.pool.items|
    ensures Knows(s.book, Completed(s, index, r).book)
  {
    var item := s.pool.items[index];
    if Attached(s.cache, item) {
      SettleFrame(s.book, s.cache[item.key], item, r);
    }
  }

  lemma StepKnows(s: State, e: Event)
    requires Enabled(s, e)
    ensures Knows(s.book, Apply(s, e).book)
  {
    if e.Complete? {
      CompleteKnows(s, e.index, ReplyTo(s.pool, e.index, e.answered));
    }
  }

  lemma ItemsStay(c: Cache, d: Cache, p: Pool, q: Pool, b: Book, b': Book)
    requires ItemsKnown(c, p, b) && Knows(b, b') && q.items == p.items && p.completed <= q.completed
    requires forall i: nat :: Open(q, i) ==>
               if Attached(c, p.items[i]) then
                 Attached(d, p.items[i]) || (p.items[i].update.ticket in b'.fates && b'.fates[p.items[i].update.ticket].Displaced?)
               else p.items[i].update.ticket in b'.fates && b'.fates[p.items[i].update.ticket].Displaced?
    ensures ItemsKnown(d, q, b')
  {
    forall i: nat | Open(q, i) ensures Open(p, i) {}
  }

  lemma ValidateKeepsItems(s: State, e: Event)
    requires Inv(s) && e.Validate? && Enabled(s, e)
    ensures ItemsKnown(Apply(s, e).cache, s.pool, Apply(s, e).book)
  {
    var p, t := s.pool, Apply(s, e);
    ValidatedFrame(s.book, s.cache, e.key, e.user);
    forall i: nat | Open(p, i) && !Attached(t.cache, p.items[i])
      ensures p.items[i].update.ticket in t.book.fates && t.book.fates[p.items[i].update.ticket].Displaced?
    {
      if Attached(s.cache, p.items[i]) {
        assert p.items[i].key == e.key && s.cache[e.key].inFlight == Some(p.items[i].update);
      }
    }
    ItemsStay(s.cache, t.cache, p, p, s.book, t.book);
  }

  /** A completion leaves the updates of the other items of the batch as they are. */
  lemma CompleteSpares(s: State, index: nat, r: Option<Reply>, i: nat)
    requires Inv(s) && Finishing(s.pool, index, r) && Open(s.pool, i) && i != index
    ensures var other, t := s.pool.items[i], Completed(s, index, r);
            if Attached(s.cache, other) then Attached(t.cache, other) else IsDisplaced(t, other.update.ticket)
  {
    var item, other := s.pool.items[index], s.pool.items[i];
    assert Open(s.pool, index) && other.key != item.key;
    if !Attached(s.cache, other) {
      assert Known(s.book, other.key, other.user, other.update) && Known(s.book, item.key, item.user, item.update);
      CompleteFates(s, index, r, other.update.ticket);
    }
  }

  lemma CompleteKeepsItems(s: State, index: nat, r: Option<Reply>)
    requires Inv(s) && Finishing(s.pool, index, r)
    ensures var t := Completed(s, index, r); ItemsKnown(t.cache, t.pool, t.book)
  {
    var p, t := s.pool, Completed(s, index, r);
    CompleteKnows(s, index, r);
    forall i: nat | Open(t.pool, i)
      ensures if Attached(s.cache, p.items[i]) then Attached(t.cache, p.items[i]) else IsDisplaced(t, p.items[i].update.ticket)
    {
      CompleteSpares(s, index, r, i);
    }
    ItemsStay(s.cache, t.cache, p, t.pool, s.book, t.book);
  }

  lemma BeginKeepsItems(c: Cache, b: Book, taken: seq<Item>, q: Pool)
    requires Queued(c, b) && Batch(c, taken) && q.items == taken
    ensures ItemsKnown(TakeAll(c), q, b)
  {
    forall i: nat | i < |taken| ensures Known(b, taken[i].key, taken[i].user, taken[i].update) && Attached(TakeAll(c), taken[i]) {
      assert ItemOf(c, taken[i]) && EntryKnown(b, taken[i].key, c[taken[i].key]);
    }
  }

  lemma EnqueueKeepsItems(s: State, e: Event)
    requires Inv(s) && e.Enqueue? && Enabled(s, e)
    ensures ItemsKnown(Apply(s, e).cache, s.pool, Apply(s, e).book)
  {
    assert EntryKnown(s.book, e.key, s.cache[e.key]);
    ItemsStay(s.cache, Apply(s, e).cache, s.pool, s.pool, s.book, Apply(s, e).book);
  }

  lemma PurgeKeepsItems(c: Cache, d: Cache, p: Pool, b: Book, now: int, idents: nat)
    requires Flight(c, p, idents) && ItemsKnown(c, p, b) && d == map key | key in c && !Expired(c[key], now) :: c[key]
    ensures ItemsKnown(d, p, b)
  {
    forall i: nat | Open(p, i) && Attached(c, p.items[i]) ensures Attached(d, p.items[i]) {}
    ItemsStay(c, d, p, p, b, b);
  }

  lemma OthersKeepItems(s: State, t: State)
    requires ItemsKnown(s.cache, s.pool, s.book) && t.cache == s.cache && Knows(s.book, t.book) && t.book.fates == s.book.fates
    requires t.pool.items == s.pool.items && t.pool.completed == s.pool.completed
    ensures ItemsKnown(t.cache, t.pool, t.book)
  {
    ItemsStay(s.cache, t.cache, s.pool, t.pool, s.book, t.book);
  }

  /** Steps of the pool and of the database. */
  lemma PoolKeepsItems(s: State, e: Event)
    requires ItemsKnown(s.cache, s.pool, s.book) && (e.Pick? || e.Execute? || e.EndBatch? || e.World?) && Enabled(s, e)
    ensures var t := Apply(s, e); ItemsKnown(t.cache, t.pool, t.book)
  {
    if !e.EndBatch? {
      OthersKeepItems(s, Apply(s, e));
    }
  }

  lemma StepKeepsItems(s: State, e: Event)
    requires Inv(s) && Enabled(s, e)
    ensures var t := Apply(s, e); ItemsKnown(t.cache, t.pool, t.book)
  {
    match e
    case Validate(_, _, _, _) => ValidateKeepsItems(s, e);
    case Complete(index, answered) => CompleteKeepsItems(s, index, ReplyTo(s.pool, index, answered));
    case BeginBatch(taken) => BeginKeepsItems(s.cache, s.book, taken, Started(taken, s.concurrency));
    case Enqueue(_, _, _) => EnqueueKeepsItems(s, e);
    case Purge(now) => PurgeKeepsItems(s.cache, Apply(s, e).cache, s.pool, s.book, now, s.idents);
    case _ => PoolKeepsItems(s, e);
  }

  lemma StepKeepsReplies(s: State, e: Event)
    requires Inv(s) && Enabled(s, e)
    ensures RepliesTrue(Apply(s, e).pool, Apply(s, e).book)
  {
    StepKnows(s, e);
    var t := Apply(s, e);
    forall i | i in t.pool.replies
      ensures i < |t.pool.items|
      ensures Justified(t.book, Accepted(t.pool.items[i].key, t.pool.items[i].user, t.pool.items[i].update), FateOf(t.pool.replies[i]))
    {
      var item := s.pool.items[i];
      if i in s.pool.replies {
        JustifiedStays(s.book, t.book, Accepted(item.key, item.user, item.update), FateOf(t.pool.replies[i]));
      } else {
        ReplyTrue(s, i);
      }
    }
  }

  /** What the database answers is true. */
  lemma ReplyTrue(s: State, index: nat)
    requires Inv(s) && Enabled(s, Execute(index))
    ensures var item, t := s.pool.items[index], Executed(s, index);
            Justified(t.book, Accepted(item.key, item.user, item.update), FateOf(t.pool.replies[index]))
  {
  }

  lemma StepKeepsOwned(s: State, e: Event)
    requires Owned(s.cache, s.accounts) && Enabled(s, e)
    ensures Owned(Apply(s, e).cache, s.accounts) && Apply(s, e).accounts == s.accounts
  {
  }

  lemma StepKeepsRecorded(s: State, e: Event)
    requires Recorded(s) && Enabled(s, e)
    ensures Recorded(Apply(s, e))
  {
    StepKnows(s, e);
  }

  lemma {:induction false} RunInv(states: seq<State>, events: seq<Event>, k: nat)
    requires Run(states, events) && k < |states|
    ensures Inv(states[k]) && states[k].accounts == states[0].accounts
  {
    if k > 0 {
      assert Steps(states, events, k - 1);
      var s, e := states[k - 1], events[k - 1];
      RunInv(states, events, k - 1);
      StepKeepsPool(s, e);
      StepKeepsFlight(s, e);
      StepKeepsItems(s, e);
      StepKeepsReplies(s, e);
      StepKeepsOwned(s, e);
      StepKeepsRecorded(s, e);
      StepKeepsBook(s, e);
    }
  }

  /** No accepted update is ever lost from sight: it is waiting in the cache, or it has exactly one
      fate, and what the fate says is true. In particular an update dropped as covered is within the
      threshold of a timestamp its record has held, and only machine updates are displaced. */
  lemma NoUpdateIsLost(states: seq<State>, events: seq<Event>, k: nat, n: nat)
    requires Run(states, events) && k < |states| && n < |states[k].book.accepted|
    ensures var b, a := states[k].book, states[k].book.accepted[n];
            && a.update.ticket == n
            && (Waiting(states[k].cache, a) <==> n !in b.fates)
            && (n in b.fates ==> Justified(b, a, b.fates[n]))
  {
    RunInv(states, events, k);
    var s := states[k];
    assert Accounted(s.cache, s.book, n);
    if Waiting(s.cache, s.book.accepted[n]) {
      assert EntryKnown(s.book, s.book.accepted[n].key, s.cache[s.book.accepted[n].key]);
    }
  }

  /** Each taken update is handed out once and completed once, by at most the configured number of
      workers; a completion that still finds its entry object finds exactly its update in flight; and
      when a batch ends all its items are completed and no cached entry is left in flight. */
  lemma EachTakenUpdateOnce(states: seq<State>, events: seq<Event>, k: nat)
    requires Run(states, events) && k < |events|
    ensures var s, e := states[k], events[k];
            && |Held(s.pool.workers)| <= s.concurrency
            && (forall v, w :: 0 <= v < w < |s.pool.workers| && s.pool.workers[v].Working? ==> s.pool.workers[v] != s.pool.workers[w])
            && (e.Pick? ==> s.pool.next !in Held(s.pool.workers) && s.pool.next !in s.pool.completed)
            && (e.Complete? ==>
                  && e.index < |s.pool.items| && e.index !in s.pool.completed
                  && (Attached(s.cache, s.pool.items[e.index]) ==>
                        s.cache[s.pool.items[e.index].key].inFlight == Some(s.pool.items[e.index].update)))
            && (e.EndBatch? ==>
                  && (forall i: nat :: i < |s.pool.items| <==> i in s.pool.completed)
                  && (forall key :: key in s.cache ==> s.cache[key].inFlight.None?))
  {
    RunInv(states, events, k);
    assert Steps(states, events, k);
    var s, e := states[k], events[k];
    HeldBound(s.pool.workers);
    assert !Busy(s.pool, s.pool.next);
    if e.Complete? {
      assert Open(s.pool, e.index);
    } else if e.EndBatch? {
      NoneInFlight(s.cache, s.pool, s.concurrency, s.idents);
    }
  }
}
