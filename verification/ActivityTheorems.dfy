/** What becomes of activity updates in every run, and when something is lost. */
module ActivityTheorems {
  import opened Sql
  import opened ActivityCache
  import opened ActivityRuns

  // ---------------------------------------------------------------------------------------------
  // Fates are final, and what decides them

  /** The worker of update n sees the database's answer. */
  predicate Answers(s: State, e: Event, n: nat) {
    e.Complete? && e.answered && e.index < |s.pool.items| && s.pool.items[e.index].update.ticket == n
  }

  /** The event validates, for another account, a key whose entry holds update n. */
  predicate Steals(s: State, e: Event, n: nat) {
    && e.Validate? && e.key in s.cache && s.cache[e.key].user != e.user
    && ((s.cache[e.key].pending.Some? && s.cache[e.key].pending.value.ticket == n)
        || (s.cache[e.key].inFlight.Some? && s.cache[e.key].inFlight.value.ticket == n))
  }

  lemma StepFates(s: State, e: Event, n: nat)
    requires Inv(s) && Enabled(s, e)
    ensures var t := Apply(s, e);
            && (IsDisplaced(t, n) <==> (IsDisplaced(s, n) || Steals(s, e, n)) && !Answers(s, e, n))
            && (n in s.book.fates && !IsDisplaced(s, n) ==> HasFate(t, n, s.book.fates[n]))
            && (Answers(s, e, n) ==> HasFate(t, n, FateOf(s.pool.replies[e.index])))
  {
    match e
    case Complete(index, answered) => CompleteFates(s, index, ReplyTo(s.pool, index, answered), n);
    case Validate(key, user, _, _) =>
      if key in s.cache {
        assert EntryKnown(s.book, key, s.cache[key]);
      }
      ValidatedFrame(s.book, s.cache, key, user);
    case Enqueue(key, _, _) =>
      assert EntryKnown(s.book, key, s.cache[key]);
    case _ =>
  }

  /** A fate other than displacement is final. */
  lemma {:induction false} FatesAreFinal(states: seq<State>, events: seq<Event>, i: nat, k: nat, n: nat)
    requires Run(states, events) && i <= k < |states| && n in states[i].book.fates && !IsDisplaced(states[i], n)
    ensures HasFate(states[k], n, states[i].book.fates[n])
    decreases k
  {
    if i < k {
      assert Steps(states, events, k - 1);
      var s := states[k - 1];
      FatesAreFinal(states, events, i, k - 1, n);
      RunInv(states, events, k - 1);
      StepFates(s, events[k - 1], n);
    }
  }

  /** The condition of the database write: a session must be stored, older and, for an update that
      names an instance, active under it; a machine must be stored. */
  predicate Matches(db: Database, record: Record, u: Update) {
    && record in db
    && (record.SessionRecord? ==>
          && db[record].lastActiveAt < u.timestamp
          && (Truthy(u.instance) ==> db[record].active && db[record].activeInstance == u.instance))
  }

  /** Statement of this very item, executed at step j. */
  predicate ExecutedAt(states: seq<State>, events: seq<Event>, j: nat, index: nat, item: Item) {
    && j < |events| && j < |states| && events[j] == Execute(index)
    && index < |states[j].pool.items| && states[j].pool.items[index] == item
  }

  lemma {:induction false} ReplyOrigin(states: seq<State>, events: seq<Event>, k: nat, index: nat) returns (j: nat)
    requires Run(states, events) && k < |states| && index in states[k].pool.replies && index < |states[k].pool.items|
    ensures j < k && ExecutedAt(states, events, j, index, states[k].pool.items[index])
    ensures var item := states[j].pool.items[index];
            states[k].pool.replies[index] == Answer(states[j].db, RecordOf(item.key, item.user), item.update)
  {
    assert Steps(states, events, k - 1);
    var s, e := states[k - 1], events[k - 1];
    if e == Execute(index) {
      j := k - 1;
    } else {
      j := ReplyOrigin(states, events, k - 1, index);
    }
  }

  lemma StatementStores(s: State, index: nat)
    requires index < |s.pool.items|
    ensures var item := s.pool.items[index];
            var record, u := RecordOf(item.key, item.user), item.update;
            && (Answer(s.db, record, u).Stored? <==> Matches(s.db, record, u))
            && Executed(s, index).db ==
                 if !Matches(s.db, record, u) then s.db
                 else s.db[record := Fields(u.timestamp, s.db[record].activeInstance, s.db[record].active || item.key.SessionKey?)]
  {
  }

  /** An answered update is persisted, for good, exactly when the condition of the write held at the
      moment its statement was executed; otherwise its fate says which part failed. */
  lemma PersistedIff(states: seq<State>, events: seq<Event>, i: nat, k: nat) returns (j: nat)
    requires Run(states, events) && i < |events| && events[i].Complete? && events[i].answered && i < k < |states|
    ensures j < i && events[i].index < |states[i].pool.items|
    ensures var item := states[i].pool.items[events[i].index];
            var record := RecordOf(item.key, item.user);
            && ExecutedAt(states, events, j, events[i].index, item)
            && item.update.ticket in states[k].book.fates
            && (states[k].book.fates[item.update.ticket].Persisted? <==> Matches(states[j].db, record, item.update))
            && states[j + 1].db ==
                 if !Matches(states[j].db, record, item.update) then states[j].db
                 else
                   var f := states[j].db[record];
                   states[j].db[record := Fields(item.update.timestamp, f.activeInstance, f.active || item.key.SessionKey?)]
  {
    var s, e := states[i], events[i];
    assert Steps(states, events, i);
    RunInv(states, events, i);
    j := ReplyOrigin(states, events, i, e.index);
    assert Steps(states, events, j);
    StatementStores(states[j], e.index);
    var ticket := s.pool.items[e.index].update.ticket;
    StepFates(s, e, ticket);
    FatesAreFinal(states, events, i + 1, k, ticket);
  }

  /** An update is lost to another account exactly when a validation for that account found it in the
      entry, and its own write has not been answered. */
  lemma {:induction false} DisplacedIff(states: seq<State>, events: seq<Event>, k: nat, n: nat)
    requires Run(states, events) && k < |states|
    ensures IsDisplaced(states[k], n) <==>
              && (exists j :: 0 <= j < k && Steals(states[j], events[j], n))
              && (forall i :: 0 <= i < k ==> !Answers(states[i], events[i], n))
    ensures (exists i :: 0 <= i < k && Answers(states[i], events[i], n)) ==> n in states[k].book.fates
  {
    if k > 0 {
      assert Steps(states, events, k - 1);
      var s := states[k - 1];
      DisplacedIff(states, events, k - 1, n);
      RunInv(states, events, k - 1);
      StepFates(s, events[k - 1], n);
    }
  }

  /** The event validates, for another account, a key whose entry holds work. */
  predicate StealsWork(s: State, e: Event) {
    && e.Validate? && e.key in s.cache && s.cache[e.key].user != e.user
    && (s.cache[e.key].pending.Some? || s.cache[e.key].inFlight.Some?)
  }

  /** No update of a run is ever displaced exactly when none of its validations names another account
      than that of an entry holding work. */
  lemma NothingDisplacedIff(states: seq<State>, events: seq<Event>)
    requires Run(states, events)
    ensures (forall k, n: nat :: 0 <= k < |states| ==> !IsDisplaced(states[k], n)) <==>
            (forall j :: 0 <= j < |events| ==> !StealsWork(states[j], events[j]))
  {
    forall k, n: nat | 0 <= k < |states| && IsDisplaced(states[k], n)
      ensures exists j :: 0 <= j < |events| && StealsWork(states[j], events[j])
    {
      DisplacedIff(states, events, k, n);
      var j :| 0 <= j < k && Steals(states[j], events[j], n);
      assert StealsWork(states[j], events[j]);
    }
    forall j | 0 <= j < |events| && StealsWork(states[j], events[j])
      ensures exists k, n: nat :: 0 <= k < |states| && IsDisplaced(states[k], n)
    {
      var entry := states[j].cache[events[j].key];
      var n := if entry.pending.Some? then entry.pending.value.ticket else entry.inFlight.value.ticket;
      assert Steps(states, events, j);
      RunInv(states, events, j);
      StepFates(states[j], events[j], n);
      assert IsDisplaced(states[j + 1], n);
    }
  }

  /** Validations of one key name one account. */
  predicate OneAccountPerKey(events: seq<Event>) {
    forall i, j :: 0 <= i < j < |events| && events[i].Validate? && events[j].Validate? && events[i].key == events[j].key ==>
      events[i].user == events[j].user
  }

  lemma StepUsers(s: State, e: Event, key: Key)
    requires Enabled(s, e) && key in Apply(s, e).cache
    ensures || (e.Validate? && e.key == key && e.user == Apply(s, e).cache[key].user)
            || (key in s.cache && Apply(s, e).cache[key].user == s.cache[key].user)
  {
  }

  lemma {:induction false} EntryWasValidated(states: seq<State>, events: seq<Event>, k: nat, key: Key) returns (i: nat)
    requires Run(states, events) && k < |states| && key in states[k].cache
    ensures i < k && events[i].Validate? && events[i].key == key && events[i].user == states[k].cache[key].user
  {
    assert Steps(states, events, k - 1);
    var s, e := states[k - 1], events[k - 1];
    if e.Validate? && e.key == key {
      i := k - 1;
    } else {
      StepUsers(s, e, key);
      i := EntryWasValidated(states, events, k - 1, key);
    }
  }

  /** While every key is validated for one account only, nothing is displaced. */
  lemma OneAccountKeepsAll(states: seq<State>, events: seq<Event>, k: nat, n: nat)
    requires Run(states, events) && OneAccountPerKey(events) && k < |states|
    ensures !IsDisplaced(states[k], n)
  {
    forall j | 0 <= j < |events| ensures !StealsWork(states[j], events[j]) {
      if StealsWork(states[j], events[j]) {
        var i := EntryWasValidated(states, events, j, events[j].key);
      }
    }
    NothingDisplacedIff(states, events);
  }

  // ---------------------------------------------------------------------------------------------
  // What a refusal means

  /** The answered write of an update of this entry object, whether or not it stored anything. */
  predicate Writes(s: State, e: Event, key: Key, ident: nat, at: int) {
    && e.Complete? && e.answered && e.index in s.pool.replies && e.index < |s.pool.items|
    && !s.pool.replies[e.index].NoMachine?
    && s.pool.items[e.index].key == key && s.pool.items[e.index].ident == ident && s.pool.items[e.index].update.timestamp == at
    && Attached(s.cache, s.pool.items[e.index])
  }

  /** ... and it matched no record. */
  predicate Misses(s: State, e: Event, key: Key, ident: nat, at: int) {
    Writes(s, e, key, ident, at) && !s.pool.replies[e.index].Stored?
  }

  /** A validation of this entry object read the timestamp. */
  predicate Reads(s: State, e: Event, key: Key, ident: nat, at: int) {
    && e.Validate? && e.key == key && e.stored == at
    && ident == if key in s.cache && s.cache[key].user == e.user then s.cache[key].ident else s.idents
  }

  predicate Raises(s: State, e: Event, key: Key, ident: nat, at: int) {
    Reads(s, e, key, ident, at) || Writes(s, e, key, ident, at)
  }

  /** What a step does to the last sent timestamp of an entry object it leaves in the cache. */
  predicate Tracks(s: State, t: State, e: Event, key: Key)
    requires key in t.cache
  {
    var entry := t.cache[key];
    if key in s.cache && s.cache[key].ident == entry.ident then
      && s.cache[key].user == entry.user && s.cache[key].lastSent <= entry.lastSent
      && (entry.lastSent == s.cache[key].lastSent || Raises(s, e, key, entry.ident, entry.lastSent))
    else
      entry.ident == s.idents && Reads(s, e, key, entry.ident, entry.lastSent)
  }

  /** A value raised is at most the last sent one, and a timestamp the record has held or a write that
      missed. */
  ghost predicate Explained(s: State, e: Event, key: Key, entry: Entry) {
    forall at :: Raises(s, e, key, entry.ident, at) ==>
      at <= entry.lastSent && (at in Times(s.book, RecordOf(key, entry.user)) || Misses(s, e, key, entry.ident, at))
  }

  lemma CompleteTracks(s: State, index: nat, answered: bool, key: Key)
    requires Inv(s) && Enabled(s, Complete(index, answered))
    requires key in Completed(s, index, ReplyTo(s.pool, index, answered)).cache
    ensures Tracks(s, Completed(s, index, ReplyTo(s.pool, index, answered)), Complete(index, answered), key)
  {
    assert Open(s.pool, index);
  }

  lemma CompleteIsExplained(s: State, index: nat, answered: bool, key: Key)
    requires Inv(s) && Enabled(s, Complete(index, answered))
    requires key in Completed(s, index, ReplyTo(s.pool, index, answered)).cache
    ensures var t := Completed(s, index, ReplyTo(s.pool, index, answered));
            Explained(s, Complete(index, answered), key, t.cache[key])
  {
    var item := s.pool.items[index];
    assert Open(s.pool, index);
    if answered && s.pool.replies[index].Stored? {
      assert Justified(s.book, Accepted(item.key, item.user, item.update), Persisted);
    }
  }

  lemma ValidateTracks(s: State, e: Event, key: Key)
    requires Inv(s) && e.Validate? && Enabled(s, e) && key in Apply(s, e).cache
    ensures var t := Apply(s, e); Tracks(s, t, e, key) && Explained(s, e, key, t.cache[key])
  {
  }

  lemma OthersTrack(s: State, e: Event, key: Key)
    requires !e.Complete? && !e.Validate? && Enabled(s, e) && key in Apply(s, e).cache
    ensures var t := Apply(s, e); Tracks(s, t, e, key) && Explained(s, e, key, t.cache[key])
  {
  }

  lemma StepTracks(s: State, e: Event, key: Key)
    requires Inv(s) && Enabled(s, e) && key in Apply(s, e).cache
    ensures var t := Apply(s, e); Tracks(s, t, e, key) && Explained(s, e, key, t.cache[key])
  {
    match e
    case Complete(index, answered) =>
      CompleteTracks(s, index, answered, key);
      CompleteIsExplained(s, index, answered, key);
    case Validate(_, _, _, _) => ValidateTracks(s, e, key);
    case _ => OthersTrack(s, e, key);
  }

  /** No value up to step k for this entry object is above `at`. */
  ghost predicate Greatest(states: seq<State>, events: seq<Event>, k: nat, key: Key, ident: nat, at: int)
    requires k <= |events| && k <= |states|
  {
    forall i, x :: 0 <= i < k && Raises(states[i], events[i], key, ident, x) ==> x <= at
  }

  predicate Missed(states: seq<State>, events: seq<Event>, k: nat, key: Key, ident: nat, at: int)
    requires k <= |events| && k <= |states|
  {
    exists i :: 0 <= i < k && Misses(states[i], events[i], key, ident, at)
  }

  predicate Raised(states: seq<State>, events: seq<Event>, k: nat, key: Key, ident: nat, at: int)
    requires k <= |events| && k <= |states|
  {
    exists i :: 0 <= i < k && Raises(states[i], events[i], key, ident, at)
  }

  lemma StepIdents(s: State, e: Event, key: Key, ident: nat, at: int)
    requires Inv(s) && Enabled(s, e)
    ensures s.idents <= Apply(s, e).idents && (Raises(s, e, key, ident, at) ==> ident < Apply(s, e).idents)
  {
  }

  lemma {:induction false} RaisedAreOld(states: seq<State>, events: seq<Event>, i: nat, k: nat, key: Key, ident: nat, at: int)
    requires Run(states, events) && i < k < |states| && Raises(states[i], events[i], key, ident, at)
    ensures ident < states[k].idents
    decreases k
  {
    assert Steps(states, events, k - 1);
    RunInv(states, events, k - 1);
    var s := states[k - 1];
    StepIdents(s, events[k - 1], key, ident, at);
    if i < k - 1 {
      RaisedAreOld(states, events, i, k - 1, key, ident, at);
    }
  }

  lemma NothingRaisedBefore(states: seq<State>, events: seq<Event>, k: nat, key: Key)
    requires Run(states, events) && k < |states|
    ensures forall i, x :: 0 <= i < k ==> !Raises(states[i], events[i], key, states[k].idents, x)
  {
    forall i, x | 0 <= i < k && Raises(states[i], events[i], key, states[k].idents, x) ensures false {
      RaisedAreOld(states, events, i, k, key, states[k].idents, x);
    }
  }

  /** Step k - 1 adds at most one value, which is no greater than `at`. */
  lemma GreatestGrows(states: seq<State>, events: seq<Event>, k: nat, s: State, e: Event, key: Key, ident: nat, before: int, at: int)
    requires 0 < k <= |events| && k <= |states| && s == states[k - 1] && e == events[k - 1] && before <= at
    requires Greatest(states, events, k - 1, key, ident, before)
    requires forall x :: Raises(s, e, key, ident, x) ==> x <= at
    ensures Greatest(states, events, k, key, ident, at)
  {
  }

  lemma RaisedStays(states: seq<State>, events: seq<Event>, k: nat, key: Key, ident: nat, at: int)
    requires 0 < k <= |events| && k <= |states|
    ensures Raised(states, events, k - 1, key, ident, at) || Raises(states[k - 1], events[k - 1], key, ident, at) ==>
              Raised(states, events, k, key, ident, at)
    ensures Missed(states, events, k - 1, key, ident, at) || Misses(states[k - 1], events[k - 1], key, ident, at) ==>
              Missed(states, events, k, key, ident, at)
  {
  }

  /** The last sent timestamp of an entry object is the greatest value its validations read and its
      answered writes carried, and that is a timestamp its record has held or a write that missed. */
  lemma {:induction false} LastSentIsGreatest(states: seq<State>, events: seq<Event>, k: nat, key: Key)
    requires Run(states, events) && k < |states| && key in states[k].cache
    ensures var e := states[k].cache[key];
            && Greatest(states, events, k, key, e.ident, e.lastSent) && Raised(states, events, k, key, e.ident, e.lastSent)
            && (e.lastSent in Times(states[k].book, RecordOf(key, e.user)) || Missed(states, events, k, key, e.ident, e.lastSent))
  {
    assert Steps(states, events, k - 1);
    var s, event, entry := states[k - 1], events[k - 1], states[k].cache[key];
    RunInv(states, events, k - 1);
    StepTracks(s, event, key);
    StepKnows(s, event);
    RaisedStays(states, events, k, key, entry.ident, entry.lastSent);
    if key in s.cache && s.cache[key].ident == entry.ident {
      LastSentIsGreatest(states, events, k - 1, key);
      GreatestGrows(states, events, k, s, event, key, entry.ident, s.cache[key].lastSent, entry.lastSent);
    } else {
      NothingRaisedBefore(states, events, k - 1, key);
      GreatestGrows(states, events, k, s, event, key, entry.ident, entry.lastSent, entry.lastSent);
    }
  }

  /** The record has never held a timestamp within the threshold. */
  predicate Unheard(b: Book, record: Record, timestamp: int) {
    forall at :: at in Times(b, record) ==> !Near(timestamp, at)
  }

  /** An idle entry refuses an update that is not near any timestamp its record has held exactly when
      it is near an answered write of this entry object that stored nothing, and neither a
      validation nor another answered write has given the object a later timestamp. */
  lemma SilencedIff(states: seq<State>, events: seq<Event>, k: nat, key: Key, timestamp: int, instance: Option<string>)
    requires Run(states, events) && k < |states| && key in states[k].cache
    requires states[k].cache[key].pending.None? && states[k].cache[key].inFlight.None?
    ensures Unheard(states[k].book, RecordOf(key, states[k].cache[key].user), timestamp) ==>
              (!Accepts(states[k].cache[key], timestamp, instance) <==>
               exists at :: && Near(timestamp, at)
                            && Missed(states, events, k, key, states[k].cache[key].ident, at)
                            && Greatest(states, events, k, key, states[k].cache[key].ident, at))
  {
    var e := states[k].cache[key];
    LastSentIsGreatest(states, events, k, key);
    forall at | Missed(states, events, k, key, e.ident, at) && Greatest(states, events, k, key, e.ident, at)
      ensures at == e.lastSent
    {
      var i :| 0 <= i < k && Misses(states[i], events[i], key, e.ident, at);
      assert Raises(states[i], events[i], key, e.ident, at);
    }
  }

  /** So with every answered write of the entry object stored, an idle entry refuses an update only if it
      is within the threshold of a timestamp the record has held. */
  lemma RefusedOnlyIfRecent(states: seq<State>, events: seq<Event>, k: nat, key: Key, timestamp: int, instance: Option<string>)
    requires Run(states, events) && k < |states| && key in states[k].cache
    requires states[k].cache[key].pending.None? && states[k].cache[key].inFlight.None?
    requires forall at :: !Missed(states, events, k, key, states[k].cache[key].ident, at)
    requires !Accepts(states[k].cache[key], timestamp, instance)
    ensures exists at :: at in Times(states[k].book, RecordOf(key, states[k].cache[key].user)) && Near(timestamp, at)
  {
    if Unheard(states[k].book, RecordOf(key, states[k].cache[key].user), timestamp) {
      SilencedIff(states, events, k, key, timestamp, instance);
    }
  }

  /** A timestamp that counts for an update of this instance: one raised for the entry object, or that of
      an update of the same instance in flight or waiting. */
  predicate Counts(states: seq<State>, events: seq<Event>, k: nat, key: Key, instance: Option<string>, at: int)
    requires k <= |events| && k < |states| && key in states[k].cache
  {
    var e := states[k].cache[key];
    || Raised(states, events, k, key, e.ident, at)
    || (e.inFlight.Some? && e.inFlight.value.instance == instance && e.inFlight.value.timestamp == at)
    || (e.pending.Some? && e.pending.value.instance == instance && e.pending.value.timestamp == at)
  }

  /** Whatever an entry holds, it accepts an update exactly if that is not older than the one waiting and
      not within the threshold of the greatest timestamp that counts. */
  lemma AcceptsIff(states: seq<State>, events: seq<Event>, k: nat, key: Key, timestamp: int, instance: Option<string>) returns (greatest: int)
    requires Run(states, events) && k < |states| && key in states[k].cache
    ensures Counts(states, events, k, key, instance, greatest)
    ensures forall at :: Counts(states, events, k, key, instance, at) ==> at <= greatest
    ensures var e := states[k].cache[key];
            Accepts(e, timestamp, instance) <==>
            && (e.pending.Some? ==> timestamp >= e.pending.value.timestamp)
            && (timestamp - greatest > 30_000 || greatest - timestamp > 30_000)
  {
    LastSentIsGreatest(states, events, k, key);
    greatest := Watermark(states[k].cache[key], instance);
  }

  // ---------------------------------------------------------------------------------------------
  // How long an entry stays

  /** Until when the last validation of the key made its entry valid. */
  function ValidUntil(events: seq<Event>, k: nat, key: Key): Option<int>
    requires k <= |events|
  {
    if k == 0 then None
    else if events[k - 1].Validate? && events[k - 1].key == key then Some(events[k - 1].until)
    else ValidUntil(events, k - 1, key)
  }

  lemma StepUntil(s: State, e: Event, key: Key)
    requires Enabled(s, e) && key in Apply(s, e).cache
    ensures if e.Validate? && e.key == key then Apply(s, e).cache[key].validUntil == e.until
            else key in s.cache && Apply(s, e).cache[key].validUntil == s.cache[key].validUntil
  {
  }

  lemma {:induction false} EntryValidUntil(states: seq<State>, events: seq<Event>, k: nat, key: Key)
    requires Run(states, events) && k < |states| && key in states[k].cache
    ensures ValidUntil(events, k, key) == Some(states[k].cache[key].validUntil)
  {
    assert Steps(states, events, k - 1);
    StepUntil(states[k - 1], events[k - 1], key);
    if !(events[k - 1].Validate? && events[k - 1].key == key) {
      EntryValidUntil(states, events, k - 1, key);
    }
  }

  /** The database says that the record of the entry's write does not exist. */
  predicate FindsNone(s: State, e: Event, key: Key) {
    && e.Complete? && e.answered && e.index < |s.pool.items| && e.index in s.pool.replies && s.pool.replies[e.index].NoMachine?
    && s.pool.items[e.index].key == key && Attached(s.cache, s.pool.items[e.index])
  }

  /** An entry leaves the cache exactly when its record turns out missing, or a clean-up after the end of
      its last validation finds it without work. */
  lemma LeavesIff(states: seq<State>, events: seq<Event>, k: nat, key: Key)
    requires Run(states, events) && k < |events| && key in states[k].cache
    ensures var s, e := states[k], events[k];
            key !in states[k + 1].cache <==>
            || FindsNone(s, e, key)
            || (e.Purge? && ValidUntil(events, k, key).Some? && ValidUntil(events, k, key).value < e.now
                && s.cache[key].pending.None? && s.cache[key].inFlight.None?)
  {
    assert Steps(states, events, k);
    EntryValidUntil(states, events, k, key);
  }

  // ---------------------------------------------------------------------------------------------
  // When a failed write gives way to an older one

  /** The event accepts a timestamp before the one in flight. */
  predicate StepsBack(s: State, e: Event) {
    && e.Enqueue? && e.key in s.cache && s.cache[e.key].inFlight.Some?
    && e.timestamp < s.cache[e.key].inFlight.value.timestamp
  }

  /** Update n stepped back when it was accepted. */
  predicate SteppedBack(states: seq<State>, events: seq<Event>, k: nat, n: nat)
    requires k <= |events| && k <= |states|
  {
    exists j :: 0 <= j < k && StepsBack(states[j], events[j]) && |states[j].book.accepted| == n
  }

  lemma StepAccepts(s: State, e: Event)
    requires Enabled(s, e)
    ensures s.book.accepted <= Apply(s, e).book.accepted
  {
    StepKnows(s, e);
  }

  lemma {:induction false} AcceptedGrows(states: seq<State>, events: seq<Event>, i: nat, k: nat)
    requires Run(states, events) && i <= k < |states|
    ensures |states[i].book.accepted| <= |states[k].book.accepted|
    decreases k
  {
    if i < k {
      assert Steps(states, events, k - 1);
      var s := states[k - 1];
      AcceptedGrows(states, events, i, k - 1);
      StepAccepts(s, events[k - 1]);
    }
  }

  /** An update becomes pending behind another one only by being accepted. */
  lemma StepPairs(s: State, e: Event, key: Key)
    requires Enabled(s, e) && key in Apply(s, e).cache
    requires Apply(s, e).cache[key].pending.Some? && Apply(s, e).cache[key].inFlight.Some?
    ensures key in s.cache && s.cache[key].inFlight == Apply(s, e).cache[key].inFlight
    ensures if e.Enqueue? && e.key == key
            then Apply(s, e).cache[key].pending == Some(Update(|s.book.accepted|, e.timestamp, e.instance))
            else Apply(s, e).cache[key].pending == s.cache[key].pending
  {
  }

  lemma SteppedBackStays(states: seq<State>, events: seq<Event>, k: nat, n: nat)
    requires 0 < k <= |events| && k <= |states| && (events[k - 1].Enqueue? ==> n < |states[k - 1].book.accepted|)
    ensures SteppedBack(states, events, k, n) <==> SteppedBack(states, events, k - 1, n)
  {
  }

  lemma JustSteppedBack(states: seq<State>, events: seq<Event>, k: nat)
    requires Run(states, events) && 0 < k < |states| && events[k - 1].Enqueue?
    ensures SteppedBack(states, events, k, |states[k - 1].book.accepted|) <==> StepsBack(states[k - 1], events[k - 1])
  {
    var s := states[k - 1];
    forall j | 0 <= j < k - 1 && StepsBack(states[j], events[j]) ensures |states[j].book.accepted| < |s.book.accepted| {
      assert Steps(states, events, j);
      AcceptedGrows(states, events, j + 1, k - 1);
    }
  }

  lemma {:induction false} PairsStepBack(states: seq<State>, events: seq<Event>, k: nat, key: Key)
    requires Run(states, events) && k < |states| && key in states[k].cache
    requires states[k].cache[key].pending.Some? && states[k].cache[key].inFlight.Some?
    ensures var p, u := states[k].cache[key].pending.value, states[k].cache[key].inFlight.value;
            p.timestamp < u.timestamp <==> SteppedBack(states, events, k, p.ticket)
  {
    assert Steps(states, events, k - 1);
    var s, e, n := states[k - 1], events[k - 1], states[k].cache[key].pending.value.ticket;
    StepPairs(s, e, key);
    if e.Enqueue? && e.key == key {
      JustSteppedBack(states, events, k);
    } else {
      RunInv(states, events, k - 1);
      assert EntryKnown(s.book, key, s.cache[key]);
      PairsStepBack(states, events, k - 1, key);
      SteppedBackStays(states, events, k, n);
    }
  }

  predicate YieldsTo(s: State, n: nat, later: nat) {
    HasFate(s, n, Yielded(later))
  }

  lemma SettleYields(b: Book, e: Entry, item: Item, r: Option<Reply>, n: nat, later: nat)
    requires e.inFlight == Some(item.update) && EntryKnown(b, item.key, e)
    requires n in Settle(b, e, item, r).fates && Settle(b, e, item, r).fates[n] == Yielded(later)
    ensures (n in b.fates && b.fates[n] == Yielded(later)) || (e.pending.Some? && item.update.ticket == n && e.pending.value.ticket == later)
  {
    if r.Some? {
      SettledOwn(b, e, item, r);
      SettleFrame(b, e, item, r);
    }
  }

  lemma OnlyFailuresYield(s: State, e: Event, n: nat, later: nat)
    requires Enabled(s, e) && YieldsTo(Apply(s, e), n, later) && !YieldsTo(s, n, later)
    ensures e.Complete? && Attached(s.cache, s.pool.items[e.index])
  {
    if e.Validate? {
      ValidatedFrame(s.book, s.cache, e.key, e.user);
    }
  }

  lemma StepYields(s: State, e: Event, n: nat, later: nat) returns (key: Key)
    requires Inv(s) && Enabled(s, e) && YieldsTo(Apply(s, e), n, later) && !YieldsTo(s, n, later)
    ensures key in s.cache && s.cache[key].pending.Some? && s.cache[key].inFlight.Some?
    ensures s.cache[key].inFlight.value.ticket == n && s.cache[key].pending.value.ticket == later
  {
    OnlyFailuresYield(s, e, n, later);
    var item := s.pool.items[e.index];
    key := item.key;
    assert Open(s.pool, e.index) && EntryKnown(s.book, key, s.cache[key]);
    SettleYields(s.book, s.cache[key], item, ReplyTo(s.pool, e.index, e.answered), n, later);
  }

  /** A failed write gives way to an older update exactly when that one was accepted with a timestamp
      before the one then in flight; a replacement in the queue is never older (`NoUpdateIsLost`). */
  lemma {:induction false} YieldsToOlderIff(states: seq<State>, events: seq<Event>, k: nat, n: nat, later: nat)
    requires Run(states, events) && k < |states| && YieldsTo(states[k], n, later)
    ensures n < later < |states[k].book.accepted|
    ensures states[k].book.accepted[later].update.timestamp < states[k].book.accepted[n].update.timestamp
            <==> SteppedBack(states, events, k, later)
  {
    assert Steps(states, events, k - 1);
    var s, e := states[k - 1], events[k - 1];
    RunInv(states, events, k - 1);
    StepAccepts(s, e);
    if YieldsTo(s, n, later) {
      YieldsToOlderIff(states, events, k - 1, n, later);
    } else {
      OnlyFailuresYield(s, e, n, later);
      var key := StepYields(s, e, n, later);
      PairsStepBack(states, events, k - 1, key);
      assert EntryKnown(s.book, key, s.cache[key]);
    }
    SteppedBackStays(states, events, k, later);
  }

  // ---------------------------------------------------------------------------------------------
  // Runs in which something is lost

  function Initial(db: Database, accounts: map<string, string>): (s: State)
    ensures Start(s)
  {
    State(map[], NO_POOL, 8, 0, db, accounts,
          Book([], map[], map record | record in db :: {db[record].lastActiveAt}))
  }

  /** Two accounts may use the same machine id. When the second validates it, the update the first has
      queued disappears. */
  lemma SharedMachineIdLosesUpdate(id: string, user: string, other: string, at: int)
    returns (states: seq<State>, events: seq<Event>)
    requires user != other && at > THRESHOLD_MS
    ensures Run(states, events) && |events| == 3
    ensures var a := Accepted(MachineKey(id), user, Update(0, at, None));
            && states[2].book.accepted == [a] && Waiting(states[2].cache, a)
            && !Waiting(states[3].cache, a) && HasFate(states[3], 0, Displaced(other))
            && Times(states[3].book, MachineRecord(id, user)) == {0}
  {
    var key, fields := MachineKey(id), Fields(0, None, false);
    var s0 := Initial(map[MachineRecord(id, user) := fields, MachineRecord(id, other) := fields], map[]);
    var e0, e1, e2 := Validate(key, user, 0, 0), Enqueue(key, at, None), Validate(key, other, 0, 0);
    var s1 := Apply(s0, e0);
    var s2 := Apply(s1, e1);
    var s3 := Apply(s2, e2);
    states, events := [s0, s1, s2, s3], [e0, e1, e2];
  }

  /** A run may go on with any enabled event. */
  lemma Extend(states: seq<State>, events: seq<Event>, e: Event) returns (more: seq<State>)
    requires Run(states, events) && Enabled(states[|events|], e)
    ensures more == states + [Apply(states[|events|], e)] && Run(more, events + [e])
  {
    more := states + [Apply(states[|events|], e)];
    forall i: nat | i < |events| + 1 ensures Steps(more, events + [e], i) {
      assert i < |events| ==> Steps(states, events, i);
    }
  }

  /** A worker is about to write the only update of the only entry. */
  predicate Writing(s: State, key: Key, user: string, fields: Fields, u: Update) {
    var record := RecordOf(key, user);
    && s.cache == map[key := Entry(0, user, 0, fields.lastActiveAt, None, Some(u))]
    && s.pool == Pool([Item(key, user, 0, u)], 1, [Working(0)], {}, map[])
    && s.db == map[record := fields]
    && s.book == Book([Accepted(key, user, u)], map[], map[record := {fields.lastActiveAt}])
  }

  predicate Idle(s: State, key: Key, user: string, fields: Fields, u: Option<Update>) {
    var record := RecordOf(key, user);
    && s.cache == map[key := Entry(0, user, 0, fields.lastActiveAt, u, None)]
    && s.pool == NO_POOL
    && s.concurrency > 0
    && s.db == map[record := fields]
    && s.book == Book(if u.Some? then [Accepted(key, user, u.value)] else [], map[], map[record := {fields.lastActiveAt}])
  }

  lemma TakeOne(s: State, key: Key, user: string, fields: Fields, u: Update)
    requires Idle(s, key, user, fields, Some(u))
    ensures var taken := [Item(key, user, 0, u)];
            && Enabled(s, BeginBatch(taken))
            && Enabled(Apply(s, BeginBatch(taken)), Pick(0))
            && Writing(Apply(Apply(s, BeginBatch(taken)), Pick(0)), key, user, fields, u)
  {
    assert [Item(key, user, 0, u)][0].key == key;
  }

  lemma ReachWriting(key: Key, user: string, fields: Fields, u: Update)
    returns (states: seq<State>, events: seq<Event>)
    requires u.ticket == 0 && u.timestamp > fields.lastActiveAt + THRESHOLD_MS && (key.MachineKey? ==> u.instance.None?)
    ensures Run(states, events) && |events| == 4 && Writing(states[4], key, user, fields, u)
  {
    var s0 := Initial(map[RecordOf(key, user) := fields], map[key.id := user]);
    events := [Validate(key, user, fields.lastActiveAt, 0)];
    states := Extend([s0], [], events[0]);
    assert Idle(states[1], key, user, fields, None);
    states := Extend(states, events, Enqueue(key, u.timestamp, u.instance));
    events := events + [Enqueue(key, u.timestamp, u.instance)];
    assert Idle(states[2], key, user, fields, Some(u));
    TakeOne(states[2], key, user, fields, u);
    var taken := [Item(key, user, 0, u)];
    states := Extend(states, events, BeginBatch(taken));
    events := events + [BeginBatch(taken)];
    states := Extend(states, events, Pick(0));
    events := events + [Pick(0)];
  }

  /** The write of an instance that no longer owns the session is answered but stores nothing; and
      the cache then refuses the owner's update within the threshold of it. */
  lemma FencedWriteSilencesOwner(id: string, user: string, owner: string, stale: string, at: int, later: int)
    returns (states: seq<State>, events: seq<Event>)
    requires owner != stale && stale != "" && at > THRESHOLD_MS && Near(later, at)
    ensures Run(states, events) && |events| == 6
    ensures var s := states[6];
            && s.book.accepted == [Accepted(SessionKey(id), user, Update(0, at, Some(stale)))]
            && HasFate(s, 0, Fenced(Some(owner), true))
            && s.db == map[SessionRecord(id) := Fields(0, Some(owner), true)]
            && SessionKey(id) in s.cache && !Accepts(s.cache[SessionKey(id)], later, Some(owner))
  {
    var key, fields, u := SessionKey(id), Fields(0, Some(owner), true), Update(0, at, Some(stale));
    states, events := ReachWriting(key, user, fields, u);
    states := Extend(states, events, Execute(0));
    events := events + [Execute(0)];
    var s := states[5];
    assert s.pool == Pool([Item(key, user, 0, u)], 1, [Working(0)], {}, map[0 := NotOwner(Some(owner), true)]);
    assert s.cache == map[key := Entry(0, user, 0, 0, None, Some(u))] && s.db == map[SessionRecord(id) := fields];
    states := Extend(states, events, Complete(0, true));
    events := events + [Complete(0, true)];
  }

  /** A failed write gives way to an older update accepted meanwhile. */
  lemma FailedWriteYieldsToOlder(id: string, user: string, newer: int, older: int)
    returns (states: seq<State>, events: seq<Event>)
    requires THRESHOLD_MS < older < newer - THRESHOLD_MS
    ensures Run(states, events) && |events| == 6
    ensures var b := states[6].book;
            && |b.accepted| == 2 && b.accepted[0].update.timestamp == newer && b.accepted[1].update.timestamp == older
            && YieldsTo(states[6], 0, 1) && Times(b, MachineRecord(id, user)) == {0}
  {
    var e := Enqueue(MachineKey(id), older, None);
    states, events := ReachWriting(MachineKey(id), user, Fields(0, None, false), Update(0, newer, None));
    states := Extend(states, events, e);
    events := events + [e];
    states := Extend(states, events, Complete(0, false));
    events := events + [Complete(0, false)];
  }
}
