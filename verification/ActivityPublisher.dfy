/** The session activity publisher: heartbeats are coalesced, state changes are not, and forgetting
    stale entries is unobservable. */
module ActivityPublisher {
  import opened Generations
  import Routing

  datatype Activity = Activity(userId: string, sessionId: string, active: bool, thinking: bool)

  /** An emission, as remembered by a publisher that never forgets. */
  datatype Emission = Emission(active: bool, thinking: bool, at: int)

  type Memory = map<(string, string), Emission>

  function Id(a: Activity): (string, string) {
    (a.userId, a.sessionId)
  }

  /** When the ideal publisher emits: first sight, a change of state, or a due refresh. */
  predicate Emits(memory: Memory, a: Activity, now: int, refreshMs: int) {
    || Id(a) !in memory
    || memory[Id(a)].active != a.active
    || memory[Id(a)].thinking != a.thinking
    || now - memory[Id(a)].at >= refreshMs
  }

  function Remember(memory: Memory, a: Activity, now: int, refreshMs: int): Memory {
    if Emits(memory, a, now, refreshMs) then memory[Id(a) := Emission(a.active, a.thinking, now)] else memory
  }

  // ---------------------------------------------------------------------------------------------
  // Keys

  function Key(userId: string, sessionId: string): string {
    Decimal(|userId|) + ":" + userId + sessionId
  }

  lemma {:induction false} DecimalColonFree(n: nat)
    ensures ':' !in Decimal(n)
  {
    if n >= 10 {
      DecimalColonFree(n / 10);
    }
  }

  lemma DecimalInjective(m: nat, n: nat)
    requires Decimal(m) == Decimal(n)
    ensures m == n
  {
    DecimalIsFixed(m);
    DecimalIsFixed(n);
    FixedOrder(m, n, |Decimal(m)|);
  }

  /** The length prefix makes the key unambiguous for arbitrary ids. */
  lemma KeyInjective(u: string, s: string, v: string, t: string)
    ensures Key(u, s) == Key(v, t) <==> u == v && s == t
  {
    if Key(u, s) == Key(v, t) {
      DecimalColonFree(|u|);
      DecimalColonFree(|v|);
      assert Key(u, s) == Decimal(|u|) + ":" + (u + s);
      assert Key(v, t) == Decimal(|v|) + ":" + (v + t);
      Routing.SplitAtColon(Decimal(|u|), u + s, Decimal(|v|), v + t);
      DecimalInjective(|u|, |v|);
      assert u == (u + s)[..|u|] && v == (v + t)[..|v|];
      assert s == (u + s)[|u|..] && t == (v + t)[|v|..];
    }
  }

  lemma OnlyKey(a: Activity)
    ensures forall u, s :: Key(u, s) == Key(a.userId, a.sessionId) <==> (u, s) == Id(a)
  {
    forall u, s ensures Key(u, s) == Key(a.userId, a.sessionId) <==> (u, s) == Id(a) {
      KeyInjective(u, s, a.userId, a.sessionId);
    }
  }

  // ---------------------------------------------------------------------------------------------
  // The publisher

  datatype Entry = Entry(active: bool, thinking: bool, lastPublishedAt: int, lastObservedAt: int)

  class Publisher {
    const refreshMs: int
    const staleMs: int
    var states: map<string, Entry>
    var lastCleanupAt: int
    ghost var memory: Memory   // the last emission for every session, whether or not still known
    ghost var clock: int       // the last reading
    ghost var steady: bool     // no reading so far was below an earlier one

    /** Kept entries match what was emitted; with a steady clock a forgotten one was emitted at least
        staleMs ago. */
    ghost predicate Valid()
      reads this
    {
      && 0 < refreshMs < staleMs
      && (forall u, s :: Key(u, s) in states ==> (u, s) in memory && Matches(states[Key(u, s)], memory[(u, s)]))
      && (steady ==> forall u, s :: (u, s) in memory && Key(u, s) !in states ==> clock - memory[(u, s)].at >= staleMs)
    }

    ghost predicate Matches(e: Entry, m: Emission)
      reads this
    {
      && e.active == m.active && e.thinking == m.thinking && m.at == e.lastPublishedAt
      && (steady ==> e.lastPublishedAt <= e.lastObservedAt <= clock)
    }

    constructor (refreshMs: int, staleMs: int, now: int)
      requires 0 < refreshMs < staleMs
      ensures Valid() && memory == map[] && clock == now && steady
      ensures this.refreshMs == refreshMs && this.staleMs == staleMs
      ensures states == map[] && lastCleanupAt == now
    {
      this.refreshMs, this.staleMs := refreshMs, staleMs;
      states, lastCleanupAt, memory, clock, steady := map[], now, map[], now, true;
    }

    method CleanupIfNeeded(observedAt: int)
      requires Valid() && observedAt == clock
      modifies this`states, this`lastCleanupAt
      ensures Valid()
      ensures lastCleanupAt == if observedAt - old(lastCleanupAt) >= staleMs then observedAt else old(lastCleanupAt)
      ensures var due := observedAt - old(lastCleanupAt) >= staleMs;
              forall k :: k in states <==>
                          k in old(states) && !(due && observedAt - old(states)[k].lastObservedAt >= staleMs)
      ensures forall k :: k in states ==> states[k] == old(states)[k]
    {
      if observedAt - lastCleanupAt < staleMs {
        return;
      }
      lastCleanupAt := observedAt;
      var keys := states.Keys;
      while keys != {}
        invariant Valid() && keys <= old(states).Keys && lastCleanupAt == observedAt
        invariant forall k :: k in states ==> k in old(states) && states[k] == old(states)[k]
        invariant forall k :: k in keys ==> k in states
        invariant forall k :: k in old(states) && k !in keys ==>
                    (k in states <==> observedAt - old(states)[k].lastObservedAt < staleMs)
        decreases keys
      {
        var key :| key in keys;
        keys := keys - {key};
        if observedAt - states[key].lastObservedAt >= staleMs {
          states := states - {key};
        }
      }
    }

    /** The entry survives the cleanup that precedes an observation. */
    predicate Keeps(key: string, now: int)
      reads this
    {
      key in states && (now - lastCleanupAt < staleMs || now - states[key].lastObservedAt < staleMs)
    }

    /** Emits exactly when the ideal publisher does or when it has forgotten the session; with a clock
        that never steps back, exactly when the ideal one does. */
    method Publish(a: Activity, now: int) returns (emitted: bool)
      requires Valid()
      modifies this
      ensures Valid() && clock == now && steady == (old(steady) && old(clock) <= now)
      ensures emitted <==> Emits(old(memory), a, now, refreshMs) || !old(Keeps(Key(a.userId, a.sessionId), now))
      ensures steady ==> emitted == Emits(old(memory), a, now, refreshMs)
      ensures memory == if emitted then old(memory)[Id(a) := Emission(a.active, a.thinking, now)] else old(memory)
      ensures lastCleanupAt == if now - old(lastCleanupAt) >= staleMs then now else old(lastCleanupAt)
      ensures Key(a.userId, a.sessionId) in states && states[Key(a.userId, a.sessionId)].lastObservedAt == now
    {
      OnlyKey(a);
      steady := steady && clock <= now;
      clock := now;
      CleanupIfNeeded(now);
      var key := Key(a.userId, a.sessionId);
      emitted := key !in states || states[key].active != a.active || states[key].thinking != a.thinking
                 || now - states[key].lastPublishedAt >= refreshMs;
      Note(a, now, emitted);
    }

    /** The entry after an observation that was emitted or coalesced. */
    method Note(a: Activity, now: int, emitted: bool)
      requires Valid() && clock == now
      requires Key(a.userId, a.sessionId) in states || emitted
      modifies this`states, this`memory
      ensures Valid() && Key(a.userId, a.sessionId) in states && states[Key(a.userId, a.sessionId)].lastObservedAt == now
      ensures memory == if emitted then old(memory)[Id(a) := Emission(a.active, a.thinking, now)] else old(memory)
    {
      OnlyKey(a);
      var key := Key(a.userId, a.sessionId);
      if emitted {
        states := states[key := Entry(a.active, a.thinking, now, now)];
        memory := memory[Id(a) := Emission(a.active, a.thinking, now)];
      } else {
        states := states[key := states[key].(lastObservedAt := now)];
      }
    }

    /** The publisher's history is this run: with a steady clock it has emitted what the ideal one
        emits; with any clock the last emission for a session is what was last observed of it. */
    ghost predicate Reflects(start: int, run: seq<Observation>)
      reads this
    {
      && clock == LastReading(start, run)
      && (steady <==> Ascending(start, run))
      && (steady ==> memory == MemoryAfter(run, refreshMs))
      && ShowsLast(memory, run)
    }

    method PublishNext(ghost start: int, ghost run: seq<Observation>, o: Observation) returns (emitted: bool)
      requires Valid() && Reflects(start, run)
      modifies this
      ensures Valid() && Reflects(start, run + [o])
      ensures steady ==> emitted == Emits(MemoryAfter(run, refreshMs), o.activity, o.at, refreshMs)
    {
      ghost var before := memory;
      emitted := Publish(o.activity, o.at);
      assert (run + [o])[..|run|] == run;
      StillShowsLast(before, memory, run, o);
    }

    /** A whole run of a new publisher. */
    method PublishAll(run: seq<Observation>) returns (emitted: seq<bool>)
      requires Valid() && memory == map[] && steady
      modifies this
      ensures Valid() && Reflects(old(clock), run) && |emitted| == |run|
      ensures steady ==> Flags(emitted, run, refreshMs)
      decreases |run|
    {
      if run == [] {
        return [];
      }
      var n := |run| - 1;
      emitted := PublishAll(run[..n]);
      var e := PublishNext(old(clock), run[..n], run[n]);
      assert run[..n] + [run[n]] == run;
      FlagsNext(emitted, run, e, refreshMs);
      emitted := emitted + [e];
    }
  }

  /** A clock reading from before a cleanup makes the publisher repeat an unchanged state at once. */
  method BackwardClockRepeats(a: Activity) returns (first: bool, second: bool, third: bool)
    ensures first && !second && third
  {
    var p := new Publisher(30, 31, 70);
    first := p.Publish(a, 100);
    second := p.Publish(a, 70);
    third := p.Publish(a, 101);
  }

  // ---------------------------------------------------------------------------------------------
  // What observers see over a whole run

  datatype Observation = Observation(activity: Activity, at: int)

  function LastReading(start: int, run: seq<Observation>): int {
    if run == [] then start else run[|run| - 1].at
  }

  /** No reading is below the one before it, or below `start`. */
  predicate Ascending(start: int, run: seq<Observation>) {
    run == [] ||
    (Ascending(start, run[..|run| - 1]) && LastReading(start, run[..|run| - 1]) <= run[|run| - 1].at)
  }

  predicate LastOfItsSession(run: seq<Observation>, i: nat)
    requires i < |run|
  {
    forall j :: i < j < |run| ==> Id(run[j].activity) != Id(run[i].activity)
  }

  predicate Shows(memory: Memory, a: Activity) {
    Id(a) in memory && memory[Id(a)].active == a.active && memory[Id(a)].thinking == a.thinking
  }

  /** Every session's last observed state is the one remembered. */
  predicate ShowsLast(memory: Memory, run: seq<Observation>) {
    forall i :: 0 <= i < |run| && LastOfItsSession(run, i) ==> Shows(memory, run[i].activity)
  }

  lemma StillShowsLast(before: Memory, after: Memory, run: seq<Observation>, o: Observation)
    requires ShowsLast(before, run) && Shows(after, o.activity)
    requires forall id :: id in before && id != Id(o.activity) ==> id in after && after[id] == before[id]
    ensures ShowsLast(after, run + [o])
  {
    var more := run + [o];
    forall i | 0 <= i < |more| && LastOfItsSession(more, i) ensures Shows(after, more[i].activity) {
      if i < |run| {
        assert Id(more[|run|].activity) != Id(more[i].activity);
        forall j | i < j < |run| ensures Id(run[j].activity) != Id(run[i].activity) {
          assert more[j] == run[j];
        }
        assert LastOfItsSession(run, i);
      }
    }
  }

  function MemoryAfter(run: seq<Observation>, refreshMs: int): Memory {
    if run == [] then map[]
    else
      var last := run[|run| - 1];
      Remember(MemoryAfter(run[..|run| - 1], refreshMs), last.activity, last.at, refreshMs)
  }

  /** Whether the i-th observation was emitted. */
  predicate EmittedAt(run: seq<Observation>, i: nat, refreshMs: int)
    requires i < |run|
  {
    Emits(MemoryAfter(run[..i], refreshMs), run[i].activity, run[i].at, refreshMs)
  }

  /** The flags say which observations were emitted. */
  predicate Flags(emitted: seq<bool>, run: seq<Observation>, refreshMs: int) {
    |emitted| == |run| && forall i :: 0 <= i < |run| ==> emitted[i] == EmittedAt(run, i, refreshMs)
  }

  lemma FlagsNext(emitted: seq<bool>, run: seq<Observation>, e: bool, refreshMs: int)
    requires run != []
    ensures var n := |run| - 1;
            Flags(emitted, run[..n], refreshMs) && e == EmittedAt(run, n, refreshMs) ==> Flags(emitted + [e], run, refreshMs)
  {
    forall i | 0 <= i < |run| - 1 ensures run[..|run| - 1][..i] == run[..i] {}
  }

  /** The last emitted state of every session is its last observed state. */
  lemma {:induction false} LastEmittedIsLastObserved(run: seq<Observation>, refreshMs: int, i: nat)
    requires i < |run|
    requires LastOfItsSession(run, i)
    ensures Shows(MemoryAfter(run, refreshMs), run[i].activity)
    decreases |run|
  {
    var n := |run| - 1;
    if i < n {
      LastEmittedIsLastObserved(run[..n], refreshMs, i);
    }
  }

  /** Memory of a session is its latest emission. */
  lemma {:induction false} MemoryIsLatestEmission(run: seq<Observation>, refreshMs: int, i: nat)
    requires i < |run| && EmittedAt(run, i, refreshMs)
    requires forall j :: i < j < |run| && Id(run[j].activity) == Id(run[i].activity) ==> !EmittedAt(run, j, refreshMs)
    ensures var a := run[i].activity;
            Id(a) in MemoryAfter(run, refreshMs)
            && MemoryAfter(run, refreshMs)[Id(a)] == Emission(a.active, a.thinking, run[i].at)
    decreases |run|
  {
    var n := |run| - 1;
    var front := run[..n];
    assert run[..n] == front;
    if i < n {
      forall j | 0 <= j < n ensures EmittedAt(front, j, refreshMs) <==> EmittedAt(run, j, refreshMs) {
        assert front[..j] == run[..j];
      }
      MemoryIsLatestEmission(front, refreshMs, i);
    }
  }

  /** Between two consecutive emissions of a session either the state changed or at least the
      refresh interval went by. */
  lemma UnchangedEmissionsAreSpaced(run: seq<Observation>, refreshMs: int, i: nat, k: nat)
    requires i < k < |run| && Id(run[i].activity) == Id(run[k].activity)
    requires EmittedAt(run, i, refreshMs) && EmittedAt(run, k, refreshMs)
    requires forall j :: i < j < k && Id(run[j].activity) == Id(run[i].activity) ==> !EmittedAt(run, j, refreshMs)
    requires run[i].activity == run[k].activity
    ensures run[k].at - run[i].at >= refreshMs
  {
    var front := run[..k];
    forall j | 0 <= j < k ensures EmittedAt(front, j, refreshMs) <==> EmittedAt(run, j, refreshMs) {
      assert front[..j] == run[..j];
    }
    MemoryIsLatestEmission(front, refreshMs, i);
  }

  /** Observation j is the last emission for the session of observation i before it. */
  predicate LastEmission(run: seq<Observation>, j: nat, i: nat, refreshMs: int)
    requires j < i <= |run|
  {
    && EmittedAt(run, j, refreshMs)
    && forall x :: j < x < i && Id(run[x].activity) == Id(run[j].activity) ==> !EmittedAt(run, x, refreshMs)
  }

  lemma {:induction false} SeenIsRemembered(run: seq<Observation>, refreshMs: int, id: (string, string)) returns (j: nat)
    requires id in MemoryAfter(run, refreshMs)
    ensures j < |run| && Id(run[j].activity) == id && LastEmission(run, j, |run|, refreshMs)
  {
    var n := |run| - 1;
    if Id(run[n].activity) == id && EmittedAt(run, n, refreshMs) {
      j := n;
    } else {
      j := SeenIsRemembered(run[..n], refreshMs, id);
      forall x | 0 <= x < n ensures run[..n][..x] == run[..x] {}
    }
  }

  /** An observation is emitted exactly if it is the first of its session, or differs from the last
      emission for it, or comes at least the refresh interval after that. */
  lemma EmittedIff(run: seq<Observation>, refreshMs: int, i: nat)
    requires i < |run|
    ensures EmittedAt(run, i, refreshMs) <==>
            || (forall j :: 0 <= j < i ==> Id(run[j].activity) != Id(run[i].activity))
            || (exists j :: && 0 <= j < i && Id(run[j].activity) == Id(run[i].activity) && LastEmission(run, j, i, refreshMs)
                            && (run[j].activity != run[i].activity || run[i].at - run[j].at >= refreshMs))
  {
    var front, id := run[..i], Id(run[i].activity);
    forall x | 0 <= x < i ensures front[..x] == run[..x] && front[x] == run[x] {}
    if id in MemoryAfter(front, refreshMs) {
      var j := SeenIsRemembered(front, refreshMs, id);
      assert LastEmission(run, j, i, refreshMs);
      MemoryIsLatestEmission(front, refreshMs, j);
      forall x | 0 <= x < i && Id(run[x].activity) == id && LastEmission(run, x, i, refreshMs) ensures x == j {}
    } else {
      forall j | 0 <= j < i ensures Id(run[j].activity) != id {
        RememberedForEver(run, refreshMs, j, i);
      }
    }
  }

  lemma {:induction false} RememberedForEver(run: seq<Observation>, refreshMs: int, j: nat, i: nat)
    requires j < i <= |run|
    ensures Id(run[j].activity) in MemoryAfter(run[..i], refreshMs)
    decreases i
  {
    assert run[..i][..i - 1] == run[..i - 1];
    if j < i - 1 {
      RememberedForEver(run, refreshMs, j, i - 1);
    }
  }
}
