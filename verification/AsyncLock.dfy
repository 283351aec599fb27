/** The asynchronous lock. */
module AsyncLock {
  import opened Sql

  type Ticket = nat

  datatype Woken = Nobody | Next(ticket: Ticket) | Impossible

  /** `permits` and the queue of resolvers, one per waiting call. */
  class Lock {
    var permits: int
    var waiters: seq<Ticket>

    constructor ()
      ensures permits == 1 && waiters == []
    {
      permits, waiters := 1, [];
    }

    /** Takes the permit at once, or queues. */
    method Acquire(ticket: Ticket) returns (granted: bool)
      modifies this
      ensures granted == (old(permits) > 0)
      ensures (permits, waiters) == Acquired(old(permits), old(waiters), ticket)
    {
      if permits > 0 {
        permits := permits - 1;
        return true;
      }
      waiters := waiters + [ticket];
      granted := false;
    }

    /** Gives the permit back, or hands it straight to the longest waiting call. */
    method Release() returns (woken: Woken)
      modifies this
      ensures (permits, waiters, woken) == Released(old(permits), old(waiters))
    {
      woken := Nobody;
      permits := permits + 1;
      if permits > 1 && |waiters| > 0 {
        woken := Impossible;
      } else if permits == 1 && |waiters| > 0 {
        permits := permits - 1;
        woken := Next(waiters[0]);
        waiters := waiters[1..];
      }
    }
  }

  function Acquired(permits: int, waiters: seq<Ticket>, t: Ticket): (int, seq<Ticket>) {
    if permits > 0 then (permits - 1, waiters) else (permits, waiters + [t])
  }

  function Released(permits: int, waiters: seq<Ticket>): (int, seq<Ticket>, Woken) {
    if permits + 1 > 1 && waiters != [] then (permits + 1, waiters, Impossible)
    else if permits + 1 == 1 && waiters != [] then (permits, waiters[1..], Next(waiters[0]))
    else (permits + 1, waiters, Nobody)
  }

  /** In any state, reachable or not, a release fails exactly if a permit was free while someone waited; it
      then leaves everyone waiting with the permit given back. Otherwise nobody waits on a free permit. */
  lemma ReleaseFailsIff(permits: int, waiters: seq<Ticket>)
    ensures var (after, left, woken) := Released(permits, waiters);
            && (woken.Impossible? <==> permits > 0 && waiters != [])
            && (woken.Impossible? ==> after == permits + 1 && left == waiters)
            && (permits == 0 ==> if waiters == [] then after == 1 && left == [] && woken.Nobody?
                                 else after == 0 && waiters == [waiters[0]] + left && woken == Next(waiters[0]))
  {
  }

  // ---------------------------------------------------------------------------------------------
  // Calls of `inLock`

  datatype State = State(
    permits: int,
    waiters: seq<Ticket>,
    ready: seq<Ticket>,          // hold the permit, body not yet begun (hand-off is a timer)
    running: Option<Ticket>,
    started: seq<Ticket>,        // bodies begun, in order
    calls: nat)                  // calls so far; the n-th call has ticket n

  datatype Event =
    | Call
    | Begin
    | Finish                     // the body returned or threw: `finally` unlocks

  predicate Enabled(s: State, e: Event) {
    match e
    case Call => true
    case Begin => s.ready != []
    case Finish => s.running.Some?
  }

  function Apply(s: State, e: Event): State
    requires Enabled(s, e)
  {
    match e
    case Call =>
      var (permits, waiters) := Acquired(s.permits, s.waiters, s.calls);
      s.(permits := permits, waiters := waiters, calls := s.calls + 1,
         ready := if s.permits > 0 then s.ready + [s.calls] else s.ready)
    case Begin =>
      s.(ready := s.ready[1..], running := Some(s.ready[0]), started := s.started + [s.ready[0]])
    case Finish =>
      var (permits, waiters, woken) := Released(s.permits, s.waiters);
      s.(permits := permits, waiters := waiters, running := None,
         ready := if woken.Next? then s.ready + [woken.ticket] else s.ready)
  }

  predicate Start(s: State) {
    s == State(1, [], [], None, [], 0)
  }

  predicate Steps(states: seq<State>, events: seq<Event>, i: nat) {
    i < |events| && i + 1 < |states| && Enabled(states[i], events[i]) && states[i + 1] == Apply(states[i], events[i])
  }

  predicate Run(states: seq<State>, events: seq<Event>) {
    && |states| == |events| + 1
    && Start(states[0])
    && forall i: nat :: i < |events| ==> Steps(states, events, i)
  }

  function UpTo(n: nat): (s: seq<Ticket>)
    ensures |s| == n && forall i :: 0 <= i < n ==> s[i] == i
  {
    if n == 0 then [] else UpTo(n - 1) + [n - 1]
  }

  /** One permit, held or free, and every call begun, holding or waiting, in call order. */
  predicate Orderly(s: State) {
    && 0 <= s.permits <= 1
    && s.permits + |s.ready| + (if s.running.Some? then 1 else 0) == 1
    && (s.permits == 1 ==> s.waiters == [])
    && s.started + s.ready + s.waiters == UpTo(s.calls)
    && (s.running.Some? ==> s.started != [] && s.started[|s.started| - 1] == s.running.value)
  }

  lemma StepKeepsOrder(s: State, e: Event)
    requires Orderly(s) && Enabled(s, e)
    ensures Orderly(Apply(s, e))
  {
    var t := Apply(s, e);
    match e
    case Call =>
      assert t.started + t.ready + t.waiters == (s.started + s.ready + s.waiters) + [s.calls];
    case Begin =>
      assert t.started + t.ready + t.waiters == s.started + s.ready + s.waiters;
    case Finish =>
      assert t.started + t.ready + t.waiters == s.started + s.ready + s.waiters;
  }

  lemma RunningIsLatest(s: State)
    requires Orderly(s)
    ensures forall i :: 0 <= i < |s.started| ==> s.started[i] == i
    ensures s.running.Some? ==> s.running.value == |s.started| - 1
  {
    forall i | 0 <= i < |s.started| ensures s.started[i] == i {
      assert (s.started + s.ready + s.waiters)[i] == s.started[i];
    }
  }

  lemma {:induction false} RunInv(states: seq<State>, events: seq<Event>, k: nat)
    requires Run(states, events) && k < |states|
    ensures Orderly(states[k])
  {
    if k > 0 {
      assert Steps(states, events, k - 1);
      RunInv(states, events, k - 1);
      StepKeepsOrder(states[k - 1], events[k - 1]);
    }
  }

  /** In every run, whatever bodies return or throw: permit plus holders is one, the error branch is
      never reached, at most one body runs, and bodies begin in call order. */
  lemma MutualExclusionInCallOrder(states: seq<State>, events: seq<Event>, k: nat)
    requires Run(states, events) && k < |states|
    ensures var s := states[k];
            && (k < |events| && events[k].Finish? ==> !Released(s.permits, s.waiters).2.Impossible?)
            && s.permits + |s.ready| + (if s.running.Some? then 1 else 0) == 1
            && (s.running.None? && s.ready == [] ==> s.permits == 1 && s.waiters == [])
            && (forall i :: 0 <= i < |s.started| ==> s.started[i] == i)
            && (k < |events| && events[k].Begin? ==> s.running.None? && s.ready != [] && s.ready[0] == |s.started|)
  {
    RunInv(states, events, k);
    assert k < |events| ==> Steps(states, events, k);
    RunningIsLatest(states[k]);
    var s := states[k];
    if s.ready != [] {
      assert (s.started + s.ready + s.waiters)[|s.started|] == s.ready[0];
    }
  }
}
