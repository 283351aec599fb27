/** One socket's message handler over all sessions: every body runs in the socket's lock and persists
    at most one message, while others write to the same sessions. */
module SocketOrder {
  import opened Sql
  import L = AsyncLock
  import S = SessionRuns
  import M = MessageLog

  datatype Commit = Commit(ticket: nat, session: string, message: M.Message)

  datatype State = State(
    lock: L.State,
    sessions: map<string, S.State>,
    posted: bool,                // the running body has made its request
    commits: seq<Commit>)        // messages created for this socket, in order

  datatype Event =
    | Lock(step: L.Event)
    | Persist(session: string, input: M.Input, ts: int)
    | Others(session: string, work: S.Event)

  predicate Enabled(s: State, e: Event) {
    match e
    case Lock(step) => L.Enabled(s.lock, step)
    case Persist(session, input, ts) =>
      s.lock.running.Some? && !s.posted && session in s.sessions && S.Enabled(s.sessions[session], S.Post(input, ts))
    case Others(session, work) => session in s.sessions && S.Enabled(s.sessions[session], work)
  }

  function Outcome(s: S.State, input: M.Input, ts: int): M.Outcome {
    M.Decide(s.lease, s.log, s.seqColumn, input, ts)
  }

  function Apply(s: State, e: Event): State
    requires Enabled(s, e)
  {
    match e
    case Lock(step) => s.(lock := L.Apply(s.lock, step), posted := s.posted && !step.Begin?)
    case Persist(session, input, ts) =>
      var outcome := Outcome(s.sessions[session], input, ts);
      s.(sessions := s.sessions[session := S.Apply(s.sessions[session], S.Post(input, ts))],
         posted := true,
         commits := if outcome.Created? then s.commits + [Commit(s.lock.running.value, session, outcome.message)] else s.commits)
    case Others(session, work) => s.(sessions := s.sessions[session := S.Apply(s.sessions[session], work)])
  }

  predicate Start(s: State) {
    L.Start(s.lock) && (forall id :: id in s.sessions ==> S.Start(s.sessions[id])) && !s.posted && s.commits == []
  }

  predicate Steps(states: seq<State>, events: seq<Event>, i: nat) {
    i < |events| && i + 1 < |states| && Enabled(states[i], events[i]) && states[i + 1] == Apply(states[i], events[i])
  }

  predicate Run(states: seq<State>, events: seq<Event>) {
    |states| == |events| + 1 && Start(states[0]) && forall i: nat :: i < |events| ==> Steps(states, events, i)
  }

  /** The commit is a message of its session's log. */
  predicate Stored(s: State, c: Commit) {
    && c.session in s.sessions
    && 0 < c.message.number <= |s.sessions[c.session].log|
    && s.sessions[c.session].log[c.message.number - 1] == c.message
  }

  /** Committed by an earlier body, or by the running one after its request. */
  predicate Earlier(s: State, c: Commit) {
    c.ticket < |s.lock.started| && (s.lock.running.Some? && !s.posted ==> c.ticket < s.lock.running.value)
  }

  predicate Increasing(commits: seq<Commit>) {
    forall i, j :: 0 <= i < j < |commits| ==>
      && commits[i].ticket < commits[j].ticket
      && (commits[i].session == commits[j].session ==> commits[i].message.number < commits[j].message.number)
  }

  ghost predicate Inv(s: State) {
    && L.Orderly(s.lock)
    && (forall id :: id in s.sessions ==> S.Inv(s.sessions[id]))
    && (forall i :: 0 <= i < |s.commits| ==> Stored(s, s.commits[i]) && Earlier(s, s.commits[i]))
    && Increasing(s.commits)
  }

  lemma LockKeepsInv(s: State, step: L.Event)
    requires Inv(s) && L.Enabled(s.lock, step)
    ensures Inv(Apply(s, Lock(step)))
  {
    var t := Apply(s, Lock(step));
    L.StepKeepsOrder(s.lock, step);
    L.RunningIsLatest(s.lock);
    L.RunningIsLatest(t.lock);
    forall i | 0 <= i < |t.commits| ensures Stored(t, t.commits[i]) && Earlier(t, t.commits[i]) {
      assert Stored(s, s.commits[i]) && Earlier(s, s.commits[i]);
    }
  }

  /** A step of one session keeps the sessions and the messages stored in them. */
  lemma SessionStep(s: State, t: State, session: string, work: S.Event)
    requires Inv(s) && session in s.sessions && S.Enabled(s.sessions[session], work)
    requires t.sessions == s.sessions[session := S.Apply(s.sessions[session], work)]
    ensures forall id :: id in t.sessions ==> S.Inv(t.sessions[id])
    ensures forall c :: Stored(s, c) ==> Stored(t, c)
  {
    S.StepKeepsInv(s.sessions[session], work);
    assert s.sessions[session].log <= t.sessions[session].log;
  }

  lemma OthersKeepInv(s: State, session: string, work: S.Event)
    requires Inv(s) && Enabled(s, Others(session, work))
    ensures Inv(Apply(s, Others(session, work)))
  {
    var t := Apply(s, Others(session, work));
    SessionStep(s, t, session, work);
    forall i | 0 <= i < |t.commits| ensures Stored(t, t.commits[i]) && Earlier(t, t.commits[i]) {
      assert Stored(s, s.commits[i]) && Earlier(s, s.commits[i]);
    }
  }

  /** A created message is the last of its log, so its number is above every earlier one. */
  lemma CreatedIsLast(s: S.State, input: M.Input, ts: int)
    requires S.Inv(s) && Outcome(s, input, ts).Created?
    ensures var m := Outcome(s, input, ts).message;
            S.Apply(s, S.Post(input, ts)).log == s.log + [m] && m.number == |s.log| + 1
  {
  }

  lemma CommitFollows(s: State, t: State, session: string, input: M.Input, ts: int)
    requires Inv(s) && Enabled(s, Persist(session, input, ts)) && t == Apply(s, Persist(session, input, ts))
    requires Outcome(s.sessions[session], input, ts).Created?
    ensures var c := Commit(s.lock.running.value, session, Outcome(s.sessions[session], input, ts).message);
            && t.commits == s.commits + [c] && Stored(t, c) && Earlier(t, c) && Increasing(t.commits)
  {
    var c := Commit(s.lock.running.value, session, Outcome(s.sessions[session], input, ts).message);
    CreatedIsLast(s.sessions[session], input, ts);
    L.RunningIsLatest(s.lock);
    forall i | 0 <= i < |s.commits|
      ensures s.commits[i].ticket < c.ticket && (s.commits[i].session == session ==> s.commits[i].message.number < c.message.number)
    {
      assert Stored(s, s.commits[i]) && Earlier(s, s.commits[i]);
    }
  }

  lemma PersistKeepsInv(s: State, session: string, input: M.Input, ts: int)
    requires Inv(s) && Enabled(s, Persist(session, input, ts))
    ensures Inv(Apply(s, Persist(session, input, ts)))
  {
    var t := Apply(s, Persist(session, input, ts));
    SessionStep(s, t, session, S.Post(input, ts));
    forall i | 0 <= i < |s.commits| ensures Stored(t, s.commits[i]) && Earlier(t, s.commits[i]) {
      assert Stored(s, s.commits[i]) && Earlier(s, s.commits[i]);
    }
    if Outcome(s.sessions[session], input, ts).Created? {
      CommitFollows(s, t, session, input, ts);
    }
  }

  lemma {:induction false} RunInv(states: seq<State>, events: seq<Event>, k: nat)
    requires Run(states, events) && k < |states|
    ensures Inv(states[k])
  {
    if k == 0 {
      forall id | id in states[0].sessions ensures S.Inv(states[0].sessions[id]) {
        S.StartInv(states[0].sessions[id]);
      }
    } else {
      assert Steps(states, events, k - 1);
      RunInv(states, events, k - 1);
      match events[k - 1]
      case Lock(step) => LockKeepsInv(states[k - 1], step);
      case Persist(session, input, ts) => PersistKeepsInv(states[k - 1], session, input, ts);
      case Others(session, work) => OthersKeepInv(states[k - 1], session, work);
    }
  }

  /** Every message created for a socket is in its session's log at the place its number says, and
      within a session the log has the socket's messages in the order in which they were received,
      whatever other writers and lease steps come in between. */
  lemma SocketOrderIsLogOrder(states: seq<State>, events: seq<Event>, k: nat, i: nat, j: nat)
    requires Run(states, events) && k < |states|
    requires i < |states[k].commits| && j < |states[k].commits|
    requires states[k].commits[i].session == states[k].commits[j].session
    ensures Stored(states[k], states[k].commits[i])
    ensures states[k].commits[i].ticket < states[k].commits[j].ticket <==>
            states[k].commits[i].message.number < states[k].commits[j].message.number
  {
    RunInv(states, events, k);
    var c := states[k].commits;
    assert i < j ==> c[i].ticket < c[j].ticket && c[i].message.number < c[j].message.number;
    assert j < i ==> c[j].ticket < c[i].ticket && c[j].message.number < c[i].message.number;
  }

  // ---------------------------------------------------------------------------------------------
  // The lock and the requests are those of the events

  /** How many of the first k events are this step of the lock. */
  function Count(events: seq<Event>, k: nat, step: L.Event): nat
    requires k <= |events|
  {
    if k == 0 then 0 else Count(events, k - 1, step) + if events[k - 1] == Lock(step) then 1 else 0
  }

  /** The latest of the first k events that began or finished a body, or made its request. */
  function Latest(events: seq<Event>, k: nat): Option<Event>
    requires k <= |events|
  {
    if k == 0 then None
    else if events[k - 1] == Lock(L.Begin) || events[k - 1] == Lock(L.Finish) || events[k - 1].Persist? then Some(events[k - 1])
    else Latest(events, k - 1)
  }

  /** Calls and bodies are those of the events, and a body can make its one request until it has. */
  lemma {:induction false} LockTellsTheEvents(states: seq<State>, events: seq<Event>, k: nat)
    requires Run(states, events) && k < |states|
    ensures states[k].lock.calls == Count(events, k, L.Call) && |states[k].lock.started| == Count(events, k, L.Begin)
    ensures states[k].lock.running.Some? <==> Latest(events, k).Some? && Latest(events, k) != Some(Lock(L.Finish))
    ensures states[k].lock.running.Some? ==> (states[k].posted <==> Latest(events, k).value.Persist?)
  {
    if k > 0 {
      assert Steps(states, events, k - 1);
      LockTellsTheEvents(states, events, k - 1);
    }
  }
}
