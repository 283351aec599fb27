/** All sessions together with the outbox: a commit adds a message and its notification row in one
    transaction, while lease steps and dispatcher workers go on around it. */
module Durable {
  import opened Sql
  import S = SessionRuns
  import O = Outbox
  import M = MessageLog

  type Id = string

  datatype State = State(
    sessions: map<Id, S.State>,
    outbox: O.State,
    targets: map<O.RowId, M.Target>,
    base: map<Id, nat>)   // messages a session already had when the outbox was introduced

  datatype Event =
    | InSession(session: Id, step: S.Event)
    | Commit(session: Id, input: M.Input, ts: int, row: O.RowId, at: int)
    | Notify(work: O.Event)

  predicate Start(s: State) {
    && s.sessions.Keys == s.base.Keys
    && (forall id :: id in s.sessions ==> S.Start(s.sessions[id]) && s.base[id] == |s.sessions[id].log|)
    && O.Start(s.outbox) && s.targets == map[]
  }

  function Outcome(s: S.State, input: M.Input, ts: int): M.Outcome {
    M.Decide(s.lease, s.log, s.seqColumn, input, ts)
  }

  /** A request for an unknown session finds no row; it is not a step. */
  predicate Enabled(s: State, e: Event) {
    match e
    case InSession(session, step) => session in s.sessions && !step.Post? && S.Enabled(s.sessions[session], step)
    case Commit(session, input, ts, row, _) =>
      session in s.sessions && S.Enabled(s.sessions[session], S.Post(input, ts)) && row !in s.outbox.inserted
    case Notify(work) => !work.Insert? && O.Enabled(s.outbox, work)
  }

  function Inserted(o: O.State, e: Event, number: nat): O.State
    requires e.Commit?
  {
    o.(rows := o.rows[e.row := O.Row(e.session, number, e.at, None, None, None, 0, e.at)],
       inserted := o.inserted[e.row := (e.session, number)])
  }

  function Apply(s: State, e: Event): State
    requires Enabled(s, e)
  {
    match e
    case InSession(session, step) =>
      s.(sessions := s.sessions[session := S.Apply(s.sessions[session], step)])
    case Commit(session, input, ts, row, at) =>
      var before := s.sessions[session];
      var outcome := Outcome(before, input, ts);
      if outcome.Created? then
        s.(sessions := s.sessions[session := S.Apply(before, S.Post(input, ts))],
           outbox := Inserted(s.outbox, e, outcome.message.number),
           targets := s.targets[row := M.TargetOf(before.lease, ts)])
      else s
    case Notify(work) => s.(outbox := O.Apply(s.outbox, work))
  }

  predicate Steps(states: seq<State>, events: seq<Event>, i: nat) {
    i < |events| && i + 1 < |states| && Enabled(states[i], events[i]) && states[i + 1] == Apply(states[i], events[i])
  }

  predicate Run(states: seq<State>, events: seq<Event>) {
    && |states| == |events| + 1
    && Start(states[0])
    && forall i: nat :: i < |events| ==> Steps(states, events, i)
  }

  /** The rows ever inserted are exactly one for every message committed since the start. */
  ghost predicate Linked(s: State) {
    && s.sessions.Keys == s.base.Keys
    && s.targets.Keys == s.outbox.inserted.Keys
    && (forall id :: id in s.base ==> s.base[id] <= |s.sessions[id].log|)
    && (forall row :: row in s.outbox.inserted ==> IsMessage(s, s.outbox.inserted[row].0, s.outbox.inserted[row].1))
    && (forall session, n :: IsMessage(s, session, n) ==> HasRow(s, session, n))
    && (forall row :: row in s.targets ==> !(s.targets[row].leaseId.Some? && s.targets[row].legacy))
  }

  predicate IsMessage(s: State, session: Id, n: nat) {
    session in s.sessions && session in s.base && s.base[session] < n <= |s.sessions[session].log|
  }

  ghost predicate HasRow(s: State, session: Id, n: nat) {
    exists row :: row in s.outbox.inserted && s.outbox.inserted[row] == (session, n)
  }

  ghost predicate SessionsInv(s: State) {
    forall id :: id in s.sessions ==> S.Inv(s.sessions[id])
  }

  ghost predicate Inv(s: State) {
    && SessionsInv(s)
    && O.Inv(s.outbox)
    && Linked(s)
  }

  /** The session lock gives a commit the greatest number so far, which is what the outbox needs. */
  lemma CommitIsInsert(s: State, e: Event)
    requires Linked(s) && Enabled(s, e) && e.Commit?
    requires s.sessions[e.session].seqColumn == |s.sessions[e.session].log|
    requires Outcome(s.sessions[e.session], e.input, e.ts).Created?
    ensures var n := Outcome(s.sessions[e.session], e.input, e.ts).message.number;
            && n == |s.sessions[e.session].log| + 1
            && O.Enabled(s.outbox, O.Insert(e.row, e.session, n, e.at))
            && O.Apply(s.outbox, O.Insert(e.row, e.session, n, e.at)) == Inserted(s.outbox, e, n)
  {
    forall other | other in s.outbox.inserted && s.outbox.inserted[other].0 == e.session
      ensures s.outbox.inserted[other].1 <= |s.sessions[e.session].log|
    {
      assert IsMessage(s, e.session, s.outbox.inserted[other].1);
    }
  }

  lemma SessionStepKeepsLink(s: State, e: Event)
    requires Linked(s) && Enabled(s, e) && e.InSession?
    ensures Linked(Apply(s, e))
  {
    var t := Apply(s, e);
    forall session, n: nat ensures IsMessage(t, session, n) <==> IsMessage(s, session, n) {}
    forall session, n: nat | IsMessage(t, session, n) ensures HasRow(t, session, n) {
      assert HasRow(s, session, n);
    }
  }

  /** One message more in one session, and one row for it. */
  ghost predicate Appended(s: State, t: State, session: Id, row: O.RowId) {
    && session in s.sessions && row !in s.outbox.inserted
    && t.base == s.base && t.sessions.Keys == s.sessions.Keys
    && (forall id :: id in s.sessions ==>
          |t.sessions[id].log| == |s.sessions[id].log| + (if id == session then 1 else 0))
    && t.outbox.inserted == s.outbox.inserted[row := (session, |t.sessions[session].log|)]
    && t.targets.Keys == s.targets.Keys + {row}
    && (forall x :: x in t.targets ==> !(t.targets[x].leaseId.Some? && t.targets[x].legacy))
  }

  lemma AppendedHasRow(s: State, t: State, session: Id, row: O.RowId, id: Id, m: nat)
    requires Linked(s) && Appended(s, t, session, row) && IsMessage(t, id, m)
    ensures HasRow(t, id, m)
  {
    if id == session && m == |t.sessions[session].log| {
      assert t.outbox.inserted[row] == (id, m);
    } else {
      assert IsMessage(s, id, m) && HasRow(s, id, m);
      var other :| other in s.outbox.inserted && s.outbox.inserted[other] == (id, m);
      assert other in t.outbox.inserted && t.outbox.inserted[other] == (id, m);
    }
  }

  lemma AppendKeepsLink(s: State, t: State, session: Id, row: O.RowId)
    requires Linked(s) && Appended(s, t, session, row)
    ensures Linked(t)
  {
    forall id, m: nat | IsMessage(t, id, m) ensures HasRow(t, id, m) {
      AppendedHasRow(s, t, session, row, id, m);
    }
    forall x | x in t.outbox.inserted
      ensures IsMessage(t, t.outbox.inserted[x].0, t.outbox.inserted[x].1)
    {
      assert x != row ==> x in s.outbox.inserted && IsMessage(s, s.outbox.inserted[x].0, s.outbox.inserted[x].1);
    }
  }

  lemma CommitKeepsLink(s: State, e: Event)
    requires Linked(s) && Enabled(s, e) && e.Commit?
    requires s.sessions[e.session].seqColumn == |s.sessions[e.session].log|
    ensures Linked(Apply(s, e))
  {
    if Outcome(s.sessions[e.session], e.input, e.ts).Created? {
      CommitIsInsert(s, e);
      M.TargetIsExclusive(s.sessions[e.session].lease, e.ts);
      AppendKeepsLink(s, Apply(s, e), e.session, e.row);
    }
  }

  lemma NotifyKeepsLink(s: State, e: Event)
    requires Linked(s) && Enabled(s, e) && e.Notify?
    ensures Linked(Apply(s, e))
  {
    var t := Apply(s, e);
    O.OnlyInsertInserts(s.outbox, e.work);
    forall session, n: nat | IsMessage(t, session, n) ensures HasRow(t, session, n) {
      assert IsMessage(s, session, n) && HasRow(s, session, n);
    }
  }

  lemma CommitKeepsOutbox(s: State, e: Event)
    requires O.Inv(s.outbox) && Linked(s) && Enabled(s, e) && e.Commit?
    requires s.sessions[e.session].seqColumn == |s.sessions[e.session].log|
    ensures O.Inv(Apply(s, e).outbox)
  {
    var outcome := Outcome(s.sessions[e.session], e.input, e.ts);
    if outcome.Created? {
      CommitIsInsert(s, e);
      O.StepKeepsInv(s.outbox, O.Insert(e.row, e.session, outcome.message.number, e.at));
    }
  }

  lemma CommitKeepsSessions(s: State, e: Event)
    requires SessionsInv(s) && Enabled(s, e) && e.Commit?
    ensures SessionsInv(Apply(s, e))
  {
    S.StepKeepsInv(s.sessions[e.session], S.Post(e.input, e.ts));
  }

  lemma StepKeepsInv(s: State, e: Event)
    requires Inv(s) && Enabled(s, e)
    ensures Inv(Apply(s, e))
  {
    match e
    case InSession(session, step) =>
      S.StepKeepsInv(s.sessions[session], step);
      SessionStepKeepsLink(s, e);
    case Commit(_, _, _, _, _) =>
      CommitKeepsSessions(s, e);
      CommitKeepsOutbox(s, e);
      CommitKeepsLink(s, e);
    case Notify(work) =>
      O.StepKeepsInv(s.outbox, work);
      NotifyKeepsLink(s, e);
  }

  lemma {:induction false} RunInv(states: seq<State>, events: seq<Event>, k: nat)
    requires Run(states, events) && k < |states|
    ensures Inv(states[k])
  {
    if k == 0 {
      forall id | id in states[0].sessions ensures S.Inv(states[0].sessions[id]) {
        S.StartInv(states[0].sessions[id]);
      }
    } else {
      assert Steps(states, events, k - 1);
      RunInv(states, events, k - 1);
      StepKeepsInv(states[k - 1], events[k - 1]);
    }
  }

  // ---------------------------------------------------------------------------------------------

  function RowsOf(s: State, session: Id, n: nat): set<O.RowId> {
    set row | row in s.outbox.inserted && s.outbox.inserted[row] == (session, n)
  }

  lemma LinkedHasOneRow(s: State, session: Id, n: nat)
    requires Linked(s) && O.Table(s.outbox)
    ensures |RowsOf(s, session, n)| == (if IsMessage(s, session, n) then 1 else 0)
  {
    if IsMessage(s, session, n) {
      assert HasRow(s, session, n);
      var row :| row in s.outbox.inserted && s.outbox.inserted[row] == (session, n);
      assert RowsOf(s, session, n) == {row};
    } else {
      assert RowsOf(s, session, n) == {};
    }
  }

  /** In every run each committed message has exactly one outbox row ever, no row is without its
      message, and a row names at most one delivery target. */
  lemma ExactlyOneRowPerMessage(states: seq<State>, events: seq<Event>, k: nat, session: Id, n: nat)
    requires Run(states, events) && k < |states|
    ensures |RowsOf(states[k], session, n)| == (if IsMessage(states[k], session, n) then 1 else 0)
    ensures forall row :: row in states[k].outbox.inserted ==>
              row in states[k].targets && !(states[k].targets[row].leaseId.Some? && states[k].targets[row].legacy)
  {
    RunInv(states, events, k);
    LinkedHasOneRow(states[k], session, n);
  }

  /** Whenever a message's notification has been published, every earlier message committed to that
      session has already been published and marked delivered: its row is delivered or cleaned up,
      never pending and never missing. */
  lemma NotificationsFollowTheLog(
      states: seq<State>, events: seq<Event>, k: nat, session: Id, n: nat, m: nat, row: O.RowId)
    requires Run(states, events) && k < |states|
    requires IsMessage(states[k], session, n) && n < m
    requires row in states[k].outbox.published && row in states[k].outbox.inserted
    requires states[k].outbox.inserted[row] == (session, m)
    ensures exists earlier ::
              && earlier in states[k].outbox.inserted && states[k].outbox.inserted[earlier] == (session, n)
              && earlier in states[k].outbox.published && earlier in states[k].outbox.delivered
              && (earlier in states[k].outbox.rows ==> states[k].outbox.rows[earlier].deliveredAt.Some?)
  {
    RunInv(states, events, k);
    var s := states[k];
    assert HasRow(s, session, n);
    var earlier :| earlier in s.outbox.inserted && s.outbox.inserted[earlier] == (session, n);
    assert O.Unblocked(s.outbox, row);
    assert O.Before(s.outbox, earlier, row);
  }
}
