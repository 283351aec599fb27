/** The notification outbox: any number of dispatcher workers, each running claim, publish and mark
    as separate statements, with stale candidate lists, expired claims, failures and crashes. No
    clock is trusted: every time a worker uses is an arbitrary number. */
module Outbox {
  import opened Sql

  type Id = string
  type RowId = nat
  type WorkerId = nat

  datatype Row = Row(
    session: Id,
    number: nat,
    nextAttemptAt: int,
    claimedAt: Option<int>,
    claimToken: Option<Id>,
    deliveredAt: Option<int>,
    attempts: nat,
    createdAt: int)

  /** A row a worker has claimed, with the token it claimed it under. */
  datatype Claim = Claim(id: RowId, token: Id)

  /** Where a worker is in its drain loop. */
  datatype Worker =
    | Idle
    | Claiming(now: int, leaseMs: int, candidates: seq<RowId>, claimed: seq<Claim>)
    | Reading(now: int, leaseMs: int, candidates: seq<RowId>, claimed: seq<Claim>, token: Id)
    | Delivering(todo: seq<Claim>)
    | Marking(todo: seq<Claim>)
    | Failing(todo: seq<Claim>)

  datatype State = State(
    rows: map<RowId, Row>,
    workers: map<WorkerId, Worker>,
    // history: every row ever inserted, successfully published, marked delivered; every token
    inserted: map<RowId, (Id, nat)>,
    published: set<RowId>,
    delivered: set<RowId>,
    tokens: set<Id>)

  /** A mark may be applied and still report an error to its worker. */
  datatype Event =
    | Insert(id: RowId, session: Id, number: nat, createdAt: int)
    | Select(w: WorkerId, now: int, leaseMs: int, found: seq<RowId>)
    | ClaimRow(w: WorkerId, token: Id)
    | ReadBack(w: WorkerId)
    | Deliver(w: WorkerId)
    | Publish(w: WorkerId, ok: bool)
    | MarkDelivered(w: WorkerId, at: int, applied: bool, ok: bool)
    | MarkFailed(w: WorkerId, retryAt: int)
    | Crash(w: WorkerId)
    | Cleanup(before: int)

  function Claimed(r: Row, now: int, token: Id): Row {
    r.(claimedAt := Some(now), claimToken := Some(token), attempts := r.attempts + 1)
  }

  function Delivered(r: Row, at: int): Row {
    r.(deliveredAt := Some(at), claimedAt := None, claimToken := None)
  }

  function Rescheduled(r: Row, retryAt: int): Row {
    r.(nextAttemptAt := retryAt, claimedAt := None, claimToken := None)
  }

  predicate Pending(r: Row, now: int, leaseMs: int) {
    && r.deliveredAt.None?
    && r.nextAttemptAt <= now
    && (r.claimedAt.None? || r.claimedAt.value < now - leaseMs)
  }

  /** The selection: pending, and no earlier undelivered row of the session in the table. */
  predicate Candidate(rows: map<RowId, Row>, id: RowId, now: int, leaseMs: int) {
    && id in rows && Pending(rows[id], now, leaseMs)
    && forall earlier ::
         earlier in rows && rows[earlier].session == rows[id].session && rows[earlier].deliveredAt.None? ==>
           !(rows[earlier].number < rows[id].number || (rows[earlier].number == rows[id].number && earlier < id))
  }

  function At(s: State, w: WorkerId): Worker {
    if w in s.workers then s.workers[w] else Idle
  }

  /** Order and limit of the selection are left open: any list of candidates may come back. An
      inserted row's number exceeds every earlier one of its session (the session lock). */
  predicate Enabled(s: State, e: Event) {
    match e
    case Insert(id, session, number, _) =>
      && id !in s.inserted
      && forall other :: other in s.inserted && s.inserted[other].0 == session ==> s.inserted[other].1 < number
    case Select(w, now, leaseMs, found) =>
      && At(s, w).Idle?
      && forall id :: id in found ==> Candidate(s.rows, id, now, leaseMs)
    case ClaimRow(w, token) => At(s, w).Claiming? && At(s, w).candidates != [] && token !in s.tokens
    case ReadBack(w) => At(s, w).Reading? && At(s, w).candidates != []
    case Deliver(w) => At(s, w).Claiming? && At(s, w).candidates == []
    case Publish(w, _) => At(s, w).Delivering? && At(s, w).todo != []
    case MarkDelivered(w, _, applied, ok) => At(s, w).Marking? && At(s, w).todo != [] && (ok ==> applied)
    case MarkFailed(w, _) => At(s, w).Failing? && At(s, w).todo != []
    case Crash(_) => true
    case Cleanup(_) => true
  }

  /** The CAS of both marks: the row still carries this claim's token and is undelivered. */
  predicate StillMine(s: State, c: Claim) {
    c.id in s.rows && s.rows[c.id].claimToken == Some(c.token) && s.rows[c.id].deliveredAt.None?
  }

  function Apply(s: State, e: Event): State
    requires Enabled(s, e)
  {
    match e
    case Insert(id, session, number, createdAt) =>
      s.(rows := s.rows[id := Row(session, number, createdAt, None, None, None, 0, createdAt)],
         inserted := s.inserted[id := (session, number)])
    case Select(w, now, leaseMs, found) =>
      s.(workers := s.workers[w := Claiming(now, leaseMs, found, [])])
    case ClaimRow(w, token) =>
      var me := s.workers[w];
      var id := me.candidates[0];
      if id in s.rows && Pending(s.rows[id], me.now, me.leaseMs) then
        s.(rows := s.rows[id := Claimed(s.rows[id], me.now, token)],
           tokens := s.tokens + {token},
           workers := s.workers[w := Reading(me.now, me.leaseMs, me.candidates, me.claimed, token)])
      else
        s.(tokens := s.tokens + {token},
           workers := s.workers[w := Claiming(me.now, me.leaseMs, me.candidates[1..], me.claimed)])
    case ReadBack(w) =>
      var me := s.workers[w];
      var id := me.candidates[0];
      var mine := id in s.rows && s.rows[id].claimToken == Some(me.token);
      s.(workers := s.workers[w := Claiming(me.now, me.leaseMs, me.candidates[1..],
                                            if mine then me.claimed + [Claim(id, me.token)] else me.claimed)])
    case Deliver(w) =>
      s.(workers := s.workers[w := Delivering(s.workers[w].claimed)])
    case Publish(w, ok) =>
      var todo := s.workers[w].todo;
      s.(published := if ok then s.published + {todo[0].id} else s.published,
         workers := s.workers[w := if ok then Marking(todo) else Failing(todo)])
    case MarkDelivered(w, at, applied, ok) =>
      var todo := s.workers[w].todo;
      var next := s.(workers := s.workers[w := if ok then Delivering(todo[1..]) else Failing(todo)]);
      if applied && StillMine(s, todo[0]) then
        next.(rows := s.rows[todo[0].id := Delivered(s.rows[todo[0].id], at)],
              delivered := s.delivered + {todo[0].id})
      else next
    case MarkFailed(w, retryAt) =>
      var todo := s.workers[w].todo;
      var next := s.(workers := s.workers[w := Delivering(todo[1..])]);
      if StillMine(s, todo[0]) then
        next.(rows := s.rows[todo[0].id := Rescheduled(s.rows[todo[0].id], retryAt)])
      else next
    case Crash(w) =>
      s.(workers := s.workers - {w})
    case Cleanup(before) =>
      s.(rows := map id | id in s.rows && !(s.rows[id].deliveredAt.Some? && s.rows[id].deliveredAt.value < before)
                 :: s.rows[id])
  }

  predicate Start(s: State) {
    s == State(map[], map[], map[], {}, {}, {})
  }

  predicate Steps(states: seq<State>, events: seq<Event>, i: nat) {
    i < |events| && i + 1 < |states| && Enabled(states[i], events[i]) && states[i + 1] == Apply(states[i], events[i])
  }

  predicate Run(states: seq<State>, events: seq<Event>) {
    && |states| == |events| + 1
    && Start(states[0])
    && forall i: nat :: i < |events| ==> Steps(states, events, i)
  }

  // ---------------------------------------------------------------------------------------------
  // The inductive invariant

  predicate Before(s: State, a: RowId, b: RowId) {
    && a in s.inserted && b in s.inserted
    && s.inserted[a].0 == s.inserted[b].0 && s.inserted[a].1 < s.inserted[b].1
  }

  /** Every earlier row of the session has been delivered. */
  ghost predicate Unblocked(s: State, id: RowId) {
    id in s.inserted && forall a :: Before(s, a, id) ==> a in s.delivered
  }

  function Touches(w: Worker): set<RowId> {
    match w
    case Idle => {}
    case Claiming(_, _, candidates, claimed) => (set x | x in candidates) + Ids(claimed)
    case Reading(_, _, candidates, claimed, _) => (set x | x in candidates) + Ids(claimed)
    case Delivering(todo) => Ids(todo)
    case Marking(todo) => Ids(todo)
    case Failing(todo) => Ids(todo)
  }

  function Ids(cs: seq<Claim>): set<RowId> {
    set c | c in cs :: c.id
  }

  predicate Table(s: State) {
    && (forall id :: id in s.rows ==>
          && id in s.inserted && s.inserted[id] == (s.rows[id].session, s.rows[id].number)
          && (s.rows[id].deliveredAt.Some? <==> id in s.delivered))
    && s.delivered <= s.inserted.Keys
    && (forall id :: id in s.inserted && id !in s.rows ==> id in s.delivered)
    && (forall a, b :: a in s.inserted && b in s.inserted && s.inserted[a] == s.inserted[b] ==> a == b)
  }

  ghost predicate Fifo(s: State) {
    && s.delivered <= s.published
    && (forall id :: id in s.published ==> Unblocked(s, id))
    && (forall w, id :: w in s.workers && id in Touches(s.workers[w]) ==> Unblocked(s, id))
    && (forall w :: w in s.workers && s.workers[w].Marking? && s.workers[w].todo != [] ==>
          s.workers[w].todo[0].id in s.published)
  }

  ghost predicate Inv(s: State) {
    Table(s) && Fifo(s)
  }

  /** Delivery never unblocks less, and a new row comes after everything already there. */
  lemma UnblockedStays(s: State, t: State, id: RowId)
    requires Unblocked(s, id) && s.delivered <= t.delivered
    requires forall a :: a in s.inserted ==> a in t.inserted && t.inserted[a] == s.inserted[a]
    requires forall a :: a in t.inserted && a !in s.inserted && t.inserted[a].0 == s.inserted[id].0 ==>
               s.inserted[id].1 < t.inserted[a].1
    ensures Unblocked(t, id)
  {
    forall a | Before(t, a, id) ensures a in t.delivered {
      assert a in s.inserted ==> Before(s, a, id);
    }
  }

  /** Rewriting one row's claim, schedule or delivery columns. */
  lemma RewriteKeepsTable(s: State, t: State, id: RowId, r: Row)
    requires Table(s) && id in s.rows && s.rows[id].deliveredAt.None?
    requires r.session == s.rows[id].session && r.number == s.rows[id].number
    requires t.rows == s.rows[id := r] && t.inserted == s.inserted
    requires t.delivered == if r.deliveredAt.Some? then s.delivered + {id} else s.delivered
    ensures Table(t)
  {
  }

  lemma StepKeepsTable(s: State, e: Event)
    requires Table(s) && Enabled(s, e)
    ensures Table(Apply(s, e))
  {
    var t := Apply(s, e);
    if t.rows != s.rows {
      if e.ClaimRow? {
        var id := s.workers[e.w].candidates[0];
        RewriteKeepsTable(s, t, id, t.rows[id]);
      } else if e.MarkDelivered? || e.MarkFailed? {
        var id := s.workers[e.w].todo[0].id;
        RewriteKeepsTable(s, t, id, t.rows[id]);
      } else if e.Insert? {
        InsertKeepsTable(s, e);
      }
    } else {
      assert t.inserted == s.inserted && t.delivered == s.delivered;
    }
  }

  lemma InsertKeepsTable(s: State, e: Event)
    requires Table(s) && e.Insert? && Enabled(s, e)
    ensures Table(Apply(s, e))
  {
  }

  /** What a step may do to the set of rows a worker touches. */
  lemma StepTouches(s: State, e: Event, w: WorkerId, id: RowId)
    requires Enabled(s, e)
    requires w in Apply(s, e).workers && id in Touches(Apply(s, e).workers[w])
    ensures (w in s.workers && id in Touches(s.workers[w]))
            || (e.Select? && Candidate(s.rows, id, e.now, e.leaseMs))
  {
  }

  lemma CandidateUnblocked(s: State, id: RowId, now: int, leaseMs: int)
    requires Table(s) && Candidate(s.rows, id, now, leaseMs)
    ensures Unblocked(s, id)
  {
    forall a | Before(s, a, id) ensures a in s.delivered {
      if a in s.rows {
        assert s.inserted[a] == (s.rows[a].session, s.rows[a].number);
      }
    }
  }

  lemma StepKeepsFifo(s: State, e: Event)
    requires Inv(s) && Enabled(s, e)
    ensures Fifo(Apply(s, e))
  {
    var t := Apply(s, e);
    forall id | Unblocked(s, id) ensures Unblocked(t, id) {
      UnblockedStays(s, t, id);
    }
    forall w, id | w in t.workers && id in Touches(t.workers[w]) ensures Unblocked(t, id) {
      StepTouches(s, e, w, id);
      if !(w in s.workers && id in Touches(s.workers[w])) {
        CandidateUnblocked(s, id, e.now, e.leaseMs);
      }
    }
    if (e.Publish? || e.MarkDelivered?) {
      assert s.workers[e.w].todo[0].id in Touches(s.workers[e.w]);
    }
  }

  lemma StepKeepsInv(s: State, e: Event)
    requires Inv(s) && Enabled(s, e)
    ensures Inv(Apply(s, e))
  {
    StepKeepsTable(s, e);
    StepKeepsFifo(s, e);
  }

  lemma OnlyInsertInserts(s: State, e: Event)
    requires Enabled(s, e) && !e.Insert?
    ensures Apply(s, e).inserted == s.inserted
  {
  }

  lemma {:induction false} RunInv(states: seq<State>, events: seq<Event>, k: nat)
    requires Run(states, events) && k < |states|
    ensures Inv(states[k])
  {
    if k > 0 {
      assert Steps(states, events, k - 1);
      RunInv(states, events, k - 1);
      StepKeepsInv(states[k - 1], events[k - 1]);
    }
  }

  // ---------------------------------------------------------------------------------------------
  // First in, first out

  /** At every moment the delivered rows of a session are a prefix of its numbers. */
  lemma DeliveredIsPrefix(states: seq<State>, events: seq<Event>, k: nat, a: RowId, b: RowId)
    requires Run(states, events) && k < |states|
    requires Before(states[k], a, b) && b in states[k].delivered
    ensures a in states[k].delivered
  {
    RunInv(states, events, k);
    assert Unblocked(states[k], b);
  }

  /** Whenever any worker publishes a row, successfully or not, every earlier row of that session
      has already been successfully published and marked delivered. */
  lemma PublishedInOrder(states: seq<State>, events: seq<Event>, k: nat, a: RowId)
    requires Run(states, events) && k < |events| && Enabled(states[k], events[k]) && events[k].Publish?
    requires Before(states[k], a, states[k].workers[events[k].w].todo[0].id)
    ensures a in states[k].published && a in states[k].delivered
  {
    RunInv(states, events, k);
    var me := states[k].workers[events[k].w];
    assert me.todo[0].id in Touches(me);
    assert Unblocked(states[k], me.todo[0].id);
  }

  lemma StepKeepsDelivered(s: State, e: Event, id: RowId)
    requires Table(s) && Enabled(s, e) && id in s.delivered
    ensures id in Apply(s, e).delivered
    ensures id in Apply(s, e).rows ==> id in s.rows && Apply(s, e).rows[id] == s.rows[id]
  {
  }

  /** Delivery is final: whatever stale workers do, a delivered row is never claimed, rescheduled or
      delivered again; it only ever leaves the table. */
  lemma {:induction false} DeliveredRowsAreFrozen(states: seq<State>, events: seq<Event>, i: nat, k: nat, id: RowId)
    requires Run(states, events) && i <= k < |states| && id in states[i].delivered
    ensures id in states[k].delivered
    ensures id in states[k].rows ==> id in states[i].rows && states[k].rows[id] == states[i].rows[id]
    decreases k - i
  {
    if i < k {
      assert Steps(states, events, k - 1);
      DeliveredRowsAreFrozen(states, events, i, k - 1, id);
      RunInv(states, events, k - 1);
      StepKeepsDelivered(states[k - 1], events[k - 1], id);
    }
  }

  lemma StepKeepsTokens(s: State, e: Event, c: Claim)
    requires Enabled(s, e) && c.token in s.tokens && !StillMine(s, c)
    requires forall id :: id in s.rows && s.rows[id].claimToken.Some? ==> s.rows[id].claimToken.value in s.tokens
    ensures c.token in Apply(s, e).tokens && !StillMine(Apply(s, e), c)
  {
  }

  lemma {:induction false} TokensAreUsed(states: seq<State>, events: seq<Event>, k: nat, id: RowId)
    requires Run(states, events) && k < |states| && id in states[k].rows && states[k].rows[id].claimToken.Some?
    ensures states[k].rows[id].claimToken.value in states[k].tokens
  {
    if k > 0 {
      assert Steps(states, events, k - 1);
      if id in states[k - 1].rows && states[k - 1].rows[id].claimToken == states[k].rows[id].claimToken {
        TokensAreUsed(states, events, k - 1, id);
      }
    }
  }

  /** A claim that was lost is lost for good: once its row carries another token, or none, its worker
      can neither deliver nor reschedule the row. */
  lemma {:induction false} StaleClaimCannotMark(states: seq<State>, events: seq<Event>, i: nat, k: nat, c: Claim)
    requires Run(states, events) && i <= k < |states|
    requires c.token in states[i].tokens && !StillMine(states[i], c)
    ensures c.token in states[k].tokens && !StillMine(states[k], c)
    decreases k - i
  {
    if i < k {
      assert Steps(states, events, k - 1);
      var s := states[k - 1];
      StaleClaimCannotMark(states, events, i, k - 1, c);
      forall id | id in s.rows && s.rows[id].claimToken.Some? ensures s.rows[id].claimToken.value in s.tokens {
        TokensAreUsed(states, events, k - 1, id);
      }
      StepKeepsTokens(s, events[k - 1], c);
    }
  }

  /** A row leaves the undelivered state, or the table, only after a successful publish. */
  lemma LossRequiresPublish(states: seq<State>, events: seq<Event>, k: nat, id: RowId)
    requires Run(states, events) && k < |states| && id in states[k].inserted
    ensures id !in states[k].rows || states[k].rows[id].deliveredAt.Some? ==> id in states[k].published
  {
    RunInv(states, events, k);
  }
}
