/** The outbox repository and one dispatcher draining it, as loops over the table. Interleavings of
    several dispatchers are the subject of module Outbox. */
module OutboxTable {
  import opened Sql
  import opened Outbox

  /** Rows of one session have distinct numbers. */
  predicate DistinctNumbers(rows: map<RowId, Row>) {
    forall a, b :: a in rows && b in rows && rows[a].session == rows[b].session && rows[a].number == rows[b].number ==>
      a == b
  }

  predicate SameKeys(before: map<RowId, Row>, after: map<RowId, Row>) {
    && before.Keys == after.Keys
    && forall id :: id in before ==> after[id].session == before[id].session && after[id].number == before[id].number
  }

  function Min(a: nat, b: nat): nat {
    if a <= b then a else b
  }

  /** The backoff ceiling before the attempt after `attempts` ones. */
  function Ceiling(attempts: nat, baseMs: nat, maxMs: nat): nat {
    Min(maxMs, baseMs * Power2(Min(if attempts == 0 then 0 else attempts - 1, 16)))
  }

  /** Full jitter: the ceiling plus one scaled by the draw, at least a millisecond. */
  function RetryDelay(attempts: nat, baseMs: nat, maxMs: nat, random: real): (delay: nat)
    requires 0.0 <= random < 1.0
    ensures 1 <= delay && (delay == 1 || delay <= Ceiling(attempts, baseMs, maxMs))
    ensures var scaled := random * ((Ceiling(attempts, baseMs, maxMs) + 1) as real);
            scaled < (delay + 1) as real && (delay > 1 ==> delay as real <= scaled)
  {
    var ceiling := Ceiling(attempts, baseMs, maxMs);
    JitterBelow(random, ceiling);
    var jitter := (random * ((ceiling + 1) as real)).Floor;
    if jitter < 1 then 1 else jitter
  }

  function Power2(n: nat): nat {
    if n == 0 then 1 else 2 * Power2(n - 1)
  }

  /** The ceiling starts at the base, doubles with every attempt until it meets the maximum or the
      seventeenth attempt, and never falls. */
  lemma CeilingDoubles(attempts: nat, baseMs: nat, maxMs: nat)
    ensures Ceiling(0, baseMs, maxMs) == Ceiling(1, baseMs, maxMs) == Min(maxMs, baseMs)
    ensures 1 <= attempts <= 16 ==> Ceiling(attempts + 1, baseMs, maxMs) == Min(maxMs, 2 * Ceiling(attempts, baseMs, maxMs))
    ensures attempts >= 17 ==> Ceiling(attempts, baseMs, maxMs) == Ceiling(17, baseMs, maxMs)
    ensures Ceiling(attempts, baseMs, maxMs) <= Ceiling(attempts + 1, baseMs, maxMs) <= maxMs
  {
    if attempts >= 1 {
      Doubles(baseMs, Power2(Min(attempts - 1, 16)));
    }
  }

  lemma Doubles(a: nat, b: nat)
    ensures a * (2 * b) == 2 * (a * b) && a * b <= 2 * (a * b)
  {
  }

  lemma JitterBelow(random: real, ceiling: nat)
    requires 0.0 <= random < 1.0
    ensures 0 <= (random * ((ceiling + 1) as real)).Floor <= ceiling
  {
    var x := (ceiling + 1) as real;
    assert 0.0 <= random * x < x;
  }

  // ---------------------------------------------------------------------------------------------
  // The order of the candidate query

  /** ORDER BY next attempt, creation, id. */
  predicate Precedes(rows: map<RowId, Row>, a: RowId, b: RowId)
    requires a in rows && b in rows
  {
    if rows[a].nextAttemptAt != rows[b].nextAttemptAt then rows[a].nextAttemptAt < rows[b].nextAttemptAt
    else if rows[a].createdAt != rows[b].createdAt then rows[a].createdAt < rows[b].createdAt
    else a < b
  }

  predicate Sorted(rows: map<RowId, Row>, ids: seq<RowId>) {
    && (forall i :: 0 <= i < |ids| ==> ids[i] in rows)
    && (forall i, j :: 0 <= i < j < |ids| ==> Precedes(rows, ids[i], ids[j]))
  }

  function Insorted(rows: map<RowId, Row>, ids: seq<RowId>, id: RowId): (r: seq<RowId>)
    requires (forall i :: 0 <= i < |ids| ==> ids[i] in rows) && id in rows
    ensures forall x :: x in r <==> x in ids || x == id
  {
    if ids == [] then [id]
    else if Precedes(rows, id, ids[0]) then [id] + ids
    else
      var rest := Insorted(rows, ids[1..], id);
      assert forall x :: x in ids <==> x == ids[0] || x in ids[1..];
      assert forall x :: x in [ids[0]] + rest <==> x == ids[0] || x in rest;
      [ids[0]] + rest
  }

  lemma {:induction false} InsortedSorts(rows: map<RowId, Row>, ids: seq<RowId>, id: RowId)
    requires Sorted(rows, ids) && id in rows && id !in ids
    ensures Sorted(rows, Insorted(rows, ids, id))
  {
    if ids != [] {
      var r := Insorted(rows, ids, id);
      if Precedes(rows, id, ids[0]) {
        assert forall i :: 1 <= i < |ids| ==> Precedes(rows, ids[0], ids[i]);
      } else {
        var rest := Insorted(rows, ids[1..], id);
        InsortedSorts(rows, ids[1..], id);
        assert r == [ids[0]] + rest;
        forall i | 0 <= i < |rest| ensures Precedes(rows, ids[0], rest[i]) {
          assert rest[i] in rest;
          if rest[i] != id {
            var k :| 0 <= k < |ids[1..]| && ids[1..][k] == rest[i];
            assert ids[k + 1] == rest[i];
          }
        }
      }
    }
  }

  function RowIds(cs: seq<Claim>): (ids: seq<RowId>)
    ensures |ids| == |cs| && forall i :: 0 <= i < |cs| ==> ids[i] == cs[i].id
  {
    seq(|cs|, i requires 0 <= i < |cs| => cs[i].id)
  }

  class NotificationTable {
    var rows: map<RowId, Row>

    constructor ()
      ensures rows == map[]
    {
      rows := map[];
    }

    /** The candidate query: the first `limit` candidates in the query's order. */
    method SelectCandidates(now: int, leaseMs: int, limit: nat) returns (found: seq<RowId>)
      ensures |found| <= limit && Sorted(rows, found)
      ensures forall i :: 0 <= i < |found| ==> Candidate(rows, found[i], now, leaseMs)
      ensures forall id :: Candidate(rows, id, now, leaseMs) && id !in found ==>
                |found| == limit && forall i :: 0 <= i < |found| ==> Precedes(rows, found[i], id)
    {
      var all := [];
      var rest := rows.Keys;
      while rest != {}
        invariant rest <= rows.Keys && Sorted(rows, all)
        invariant forall id :: id in all <==> Candidate(rows, id, now, leaseMs) && id !in rest
        decreases rest
      {
        var id :| id in rest;
        rest := rest - {id};
        if Candidate(rows, id, now, leaseMs) {
          InsortedSorts(rows, all, id);
          all := Insorted(rows, all, id);
        }
      }
      found := if |all| <= limit then all else all[..limit];
      assert forall k :: 0 <= k < |found| ==> all[k] == found[k];
      forall id | Candidate(rows, id, now, leaseMs) && id !in found
        ensures |found| == limit && forall i :: 0 <= i < |found| ==> Precedes(rows, found[i], id)
      {
        var k :| 0 <= k < |all| && all[k] == id;
      }
    }

    /** The claiming CAS of one row. */
    method TryClaim(id: RowId, now: int, leaseMs: int, token: Id) returns (count: nat)
      modifies this
      ensures count == if id in old(rows) && Pending(old(rows)[id], now, leaseMs) then 1 else 0
      ensures rows == if count == 1 then old(rows)[id := Claimed(old(rows)[id], now, token)] else old(rows)
    {
      if id in rows && Pending(rows[id], now, leaseMs) {
        rows := rows[id := rows[id].(claimedAt := Some(now), claimToken := Some(token), attempts := rows[id].attempts + 1)];
        return 1;
      }
      count := 0;
    }

    /** `claimBatch`: only heads of line, at most `limit` of them; every other row is untouched. */
    method ClaimBatch(now: int, leaseMs: int, limit: nat, uuid: nat -> Id) returns (claimed: seq<Claim>)
      modifies this
      ensures |claimed| <= limit && SameKeys(old(rows), rows)
      ensures HeadsOfLine(old(rows), RowIds(claimed), now, leaseMs)
      ensures forall i :: 0 <= i < |claimed| ==>
                rows[claimed[i].id] == Claimed(old(rows)[claimed[i].id], now, claimed[i].token)
      ensures forall id :: id in rows && id !in RowIds(claimed) ==> rows[id] == old(rows)[id]
      ensures |claimed| < limit ==> forall id :: Candidate(old(rows), id, now, leaseMs) ==> id in RowIds(claimed)
    {
      var candidates := SelectCandidates(now, leaseMs, limit);
      claimed := ClaimEach(candidates, now, leaseMs, uuid);
    }

    /** The claiming CAS and the read back that confirms the token. */
    method ClaimOne(id: RowId, now: int, leaseMs: int, token: Id) returns (mine: bool)
      requires id in rows && Pending(rows[id], now, leaseMs)
      modifies this
      ensures mine && SameKeys(old(rows), rows) && rows[id] == Claimed(old(rows)[id], now, token)
      ensures forall x :: x in rows && x != id ==> rows[x] == old(rows)[x]
    {
      var count := TryClaim(id, now, leaseMs, token);
      mine := count == 1 && rows[id].claimToken == Some(token);
    }

    method ClaimEach(candidates: seq<RowId>, now: int, leaseMs: int, uuid: nat -> Id) returns (claimed: seq<Claim>)
      requires HeadsOfLine(rows, candidates, now, leaseMs)
      modifies this
      ensures RowIds(claimed) == candidates && SameKeys(old(rows), rows)
      ensures forall i :: 0 <= i < |claimed| ==>
                rows[claimed[i].id] == Claimed(old(rows)[claimed[i].id], now, claimed[i].token)
      ensures forall id :: id in rows && id !in candidates ==> rows[id] == old(rows)[id]
    {
      claimed := [];
      var i := 0;
      while i < |candidates|
        invariant 0 <= i <= |candidates| && |claimed| == i && ClaimedSoFar(old(rows), rows, candidates, claimed, now)
      {
        var id, token := candidates[i], uuid(i);
        assert Candidate(old(rows), id, now, leaseMs);
        ghost var before := rows;
        var mine := ClaimOne(id, now, leaseMs, token);
        if mine {
          ClaimGoesOn(old(rows), before, rows, candidates, claimed, token, now);
          claimed := claimed + [Claim(id, token)];
        }
        i := i + 1;
      }
    }

    method MarkRowDelivered(c: Claim, at: int)
      modifies this
      ensures rows == if c.id in old(rows) && old(rows)[c.id].claimToken == Some(c.token) && old(rows)[c.id].deliveredAt.None?
                      then old(rows)[c.id := Delivered(old(rows)[c.id], at)] else old(rows)
    {
      if c.id in rows && rows[c.id].claimToken == Some(c.token) && rows[c.id].deliveredAt.None? {
        rows := rows[c.id := rows[c.id].(deliveredAt := Some(at), claimedAt := None, claimToken := None)];
      }
    }

    method MarkRowFailed(c: Claim, retryAt: int)
      modifies this
      ensures rows == if c.id in old(rows) && old(rows)[c.id].claimToken == Some(c.token) && old(rows)[c.id].deliveredAt.None?
                      then old(rows)[c.id := Rescheduled(old(rows)[c.id], retryAt)] else old(rows)
    {
      if c.id in rows && rows[c.id].claimToken == Some(c.token) && rows[c.id].deliveredAt.None? {
        rows := rows[c.id := rows[c.id].(nextAttemptAt := retryAt, claimedAt := None, claimToken := None)];
      }
    }

    method CleanupDelivered(before: int) returns (count: nat)
      modifies this
      ensures rows == map id | id in old(rows) && !(old(rows)[id].deliveredAt.Some? && old(rows)[id].deliveredAt.value < before)
                      :: old(rows)[id]
      ensures count == |old(rows)| - |rows|
    {
      var kept := map id | id in rows && !(rows[id].deliveredAt.Some? && rows[id].deliveredAt.value < before) :: rows[id];
      assert rows.Keys == kept.Keys + (rows.Keys - kept.Keys);
      assert |rows| == |rows.Keys| && |kept| == |kept.Keys|;
      count := |rows| - |kept|;
      rows := kept;
    }

    method DeliverOne(c: Claim, at: int, published: bool, random: real)
      requires 0.0 <= random < 1.0
      requires c.id in rows && rows[c.id].claimToken == Some(c.token) && rows[c.id].deliveredAt.None?
      modifies this
      ensures SameKeys(old(rows), rows) && Settled(old(rows)[c.id], rows[c.id], published, at, random)
      ensures forall id :: id in rows && id != c.id ==> rows[id] == old(rows)[id]
    {
      if published {
        MarkRowDelivered(c, at);
      } else {
        var delay := RetryDelay(rows[c.id].attempts, 500, 60_000, random);
        MarkRowFailed(c, at + delay);
      }
    }

    /** The body of `drain` over one batch: publish, then mark; the clock is read and a draw is made for
        every row. */
    method DeliverBatch(claimed: seq<Claim>, clock: nat -> int, publishes: RowId -> bool, random: nat -> real)
      requires forall i :: 0.0 <= random(i) < 1.0
      requires forall i :: 0 <= i < |claimed| ==>
                 && claimed[i].id in rows && rows[claimed[i].id].claimToken == Some(claimed[i].token)
                 && rows[claimed[i].id].deliveredAt.None?
      requires forall i, j :: 0 <= i < j < |claimed| ==> claimed[i].id != claimed[j].id
      modifies this
      ensures SameKeys(old(rows), rows)
      ensures forall i :: 0 <= i < |claimed| ==> Settled(old(rows)[claimed[i].id], rows[claimed[i].id], publishes(claimed[i].id), clock(i), random(i))
      ensures forall id :: id in rows && id !in RowIds(claimed) ==> rows[id] == old(rows)[id]
    {
      ghost var ids := RowIds(claimed);
      var i := 0;
      while i < |claimed|
        invariant 0 <= i <= |claimed| && SameKeys(old(rows), rows)
        invariant forall k :: 0 <= k < i ==> Settled(old(rows)[claimed[k].id], rows[claimed[k].id], publishes(claimed[k].id), clock(k), random(k))
        invariant forall k :: i <= k < |claimed| ==> rows[claimed[k].id] == old(rows)[claimed[k].id]
        invariant forall id :: id in rows && id !in ids ==> rows[id] == old(rows)[id]
      {
        assert ids[i] == claimed[i].id;
        DeliverOne(claimed[i], clock(i), publishes(claimed[i].id), random(i));
        i := i + 1;
      }
    }

    /** One turn of the `drain` loop. */
    method Turn(now: int, clock: nat -> int, leaseMs: nat, limit: nat, uuid: nat -> Id, publishes: RowId -> bool, random: nat -> real)
      returns (handled: seq<RowId>)
      requires limit > 0 && (forall i :: clock(i) >= now) && forall i :: 0.0 <= random(i) < 1.0
      modifies this
      ensures TurnOf(old(rows), rows, handled, publishes, now, leaseMs)
      ensures handled == [] ==> rows == old(rows) && forall id :: !Candidate(rows, id, now, leaseMs)
    {
      var claimed := ClaimBatch(now, leaseMs, limit, uuid);
      handled := RowIds(claimed);
      forall i | 0 <= i < |claimed|
        ensures claimed[i].id in rows && rows[claimed[i].id].deliveredAt.None?
        ensures rows[claimed[i].id].claimToken == Some(claimed[i].token)
      {
        assert handled[i] == claimed[i].id;
        assert Candidate(old(rows), handled[i], now, leaseMs);
      }
      forall i, j | 0 <= i < j < |claimed| ensures claimed[i].id != claimed[j].id {
        assert handled[i] != handled[j];
      }
      DeliverBatch(claimed, clock, publishes, random);
      if handled == [] {
        assert rows == old(rows);
      }
    }

    /** `drain` of a lone dispatcher that reads a clock that does not step back before every turn and
        every mark, while no publish fails after some horizon: it ends, when nothing is left to claim.
        Within a session a row is sent again only after it failed, at a later reading, and the next
        row only after it was published. */
    method Drain(now: nat -> int, clock: (nat, nat) -> int, leaseMs: nat, limit: nat, uuid: (nat, nat) -> Id,
                 publishes: (nat, RowId) -> bool, random: (nat, nat) -> real, ghost horizon: int)
      returns (sent: seq<Sending>, turns: nat)
      requires limit > 0 && DistinctNumbers(rows)
      requires forall n, i :: now(n) <= clock(n, i) && 0.0 <= random(n, i) < 1.0
      requires forall n, id :: FailsBy(publishes, now, horizon, n, id)
      requires forall m: nat, n: nat :: NotBack(now, m, n)
      modifies this
      ensures Progress(old(rows), rows, sent, now, turns) && Answered(sent, publishes)
      ensures forall id :: !Candidate(rows, id, now(turns), leaseMs)
    {
      sent, turns := [], 0;
      ghost var order := DrainStarts(rows, now, publishes);
      while true
        invariant Progress(old(rows), rows, sent, now, turns) && Answered(sent, publishes)
        invariant Covers(order, rows)
        decreases Patience(order, rows, horizon)
      {
        var handled := DrainTurn(now, clock, leaseMs, limit, uuid, publishes, random, turns, old(rows), sent, order, horizon);
        if handled == [] {
          break;
        }
        sent, turns := sent + Sendings(handled, publishes, turns), turns + 1;
      }
    }

    method DrainTurn(now: nat -> int, clock: (nat, nat) -> int, leaseMs: nat, limit: nat, uuid: (nat, nat) -> Id,
                     publishes: (nat, RowId) -> bool, random: (nat, nat) -> real, n: nat,
                     ghost origin: map<RowId, Row>, ghost sent: seq<Sending>, ghost order: seq<RowId>, ghost horizon: int)
      returns (handled: seq<RowId>)
      requires limit > 0 && forall i :: now(n) <= clock(n, i) && 0.0 <= random(n, i) < 1.0
      requires forall id :: FailsBy(publishes, now, horizon, n, id)
      requires forall m: nat :: NotBack(now, m, n)
      requires Progress(origin, rows, sent, now, n) && Answered(sent, publishes) && Covers(order, rows)
      modifies this
      ensures handled == [] ==> rows == old(rows) && forall id :: !Candidate(rows, id, now(n), leaseMs)
      ensures handled != [] ==>
                && Progress(origin, rows, sent + Sendings(handled, publishes, n), now, n + 1)
                && Answered(sent + Sendings(handled, publishes, n), publishes) && Covers(order, rows)
                && Patience(order, rows, horizon) < Patience(order, old(rows), horizon)
    {
      handled := Turn(now(n), (i: nat) => clock(n, i), leaseMs, limit, (i: nat) => uuid(n, i), InTurn(publishes, n), (i: nat) => random(n, i));
      if handled != [] {
        TurnAdvances(origin, old(rows), rows, sent, handled, publishes, now, n, leaseMs, order, horizon);
      }
    }
  }

  /** The first candidates are claimed under their tokens, and every other row is untouched. */
  predicate ClaimedSoFar(origin: map<RowId, Row>, rows: map<RowId, Row>, candidates: seq<RowId>, claimed: seq<Claim>, now: int) {
    && SameKeys(origin, rows) && |claimed| <= |candidates|
    && (forall k :: 0 <= k < |claimed| ==> claimed[k].id == candidates[k])
    && (forall k :: 0 <= k < |claimed| && candidates[k] in rows ==>
          rows[candidates[k]] == Claimed(origin[candidates[k]], now, claimed[k].token))
    && (forall k :: |claimed| <= k < |candidates| && candidates[k] in rows ==> rows[candidates[k]] == origin[candidates[k]])
    && (forall id :: id in rows && id !in candidates ==> rows[id] == origin[id])
  }

  lemma ClaimGoesOn(origin: map<RowId, Row>, before: map<RowId, Row>, after: map<RowId, Row>, candidates: seq<RowId>,
                    claimed: seq<Claim>, token: Id, now: int)
    requires ClaimedSoFar(origin, before, candidates, claimed, now) && |claimed| < |candidates|
    requires forall i, j :: 0 <= i < j < |candidates| ==> candidates[i] != candidates[j]
    requires var id := candidates[|claimed|];
             id in before && SameKeys(before, after) && after[id] == Claimed(before[id], now, token)
    requires forall x :: x in after && x != candidates[|claimed|] ==> after[x] == before[x]
    ensures ClaimedSoFar(origin, after, candidates, claimed + [Claim(candidates[|claimed|], token)], now)
  {
  }

  /** Distinct rows, each the first undelivered one of its session. */
  predicate HeadsOfLine(rows: map<RowId, Row>, ids: seq<RowId>, now: int, leaseMs: int) {
    && (forall i :: 0 <= i < |ids| ==> ids[i] in rows && Candidate(rows, ids[i], now, leaseMs))
    && (forall i, j :: 0 <= i < j < |ids| ==> ids[i] != ids[j])
  }

  /** A published row is delivered at the reading, any other rescheduled by the drawn delay after it. */
  predicate Settled(before: Row, after: Row, published: bool, at: int, random: real)
    requires 0.0 <= random < 1.0
  {
    after == if published then Delivered(before, at)
             else Rescheduled(before, at + RetryDelay(before.attempts, 500, 60_000, random))
  }

  /** A published row is delivered; any other waits, unclaimed, for a later time. */
  predicate Handled(r: Row, published: bool, now: int) {
    if published then r.deliveredAt.Some?
    else r.deliveredAt.None? && r.nextAttemptAt > now && r.claimedAt.None?
  }

  predicate EarlierDelivered(rows: map<RowId, Row>, id: RowId)
    requires id in rows
  {
    forall a :: a in rows && rows[a].session == rows[id].session && rows[a].number < rows[id].number ==>
      rows[a].deliveredAt.Some?
  }

  /** A row handed to the publisher in a turn of the drain. */
  datatype Sending = Sending(id: RowId, ok: bool, turn: nat)

  function Sendings(ids: seq<RowId>, publishes: (nat, RowId) -> bool, turn: nat): (r: seq<Sending>)
    ensures |r| == |ids| && forall i :: 0 <= i < |ids| ==> r[i] == Sending(ids[i], publishes(turn, ids[i]), turn)
  {
    seq(|ids|, i requires 0 <= i < |ids| => Sending(ids[i], publishes(turn, ids[i]), turn))
  }

  /** The clock does not step back from turn m to turn n. */
  predicate NotBack(now: nat -> int, m: nat, n: nat) {
    m <= n ==> now(m) <= now(n)
  }

  /** If the publish fails, the turn began by the horizon. */
  predicate FailsBy(publishes: (nat, RowId) -> bool, now: nat -> int, horizon: int, n: nat, id: RowId) {
    publishes(n, id) || now(n) <= horizon
  }

  function InTurn(publishes: (nat, RowId) -> bool, turn: nat): (r: RowId -> bool)
    ensures forall id :: r(id) == publishes(turn, id)
  {
    (id: RowId) => publishes(turn, id)
  }

  /** Each sending had the outcome of its publish. */
  predicate Answered(sent: seq<Sending>, publishes: (nat, RowId) -> bool) {
    forall i :: 0 <= i < |sent| ==> sent[i].ok == publishes(sent[i].turn, sent[i].id)
  }

  predicate Sent(sent: seq<Sending>, id: RowId) {
    exists i :: 0 <= i < |sent| && sent[i].id == id
  }

  /** Published in one of the sendings from i up to j. */
  predicate PublishedIn(sent: seq<Sending>, i: nat, j: nat, id: RowId) {
    exists x :: i <= x < j && x < |sent| && sent[x].id == id && sent[x].ok
  }

  /** What has become of the row of the i-th sending: undelivered at first, it is delivered if and only
      if one of the sendings succeeded, and otherwise waits, unclaimed. */
  predicate Outcome(origin: map<RowId, Row>, rows: map<RowId, Row>, sent: seq<Sending>, i: nat)
    requires i < |sent|
  {
    var id := sent[i].id;
    && id in rows && id in origin && origin[id].deliveredAt.None?
    && (rows[id].deliveredAt.Some? <==> PublishedIn(sent, i, |sent|, id))
    && (rows[id].deliveredAt.None? ==> rows[id].claimedAt.None?)
  }

  /** Ascending within a session; a row again only after a failure and at a later reading; the next row
      only after a success. */
  predicate InOrder(rows: map<RowId, Row>, sent: seq<Sending>, now: nat -> int) {
    forall i, j :: 0 <= i < j < |sent| ==> Ordered(rows, sent, now, i, j)
  }

  predicate Ordered(rows: map<RowId, Row>, sent: seq<Sending>, now: nat -> int, i: nat, j: nat)
    requires i < j < |sent|
  {
    sent[i].id in rows && sent[j].id in rows && rows[sent[i].id].session == rows[sent[j].id].session ==>
      if sent[i].id == sent[j].id then !sent[i].ok && now(sent[i].turn) < now(sent[j].turn)
      else rows[sent[i].id].number < rows[sent[j].id].number && PublishedIn(sent, i, j, sent[i].id)
  }

  /** What a drain has done so far to the table it started from. */
  ghost predicate Progress(origin: map<RowId, Row>, rows: map<RowId, Row>, sent: seq<Sending>, now: nat -> int, turns: nat) {
    && DistinctNumbers(origin) && SameKeys(origin, rows) && InOrder(rows, sent, now)
    && (forall i :: 0 <= i < |sent| ==> Tracked(origin, rows, sent, now, turns, i))
    && (forall id :: id in rows && !Sent(sent, id) ==> rows[id] == origin[id])
  }

  ghost predicate Tracked(origin: map<RowId, Row>, rows: map<RowId, Row>, sent: seq<Sending>, now: nat -> int, turns: nat, i: nat)
    requires i < |sent|
  {
    sent[i].turn < turns && Outcome(origin, rows, sent, i) && Waits(rows, sent[i], now)
  }

  /** A row that was sent is behind delivered rows only, and if it failed it is due later. */
  predicate Waits(rows: map<RowId, Row>, s: Sending, now: nat -> int)
    requires s.id in rows
  {
    EarlierDelivered(rows, s.id) && (rows[s.id].deliveredAt.None? ==> rows[s.id].nextAttemptAt > now(s.turn))
  }

  /** Heads of line of distinct sessions. */
  lemma OneHeadPerSession(rows: map<RowId, Row>, ids: seq<RowId>, now: int, leaseMs: int, i: nat, j: nat)
    requires HeadsOfLine(rows, ids, now, leaseMs) && i < j < |ids|
    ensures rows[ids[i]].session != rows[ids[j]].session
  {
    assert Candidate(rows, ids[i], now, leaseMs) && Candidate(rows, ids[j], now, leaseMs);
  }

  /** A turn's effect: heads of line handled, everything else untouched. */
  ghost predicate TurnOf(before: map<RowId, Row>, after: map<RowId, Row>, handled: seq<RowId>, publishes: RowId -> bool, now: int, leaseMs: nat) {
    && SameKeys(before, after) && HeadsOfLine(before, handled, now, leaseMs)
    && (forall i :: 0 <= i < |handled| ==> Handled(after[handled[i]], publishes(handled[i]), now))
    && (forall id :: id in after && id !in handled ==> after[id] == before[id])
  }

  lemma OkIsPublished(sent: seq<Sending>, i: nat)
    requires i < |sent|
    ensures sent[i].ok ==> PublishedIn(sent, i, |sent|, sent[i].id)
  {
  }

  /** How a row that was sent before relates to a head of line. */
  lemma SentBefore(origin: map<RowId, Row>, rows: map<RowId, Row>, sent: seq<Sending>, now: nat -> int, turns: nat,
                   i: nat, head: RowId, at: int, leaseMs: nat)
    requires Progress(origin, rows, sent, now, turns) && i < |sent| && sent[i].id in rows
    requires Candidate(rows, head, at, leaseMs) && rows[head].session == rows[sent[i].id].session
    ensures if sent[i].id == head then !sent[i].ok && now(sent[i].turn) < at
            else rows[sent[i].id].number < rows[head].number && PublishedIn(sent, i, |sent|, sent[i].id)
  {
    assert Tracked(origin, rows, sent, now, turns, i);
    OkIsPublished(sent, i);
    if sent[i].id != head {
      assert rows[sent[i].id].number != rows[head].number;
    }
  }

  lemma PublishedStays(sent: seq<Sending>, more: seq<Sending>, i: nat, j: nat, id: RowId)
    requires i <= |sent| <= j
    ensures PublishedIn(sent, i, |sent|, id) ==> PublishedIn(sent + more, i, j, id)
  {
    if PublishedIn(sent, i, |sent|, id) {
      var x :| i <= x < |sent| && sent[x].id == id && sent[x].ok;
      assert (sent + more)[x] == sent[x];
    }
  }

  lemma OldStaysOrdered(before: map<RowId, Row>, after: map<RowId, Row>, sent: seq<Sending>, more: seq<Sending>, now: nat -> int, i: nat, j: nat)
    requires SameKeys(before, after) && i < j < |sent| && Ordered(before, sent, now, i, j)
    ensures Ordered(after, sent + more, now, i, j)
  {
    assert forall x :: 0 <= x < |sent| ==> (sent + more)[x] == sent[x];
    if PublishedIn(sent, i, j, sent[i].id) {
      var x :| i <= x < j && x < |sent| && sent[x].id == sent[i].id && sent[x].ok;
      assert (sent + more)[x] == sent[x];
    }
  }

  lemma NewFollows(origin: map<RowId, Row>, before: map<RowId, Row>, after: map<RowId, Row>, sent: seq<Sending>, more: seq<Sending>,
                   now: nat -> int, n: nat, leaseMs: nat, i: nat, k: nat)
    requires Progress(origin, before, sent, now, n) && SameKeys(before, after) && i < |sent| && k < |more|
    requires more[k].turn == n && Candidate(before, more[k].id, now(n), leaseMs)
    ensures Ordered(after, sent + more, now, i, |sent| + k)
  {
    var all, head := sent + more, more[k].id;
    assert all[i] == sent[i] && all[|sent| + k] == more[k];
    if sent[i].id in before && before[sent[i].id].session == before[head].session {
      SentBefore(origin, before, sent, now, n, i, head, now(n), leaseMs);
      PublishedStays(sent, more, i, |sent| + k, sent[i].id);
    }
  }

  lemma NewAreApart(before: map<RowId, Row>, after: map<RowId, Row>, sent: seq<Sending>, more: seq<Sending>, handled: seq<RowId>,
                    now: nat -> int, at: int, leaseMs: nat, k: nat, l: nat)
    requires SameKeys(before, after) && HeadsOfLine(before, handled, at, leaseMs)
    requires k < l < |handled| == |more| && more[k].id == handled[k] && more[l].id == handled[l]
    ensures Ordered(after, sent + more, now, |sent| + k, |sent| + l)
  {
    OneHeadPerSession(before, handled, at, leaseMs, k, l);
  }

  lemma PairStaysOrdered(origin: map<RowId, Row>, before: map<RowId, Row>, after: map<RowId, Row>, sent: seq<Sending>, more: seq<Sending>,
                         handled: seq<RowId>, now: nat -> int, n: nat, leaseMs: nat, i: nat, j: nat)
    requires Progress(origin, before, sent, now, n) && SameKeys(before, after) && HeadsOfLine(before, handled, now(n), leaseMs)
    requires |more| == |handled| && forall k :: 0 <= k < |more| ==> more[k].id == handled[k] && more[k].turn == n
    requires i < j < |sent| + |more|
    ensures Ordered(after, sent + more, now, i, j)
  {
    if j < |sent| {
      OldStaysOrdered(before, after, sent, more, now, i, j);
    } else if i < |sent| {
      NewFollows(origin, before, after, sent, more, now, n, leaseMs, i, j - |sent|);
    } else {
      NewAreApart(before, after, sent, more, handled, now, now(n), leaseMs, i - |sent|, j - |sent|);
    }
  }

  lemma TurnKeepsOrder(origin: map<RowId, Row>, before: map<RowId, Row>, after: map<RowId, Row>, sent: seq<Sending>, more: seq<Sending>,
                       handled: seq<RowId>, now: nat -> int, n: nat, leaseMs: nat)
    requires Progress(origin, before, sent, now, n) && SameKeys(before, after) && HeadsOfLine(before, handled, now(n), leaseMs)
    requires |more| == |handled| && forall k :: 0 <= k < |more| ==> more[k].id == handled[k] && more[k].turn == n
    ensures InOrder(after, sent + more, now)
  {
    forall i, j | 0 <= i < j < |sent + more| ensures Ordered(after, sent + more, now, i, j) {
      PairStaysOrdered(origin, before, after, sent, more, handled, now, n, leaseMs, i, j);
    }
  }

  lemma TurnDelivers(before: map<RowId, Row>, after: map<RowId, Row>, handled: seq<RowId>, id: RowId, now: int, leaseMs: nat)
    requires SameKeys(before, after) && HeadsOfLine(before, handled, now, leaseMs) && id in before
    requires forall x :: x in after && x !in handled ==> after[x] == before[x]
    requires id in handled || EarlierDelivered(before, id)
    ensures EarlierDelivered(after, id)
  {
    if id in handled {
      var k :| 0 <= k < |handled| && handled[k] == id;
      assert Candidate(before, id, now, leaseMs);
    }
    forall a | a in after && after[a].session == after[id].session && after[a].number < after[id].number
      ensures after[a].deliveredAt.Some?
    {
      assert before[a].deliveredAt.Some?;
      assert a !in handled;
    }
  }

  lemma TurnOutcome(origin: map<RowId, Row>, before: map<RowId, Row>, after: map<RowId, Row>, sent: seq<Sending>,
                    handled: seq<RowId>, publishes: (nat, RowId) -> bool, now: nat -> int, n: nat, leaseMs: nat, i: nat)
    requires Progress(origin, before, sent, now, n) && TurnOf(before, after, handled, InTurn(publishes, n), now(n), leaseMs)
    requires i < |sent| && forall m: nat :: NotBack(now, m, n)
    ensures var all := sent + Sendings(handled, publishes, n);
            Tracked(origin, after, all, now, n + 1, i)
  {
    var new', id := Sendings(handled, publishes, n), sent[i].id;
    var all := sent + new';
    assert Tracked(origin, before, sent, now, n, i) && NotBack(now, sent[i].turn, n);
    TurnDelivers(before, after, handled, id, now(n), leaseMs);
    PublishedStays(sent, new', i, |all|, id);
    if id in handled {
      var k :| 0 <= k < |handled| && handled[k] == id;
      assert Candidate(before, id, now(n), leaseMs) && all[|sent| + k] == new'[k];
    }
    if PublishedIn(all, i, |all|, id) {
      var x :| i <= x < |all| && all[x].id == id && all[x].ok;
      assert if x < |sent| then all[x] == sent[x] else all[x] == new'[x - |sent|];
      assert x < |sent| ==> PublishedIn(sent, i, |sent|, id);
    }
  }

  lemma NewOutcome(origin: map<RowId, Row>, before: map<RowId, Row>, after: map<RowId, Row>, sent: seq<Sending>,
                   handled: seq<RowId>, publishes: (nat, RowId) -> bool, now: nat -> int, n: nat, leaseMs: nat, k: nat)
    requires Progress(origin, before, sent, now, n) && TurnOf(before, after, handled, InTurn(publishes, n), now(n), leaseMs)
    requires k < |handled|
    ensures var new' := Sendings(handled, publishes, n);
            Tracked(origin, after, sent + new', now, n + 1, |sent| + k)
  {
    var new', id := Sendings(handled, publishes, n), handled[k];
    var all := sent + new';
    assert Candidate(before, id, now(n), leaseMs) && all[|sent| + k] == new'[k];
    TurnDelivers(before, after, handled, id, now(n), leaseMs);
    if Sent(sent, id) {
      var i :| 0 <= i < |sent| && sent[i].id == id;
      assert Tracked(origin, before, sent, now, n, i);
    }
    if PublishedIn(all, |sent| + k, |all|, id) {
      var x :| |sent| + k <= x < |all| && all[x].id == id && all[x].ok;
      assert all[x] == new'[x - |sent|];
    }
  }

  lemma TurnTracks(origin: map<RowId, Row>, before: map<RowId, Row>, after: map<RowId, Row>, sent: seq<Sending>,
                   handled: seq<RowId>, publishes: (nat, RowId) -> bool, now: nat -> int, n: nat, leaseMs: nat, i: nat)
    requires Progress(origin, before, sent, now, n) && TurnOf(before, after, handled, InTurn(publishes, n), now(n), leaseMs)
    requires i < |sent| + |handled| && forall m: nat :: NotBack(now, m, n)
    ensures Tracked(origin, after, sent + Sendings(handled, publishes, n), now, n + 1, i)
  {
    if i < |sent| {
      TurnOutcome(origin, before, after, sent, handled, publishes, now, n, leaseMs, i);
    } else {
      NewOutcome(origin, before, after, sent, handled, publishes, now, n, leaseMs, i - |sent|);
    }
  }

  lemma UnsentStays(origin: map<RowId, Row>, before: map<RowId, Row>, after: map<RowId, Row>, sent: seq<Sending>,
                    handled: seq<RowId>, publishes: (nat, RowId) -> bool, n: nat)
    requires SameKeys(origin, before) && SameKeys(before, after)
    requires forall id :: id in before && !Sent(sent, id) ==> before[id] == origin[id]
    requires forall id :: id in after && id !in handled ==> after[id] == before[id]
    ensures forall id :: id in after && !Sent(sent + Sendings(handled, publishes, n), id) ==> after[id] == origin[id]
  {
    forall id | id in after && !Sent(sent + Sendings(handled, publishes, n), id) ensures after[id] == origin[id] {
      NotSent(sent, handled, publishes, n, id);
    }
  }

  lemma TurnMakesProgress(origin: map<RowId, Row>, before: map<RowId, Row>, after: map<RowId, Row>, sent: seq<Sending>,
                          handled: seq<RowId>, publishes: (nat, RowId) -> bool, now: nat -> int, n: nat, leaseMs: nat)
    requires Progress(origin, before, sent, now, n) && TurnOf(before, after, handled, InTurn(publishes, n), now(n), leaseMs)
    requires forall m: nat :: NotBack(now, m, n)
    ensures Progress(origin, after, sent + Sendings(handled, publishes, n), now, n + 1)
  {
    var all, turns := sent + Sendings(handled, publishes, n), n + 1;
    TurnKeepsOrder(origin, before, after, sent, Sendings(handled, publishes, n), handled, now, n, leaseMs);
    forall i | 0 <= i < |all| ensures Tracked(origin, after, all, now, turns, i) {
      TurnTracks(origin, before, after, sent, handled, publishes, now, n, leaseMs, i);
    }
    UnsentStays(origin, before, after, sent, handled, publishes, n);
  }

  lemma AnsweredStays(sent: seq<Sending>, handled: seq<RowId>, publishes: (nat, RowId) -> bool, n: nat)
    requires Answered(sent, publishes)
    ensures Answered(sent + Sendings(handled, publishes, n), publishes)
  {
  }

  lemma NotSent(sent: seq<Sending>, handled: seq<RowId>, publishes: (nat, RowId) -> bool, n: nat, id: RowId)
    ensures Sent(sent + Sendings(handled, publishes, n), id) <==> Sent(sent, id) || id in handled
  {
    var new' := Sendings(handled, publishes, n);
    var all := sent + new';
    if Sent(sent, id) {
      var i :| 0 <= i < |sent| && sent[i].id == id;
      assert all[i] == sent[i];
    }
    if id in handled {
      var k :| 0 <= k < |handled| && handled[k] == id;
      assert all[|sent| + k] == new'[k];
    }
  }

  // ---------------------------------------------------------------------------------------------
  // A drain without failures after a horizon terminates

  lemma KeysAsList(ids: set<RowId>) returns (r: seq<RowId>)
    ensures forall id :: id in ids ==> id in r
  {
    r := [];
    var rest := ids;
    while rest != {}
      invariant rest <= ids && forall id :: id in ids ==> id in rest || id in r
    {
      var id :| id in rest;
      r, rest := r + [id], rest - {id};
    }
  }

  lemma DrainStarts(rows: map<RowId, Row>, now: nat -> int, publishes: (nat, RowId) -> bool) returns (order: seq<RowId>)
    requires DistinctNumbers(rows)
    ensures Progress(rows, rows, [], now, 0) && Answered([], publishes) && Covers(order, rows)
  {
    order := KeysAsList(rows.Keys);
  }

  /** How often a row can still fail by the horizon, and one for its delivery. */
  function Cost(rows: map<RowId, Row>, id: RowId, horizon: int): nat {
    if id !in rows || rows[id].deliveredAt.Some? then 0
    else if rows[id].nextAttemptAt > horizon then 1
    else horizon - rows[id].nextAttemptAt + 2
  }

  function Patience(order: seq<RowId>, rows: map<RowId, Row>, horizon: int): nat {
    if order == [] then 0 else Cost(rows, order[0], horizon) + Patience(order[1..], rows, horizon)
  }

  lemma {:induction false} PatienceFalls(order: seq<RowId>, before: map<RowId, Row>, after: map<RowId, Row>, horizon: int)
    requires forall id :: id in order ==> Cost(after, id, horizon) <= Cost(before, id, horizon)
    ensures Patience(order, after, horizon) <= Patience(order, before, horizon)
    ensures (exists id :: id in order && Cost(after, id, horizon) < Cost(before, id, horizon)) ==>
              Patience(order, after, horizon) < Patience(order, before, horizon)
  {
    if order != [] {
      assert order[0] in order && forall id :: id in order <==> id == order[0] || id in order[1..];
      PatienceFalls(order[1..], before, after, horizon);
    }
  }

  predicate Covers(order: seq<RowId>, rows: map<RowId, Row>) {
    forall id :: id in rows ==> id in order
  }

  lemma TurnCostsPatience(order: seq<RowId>, before: map<RowId, Row>, after: map<RowId, Row>, handled: seq<RowId>,
                          publishes: RowId -> bool, now: int, leaseMs: nat, horizon: int)
    requires TurnOf(before, after, handled, publishes, now, leaseMs) && handled != []
    requires forall id :: !publishes(id) ==> now <= horizon
    requires Covers(order, before)
    ensures Patience(order, after, horizon) < Patience(order, before, horizon)
  {
    forall id | id in handled ensures Cost(after, id, horizon) < Cost(before, id, horizon) {
      var k :| 0 <= k < |handled| && handled[k] == id;
      assert Candidate(before, id, now, leaseMs);
    }
    assert handled[0] in handled && Candidate(before, handled[0], now, leaseMs);
    forall id | id in order ensures Cost(after, id, horizon) <= Cost(before, id, horizon) {
      assert id in handled || id !in after || after[id] == before[id];
    }
    PatienceFalls(order, before, after, horizon);
  }

  /** A turn that handles something carries the drain on. */
  lemma TurnAdvances(origin: map<RowId, Row>, before: map<RowId, Row>, after: map<RowId, Row>, sent: seq<Sending>,
                     handled: seq<RowId>, publishes: (nat, RowId) -> bool, now: nat -> int, n: nat, leaseMs: nat,
                     order: seq<RowId>, horizon: int)
    requires Progress(origin, before, sent, now, n) && Answered(sent, publishes) && Covers(order, before) && handled != []
    requires TurnOf(before, after, handled, InTurn(publishes, n), now(n), leaseMs)
    requires forall m: nat :: NotBack(now, m, n)
    requires forall id :: FailsBy(publishes, now, horizon, n, id)
    ensures Progress(origin, after, sent + Sendings(handled, publishes, n), now, n + 1)
    ensures Answered(sent + Sendings(handled, publishes, n), publishes) && Covers(order, after)
    ensures Patience(order, after, horizon) < Patience(order, before, horizon)
  {
    TurnMakesProgress(origin, before, after, sent, handled, publishes, now, n, leaseMs);
    AnsweredStays(sent, handled, publishes, n);
    assert forall id :: FailsBy(publishes, now, horizon, n, id) <==> InTurn(publishes, n)(id) || now(n) <= horizon;
    TurnCostsPatience(order, before, after, handled, InTurn(publishes, n), now(n), leaseMs, horizon);
  }

  /** Every undelivered row has an undelivered head of line at or before it. */
  lemma {:induction false} HeadOfLine(rows: map<RowId, Row>, id: RowId) returns (head: RowId)
    requires DistinctNumbers(rows) && id in rows && rows[id].deliveredAt.None?
    ensures head in rows && rows[head].session == rows[id].session && rows[head].number <= rows[id].number
    ensures rows[head].deliveredAt.None? && EarlierDelivered(rows, head)
    decreases rows[id].number
  {
    if EarlierDelivered(rows, id) {
      head := id;
    } else {
      var a :| a in rows && rows[a].session == rows[id].session && rows[a].number < rows[id].number
               && rows[a].deliveredAt.None?;
      head := HeadOfLine(rows, a);
    }
  }

  /** With nothing left to claim, an undelivered row is stuck only behind a head of line that is
      claimed elsewhere or scheduled for later. */
  lemma StuckOnlyBehindUnready(rows: map<RowId, Row>, id: RowId, now: int, leaseMs: int) returns (head: RowId)
    requires DistinctNumbers(rows) && id in rows && rows[id].deliveredAt.None?
    requires forall x :: !Candidate(rows, x, now, leaseMs)
    ensures head in rows && rows[head].session == rows[id].session && rows[head].number <= rows[id].number
    ensures rows[head].deliveredAt.None? && !Pending(rows[head], now, leaseMs)
  {
    head := HeadOfLine(rows, id);
    assert !Candidate(rows, head, now, leaseMs);
  }

  /** A drained table whose rows were all ready at the start, and whose publishes all succeeded, is
      delivered to the last row. */
  lemma DrainDeliversEverything(origin: map<RowId, Row>, rows: map<RowId, Row>, sent: seq<Sending>, now: nat -> int, turns: nat,
                                leaseMs: int, id: RowId)
    requires Progress(origin, rows, sent, now, turns) && id in rows
    requires forall x :: !Candidate(rows, x, now(turns), leaseMs)
    requires forall i :: 0 <= i < |sent| ==> sent[i].ok
    requires forall x :: x in origin && origin[x].deliveredAt.None? ==> Pending(origin[x], now(turns), leaseMs)
    ensures rows[id].deliveredAt.Some?
  {
    forall x | Sent(sent, x) ensures x in rows && rows[x].deliveredAt.Some? {
      var i :| 0 <= i < |sent| && sent[i].id == x;
      assert Tracked(origin, rows, sent, now, turns, i);
      OkIsPublished(sent, i);
    }
    if rows[id].deliveredAt.None? {
      var head := StuckOnlyBehindUnready(rows, id, now(turns), leaseMs);
      assert false;
    }
  }
}
