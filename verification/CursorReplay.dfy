/** Cursor replay of a session's messages, page by page, while the log may grow between pages. */
module CursorReplay {
  import opened Sql
  import opened MessageLog
  import SessionRuns
  import SessionTheorems

  datatype Page = Page(messages: seq<Message>, hasMore: bool, nextAfterSeq: nat)

  /** The query: messages above the cursor, in log order. */
  function Above(log: seq<Message>, after: nat): seq<Message> {
    if log == [] then []
    else
      var last := log[|log| - 1];
      Above(log[..|log| - 1], after) + if last.number > after then [last] else []
  }

  /** `listSessionMessagesAfterSeq`: reads one row more than the limit to learn whether more follow. */
  function List(log: seq<Message>, after: nat, limit: nat): Page {
    var found := Above(log, after);
    var rows := if |found| > limit + 1 then found[..limit + 1] else found;
    var hasMore := |rows| > limit;
    var page := if hasMore then rows[..limit] else rows;
    Page(page, hasMore, if |page| > 0 then page[|page| - 1].number else after)
  }

  predicate Ascending(log: seq<Message>) {
    forall i, j :: 0 <= i < j < |log| ==> log[i].number < log[j].number
  }

  /** Successive reads of an append-only, ascending log. */
  predicate Growing(logs: seq<seq<Message>>) {
    && (forall i :: 0 <= i < |logs| ==> Ascending(logs[i]))
    && (forall i, j :: 0 <= i <= j < |logs| ==> logs[i] <= logs[j])
  }

  /** `cursor` is the `nextAfterSeq` of the last page read. */
  datatype Replayed = Replayed(messages: seq<Message>, cursor: nat, stoppedAt: Option<nat>)

  /** Follows `nextAfterSeq`, reading page i from logs[i], until a page reports no more. */
  function Follow(logs: seq<seq<Message>>, after: nat, limit: nat): Replayed {
    if logs == [] then Replayed([], after, None)
    else
      var page := List(logs[0], after, limit);
      if !page.hasMore then Replayed(page.messages, page.nextAfterSeq, Some(0))
      else
        var rest := Follow(logs[1..], page.nextAfterSeq, limit);
        Replayed(page.messages + rest.messages, rest.cursor,
               if rest.stoppedAt.Some? then Some(rest.stoppedAt.value + 1) else None)
  }

  /** How many leading messages the cursor has passed. */
  function Passed(log: seq<Message>, after: nat): (c: nat)
    ensures c <= |log|
    ensures forall i :: c <= i < |log| ==> log[i].number > after
    ensures c > 0 ==> log[c - 1].number <= after
  {
    if log == [] then 0
    else if log[|log| - 1].number <= after then |log|
    else
      var c := Passed(log[..|log| - 1], after);
      assert forall i :: c <= i < |log| - 1 ==> log[..|log| - 1][i] == log[i];
      c
  }

  /** On an ascending log the query returns a suffix. */
  lemma {:induction false} AboveIsSuffix(log: seq<Message>, after: nat) returns (c: nat)
    requires Ascending(log)
    ensures c <= |log| && Above(log, after) == log[c..]
    ensures forall i :: 0 <= i < |log| ==> (i < c <==> log[i].number <= after)
  {
    c := Passed(log, after);
    if c > 0 {
      assert forall i :: 0 <= i < c ==> log[i].number <= log[c - 1].number;
    }
    AboveSkips(log, after, c);
  }

  lemma {:induction false} AboveSkips(log: seq<Message>, after: nat, c: nat)
    requires c <= |log|
    requires forall i :: 0 <= i < |log| ==> (i < c <==> log[i].number <= after)
    ensures Above(log, after) == log[c..]
  {
    if |log| > 0 {
      var n := |log| - 1;
      var prefix := log[..n];
      AboveSkips(prefix, after, if c > n then n else c);
      assert c <= n ==> log[c..] == prefix[c..] + [log[n]];
    }
  }

  /** A page is the next `limit` messages above the cursor, or all if there are no more than that, and
      says whether there are more. */
  lemma PageIs(log: seq<Message>, after: nat, limit: nat) returns (c: nat, d: nat)
    requires limit >= 1 && Ascending(log)
    ensures c <= d <= |log| && d == if c + limit < |log| then c + limit else |log|
    ensures forall i :: 0 <= i < |log| ==> (i < c <==> log[i].number <= after)
    ensures List(log, after, limit) == Page(log[c..d], d < |log|, if c < d then log[d - 1].number else after)
  {
    c := AboveIsSuffix(log, after);
    d := if c + limit < |log| then c + limit else |log|;
    assert List(log, after, limit).messages == log[c..d];
  }

  lemma CutsLater(log: seq<Message>, later: seq<Message>, after: nat, c: nat, d: nat)
    requires Ascending(later) && log <= later && c < d <= |log|
    requires forall i :: 0 <= i < |log| ==> (i < c <==> log[i].number <= after)
    ensures Above(later, after) == later[c..] && Above(later, log[d - 1].number) == later[d..]
  {
    forall i | 0 <= i < |later| ensures (i < c <==> later[i].number <= after) && (i < d <==> later[i].number <= log[d - 1].number) {
      assert later[c] == log[c] && later[d - 1] == log[d - 1];
      assert i < |log| ==> later[i] == log[i];
    }
    AboveSkips(later, after, c);
    AboveSkips(later, log[d - 1].number, d);
  }

  lemma SplitSuffix(log: seq<Message>, c: nat, d: nat)
    requires c <= d <= |log|
    ensures log[c..] == log[c..d] + log[d..]
  {
  }

  lemma CutPassed(log: seq<Message>, later: seq<Message>, after: nat, c: nat, d: nat)
    requires Ascending(later) && log <= later && c < d <= |log|
    requires forall i :: 0 <= i < |log| ==> (i < c <==> log[i].number <= after)
    ensures Above(later, after) == log[c..d] + Above(later, log[d - 1].number)
  {
    CutsLater(log, later, after, c, d);
    SplitSuffix(later, c, d);
    assert later[c..d] == log[c..d];
  }

  /** After any page the cursor has passed exactly the page's messages, in this log and in every later
      one; the page is full if it says that there are more, and there are more exactly if it says so. */
  lemma PageAdvances(log: seq<Message>, later: seq<Message>, after: nat, limit: nat)
    requires limit >= 1 && Ascending(log) && Ascending(later) && log <= later
    ensures var page := List(log, after, limit);
            && Above(later, after) == page.messages + Above(later, page.nextAfterSeq)
            && |page.messages| <= limit
            && (page.hasMore <==> Above(log, page.nextAfterSeq) != [])
            && (page.hasMore ==> |page.messages| == limit)
  {
    var c, d := PageIs(log, after, limit);
    if c < d {
      CutPassed(log, later, after, c, d);
      CutsLater(log, log, after, c, d);
    } else {
      AboveSkips(log, after, c);
    }
  }

  /** The logs a replay has read. */
  predicate ReadWithin(logs: seq<seq<Message>>, r: Replayed, later: seq<Message>) {
    forall i :: 0 <= i < |logs| && (r.stoppedAt.Some? ==> i <= r.stoppedAt.value) ==> logs[i] <= later
  }

  lemma RestReadWithin(logs: seq<seq<Message>>, after: nat, limit: nat, later: seq<Message>)
    requires logs != [] && List(logs[0], after, limit).hasMore && ReadWithin(logs, Follow(logs, after, limit), later)
    ensures var rest := Follow(logs[1..], List(logs[0], after, limit).nextAfterSeq, limit);
            && ReadWithin(logs[1..], rest, later)
            && Follow(logs, after, limit).messages == List(logs[0], after, limit).messages + rest.messages
            && Follow(logs, after, limit).cursor == rest.cursor
  {
    forall i | 0 <= i < |logs[1..]| ensures logs[1..][i] == logs[i + 1] {}
  }

  /** Whether or not a replay has stopped, its cursor has passed exactly the messages it has returned, in
      every log that is at least as long as those it read. */
  lemma {:induction false} ReplayAdvances(logs: seq<seq<Message>>, later: seq<Message>, after: nat, limit: nat)
    requires limit >= 1 && Ascending(later) && ReadWithin(logs, Follow(logs, after, limit), later)
    ensures var r := Follow(logs, after, limit);
            Above(later, after) == r.messages + Above(later, r.cursor)
  {
    if logs != [] {
      var page := List(logs[0], after, limit);
      assert logs[0] <= later && Ascending(logs[0]);
      PageAdvances(logs[0], later, after, limit);
      if page.hasMore {
        RestReadWithin(logs, after, limit, later);
        ReplayAdvances(logs[1..], later, page.nextAfterSeq, limit);
        var rest := Follow(logs[1..], page.nextAfterSeq, limit);
        Regroup(page.messages, rest.messages, Above(later, rest.cursor));
      }
    }
  }

  lemma Regroup(a: seq<Message>, b: seq<Message>, c: seq<Message>)
    ensures a + (b + c) == a + b + c
  {
  }

  /** It stops at the end of the log it reads last. */
  lemma {:induction false} StopsAtTheEnd(logs: seq<seq<Message>>, after: nat, limit: nat)
    requires limit >= 1 && Growing(logs) && Follow(logs, after, limit).stoppedAt.Some?
    ensures var r := Follow(logs, after, limit);
            r.stoppedAt.value < |logs| && Above(logs[r.stoppedAt.value], r.cursor) == []
  {
    var page := List(logs[0], after, limit);
    if page.hasMore {
      StopsAtTheEnd(logs[1..], page.nextAfterSeq, limit);
    } else {
      PageAdvances(logs[0], logs[0], after, limit);
    }
  }

  /** A replay that stops has returned exactly the messages above the starting cursor in the log as
      its last page saw it, in order, without gap or repeat. */
  lemma ReplayIsExact(logs: seq<seq<Message>>, after: nat, limit: nat)
    requires limit >= 1 && Growing(logs)
    requires Follow(logs, after, limit).stoppedAt.Some?
    ensures var r := Follow(logs, after, limit);
            r.stoppedAt.value < |logs| && r.messages == Above(logs[r.stoppedAt.value], after)
  {
    StopsAtTheEnd(logs, after, limit);
    ReplayAdvances(logs, logs[Follow(logs, after, limit).stoppedAt.value], after, limit);
  }

  lemma GrowingParts(logs: seq<seq<Message>>, more: seq<seq<Message>>)
    requires Growing(logs + more)
    ensures Growing(logs) && Growing(more)
    ensures forall i, j :: 0 <= i < |logs| && 0 <= j < |more| ==> logs[i] <= more[j]
  {
    var all := logs + more;
    forall i | 0 <= i < |logs| ensures all[i] == logs[i] {}
    forall j | 0 <= j < |more| ensures more[j] == all[|logs| + j] {}
  }

  /** A replay that stopped and is resumed later from its last cursor returns, all in all, what one
      replay would: nothing is missing in between and nothing comes twice. */
  lemma ResumedReplayIsExact(logs: seq<seq<Message>>, more: seq<seq<Message>>, after: nat, limit: nat, limit': nat)
    requires limit >= 1 && limit' >= 1 && Growing(logs + more)
    requires var first := Follow(logs, after, limit);
             first.stoppedAt.Some? && Follow(more, first.cursor, limit').stoppedAt.Some?
    ensures var first := Follow(logs, after, limit);
            var second := Follow(more, first.cursor, limit');
            && second.stoppedAt.value < |more|
            && first.messages + second.messages == Above(more[second.stoppedAt.value], after)
            && second.messages == Above(more[second.stoppedAt.value], first.cursor)
  {
    var first := Follow(logs, after, limit);
    GrowingParts(logs, more);
    StopsAtTheEnd(more, first.cursor, limit');
    ReplayAdvances(logs, more[Follow(more, first.cursor, limit').stoppedAt.value], after, limit);
    ReplayIsExact(more, first.cursor, limit');
  }

  /** It stops: reading a log that never outgrows `bound` takes at most one page per `limit`
      messages above the cursor, plus one. */
  lemma {:induction false} ReplayTerminates(logs: seq<seq<Message>>, bound: seq<Message>, after: nat, limit: nat)
    requires limit >= 1 && Growing(logs) && Ascending(bound)
    requires forall i :: 0 <= i < |logs| ==> logs[i] <= bound
    requires |logs| * limit > |Above(bound, after)|
    ensures Follow(logs, after, limit).stoppedAt.Some?
  {
    var page := List(logs[0], after, limit);
    if page.hasMore {
      PageAdvances(logs[0], bound, after, limit);
      FewerPages(|logs|, limit, |Above(bound, after)|);
      ReplayTerminates(logs[1..], bound, page.nextAfterSeq, limit);
    }
  }

  lemma FewerPages(pages: nat, limit: nat, messages: nat)
    requires pages >= 1 && pages * limit > messages
    ensures (pages - 1) * limit > messages - limit
  {
  }

  /** For a session in any run: pages read at any increasing moments and followed to the end are the
      log above the cursor at the moment of the last page. */
  lemma SessionReplayIsLossless(
      states: seq<SessionRuns.State>, events: seq<SessionRuns.Event>, times: seq<nat>, after: nat, limit: nat)
    requires SessionRuns.Run(states, events) && limit >= 1
    requires forall i :: 0 <= i < |times| ==> times[i] < |states|
    requires forall i, j :: 0 <= i <= j < |times| ==> times[i] <= times[j]
    ensures var logs := seq(|times|, i requires 0 <= i < |times| => states[times[i]].log);
            var r := Follow(logs, after, limit);
            && (r.stoppedAt.Some? ==> r.stoppedAt.value < |times|
                                      && r.messages == Above(states[times[r.stoppedAt.value]].log, after))
            && (|times| * limit > |states[|states| - 1].log| ==> r.stoppedAt.Some?)
  {
    var logs := seq(|times|, i requires 0 <= i < |times| => states[times[i]].log);
    var last := states[|states| - 1].log;
    forall k: nat | k < |states| ensures Ascending(states[k].log) && states[k].log <= last {
      SessionRuns.RunInv(states, events, k);
      SessionTheorems.LogOnlyGrows(states, events, k, |states| - 1);
    }
    forall i, j | 0 <= i <= j < |logs| ensures logs[i] <= logs[j] {
      SessionTheorems.LogOnlyGrows(states, events, times[i], times[j]);
    }
    if Follow(logs, after, limit).stoppedAt.Some? {
      ReplayIsExact(logs, after, limit);
    }
    var c := AboveIsSuffix(last, after);
    if |times| * limit > |last| {
      ReplayTerminates(logs, last, after, limit);
    }
  }
}
