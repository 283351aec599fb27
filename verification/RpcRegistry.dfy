/** The Redis side of RPC registration: the generation-ordered refresh script and the
    compare-delete script, each one atomic loop over its keys. */
module RpcRegistry {
  import opened Sql
  import opened Generations

  type Key = string

  datatype Target = Target(socketId: string, generation: string, owner: string)

  /** A stored string: an encoded target, or anything that does not decode to one with a
      generation. Equal strings are equal values, because encoding is injective. */
  datatype Value = Encoded(target: Target) | Undecodable(raw: string)

  type Store = map<Key, Value>

  datatype Registration = Registration(key: Key, target: Target)

  function Get(store: Store, key: Key): Option<Value> {
    if key in store then Some(store[key]) else None
  }

  predicate Accepts(current: Option<Value>, candidate: Target) {
    match current
    case None => true
    case Some(Undecodable(_)) => false
    case Some(Encoded(stored)) => stored == candidate || Less(stored.generation, candidate.generation)
  }

  /** One refresh of one key. */
  function Refresh(store: Store, r: Registration): Store {
    if Accepts(Get(store, r.key), r.target) then store[r.key := Encoded(r.target)] else store
  }

  /** Refreshes issued one by one. */
  function RefreshAll(store: Store, rs: seq<Registration>): Store {
    if rs == [] then store
    else Refresh(RefreshAll(store, rs[..|rs| - 1]), rs[|rs| - 1])
  }

  /** What each refresh answers: whether its candidate is the stored value right after its turn. */
  function RefreshAnswers(store: Store, rs: seq<Registration>): seq<bool> {
    if rs == [] then []
    else RefreshAnswers(store, rs[..|rs| - 1]) + [HoldsTarget(RefreshAll(store, rs), rs[|rs| - 1])]
  }

  predicate HoldsTarget(store: Store, r: Registration) {
    Get(store, r.key) == Some(Encoded(r.target))
  }

  function Delete(store: Store, r: Registration): Store {
    if HoldsTarget(store, r) then store - {r.key} else store
  }

  function DeleteAll(store: Store, rs: seq<Registration>): Store {
    if rs == [] then store
    else Delete(DeleteAll(store, rs[..|rs| - 1]), rs[|rs| - 1])
  }

  /** What each compare-delete answers: whether its target was the stored value at its turn. */
  function DeleteAnswers(store: Store, rs: seq<Registration>): seq<bool> {
    if rs == [] then []
    else DeleteAnswers(store, rs[..|rs| - 1]) + [HoldsTarget(DeleteAll(store, rs[..|rs| - 1]), rs[|rs| - 1])]
  }

  class Redis {
    var store: Store

    constructor ()
      ensures store == map[]
    {
      store := map[];
    }

    /** One turn of the refresh script's loop; it reports success iff the candidate is now stored. */
    method RefreshKey(r: Registration) returns (ok: bool)
      modifies this
      ensures store == Refresh(old(store), r) && ok == HoldsTarget(store, r)
    {
      var current := Get(store, r.key);
      if current == Some(Encoded(r.target)) {
        return true;                                  // PEXPIRE on a present key
      }
      if current.None? {
        store := store[r.key := Encoded(r.target)];   // SET NX cannot lose inside the script
        return true;
      }
      if current.value.Encoded? && Less(current.value.target.generation, r.target.generation) {
        store := store[r.key := Encoded(r.target)];
        return true;
      }
      ok := false;
    }

    /** The batch refresh script: in effect and in its answers the same as refreshing one by one. */
    method RefreshBatch(rs: seq<Registration>) returns (results: seq<bool>)
      modifies this
      ensures store == RefreshAll(old(store), rs)
      ensures results == RefreshAnswers(old(store), rs)
    {
      results := [];
      for index := 0 to |rs|
        invariant store == RefreshAll(old(store), rs[..index])
        invariant results == RefreshAnswers(old(store), rs[..index])
      {
        assert rs[..index + 1][..index] == rs[..index];
        var ok := RefreshKey(rs[index]);
        results := results + [ok];
      }
      assert rs[..|rs|] == rs;
    }

    method DeleteKey(r: Registration) returns (ok: bool)
      modifies this
      ensures store == Delete(old(store), r) && ok == HoldsTarget(old(store), r)
    {
      ok := Get(store, r.key) == Some(Encoded(r.target));
      if ok {
        store := store - {r.key};
      }
    }

    /** The batch compare-delete script. */
    method DeleteBatch(rs: seq<Registration>) returns (results: seq<bool>)
      modifies this
      ensures store == DeleteAll(old(store), rs)
      ensures results == DeleteAnswers(old(store), rs)
    {
      results := [];
      for index := 0 to |rs|
        invariant store == DeleteAll(old(store), rs[..index])
        invariant results == DeleteAnswers(old(store), rs[..index])
      {
        assert rs[..index + 1][..index] == rs[..index];
        var ok := DeleteKey(rs[index]);
        results := results + [ok];
      }
      assert rs[..|rs|] == rs;
    }
  }

  /** For distinct keys the answers tell the outcome: of a refresh, whether the key holds the target
      afterwards; of a delete, whether it held it before. */
  lemma {:induction false} AnswersTellTheOutcome(store: Store, rs: seq<Registration>, i: nat)
    requires i < |rs| && forall j, k :: 0 <= j < k < |rs| ==> rs[j].key != rs[k].key
    ensures |RefreshAnswers(store, rs)| == |DeleteAnswers(store, rs)| == |rs|
    ensures RefreshAnswers(store, rs)[i] == HoldsTarget(RefreshAll(store, rs), rs[i])
    ensures DeleteAnswers(store, rs)[i] == HoldsTarget(store, rs[i])
    ensures HoldsTarget(store, rs[i]) ==> !HoldsTarget(DeleteAll(store, rs), rs[i])
  {
    var n := |rs| - 1;
    AnswerCounts(store, rs);
    AnswerCounts(store, rs[..n]);
    if i < n {
      AnswersTellTheOutcome(store, rs[..n], i);
    } else {
      OthersUntouched(store, rs[..n], rs[n].key);
    }
  }

  lemma {:induction false} AnswerCounts(store: Store, rs: seq<Registration>)
    ensures |RefreshAnswers(store, rs)| == |DeleteAnswers(store, rs)| == |rs|
  {
    if rs != [] {
      AnswerCounts(store, rs[..|rs| - 1]);
    }
  }

  lemma {:induction false} OthersUntouched(store: Store, rs: seq<Registration>, key: Key)
    requires forall i :: 0 <= i < |rs| ==> rs[i].key != key
    ensures Get(RefreshAll(store, rs), key) == Get(DeleteAll(store, rs), key) == Get(store, key)
  {
    if rs != [] {
      OthersUntouched(store, rs[..|rs| - 1], key);
    }
  }

  /** A value that is no target is never overwritten by a refresh or removed by a delete. */
  lemma {:induction false} ForeignValuesStay(store: Store, key: Key, rs: seq<Registration>)
    requires key in store && store[key].Undecodable?
    ensures Get(RefreshAll(store, rs), key) == Get(DeleteAll(store, rs), key) == Some(store[key])
  {
    if rs != [] {
      ForeignValuesStay(store, key, rs[..|rs| - 1]);
    }
  }

  // ---------------------------------------------------------------------------------------------
  // Refresh is a join

  predicate SameOrNewer(a: Target, b: Target) {
    a == b || Less(a.generation, b.generation)
  }

  /** `best` is at least as new as the stored value and every candidate for the key. */
  predicate Greatest(store: Store, key: Key, rs: seq<Registration>, best: Target) {
    && (forall r :: r in rs && r.key == key ==> SameOrNewer(r.target, best))
    && (key in store ==> store[key].Encoded? && SameOrNewer(store[key].target, best))
  }

  predicate Offered(store: Store, key: Key, rs: seq<Registration>, best: Target) {
    Registration(key, best) in rs || (key in store && store[key] == Encoded(best))
  }

  /** Refreshes of any number of registrations, in any order and for any other keys besides, leave
      a key holding the greatest generation among its old value and its candidates, and at every
      point something no greater. */
  lemma {:induction false} RefreshIsJoin(store: Store, key: Key, rs: seq<Registration>, best: Target)
    requires Greatest(store, key, rs, best)
    ensures var after := RefreshAll(store, rs);
            && (key in after ==> after[key].Encoded? && SameOrNewer(after[key].target, best))
            && (Offered(store, key, rs, best) ==> key in after && after[key] == Encoded(best))
  {
    if rs != [] {
      var n := |rs| - 1;
      RefreshIsJoin(store, key, rs[..n], best);
      LessTrichotomy(best.generation, best.generation);
      var before := RefreshAll(store, rs[..n]);
      if key in before && before[key] == Encoded(best) && rs[n].key == key {
        LessTrichotomy(best.generation, rs[n].target.generation);
      }
      if Offered(store, key, rs, best) && !Offered(store, key, rs[..n], best) {
        assert rs[n] == Registration(key, best) by {
          var i :| 0 <= i < |rs| && rs[i] == Registration(key, best);
          assert i < n ==> rs[..n][i] == rs[i];
        }
      }
    }
  }

  /** So the outcome does not depend on the order or repetition of the refreshes. */
  lemma RefreshOrderIrrelevant(store: Store, key: Key, rs: seq<Registration>, qs: seq<Registration>, best: Target)
    requires Greatest(store, key, rs, best) && Offered(store, key, rs, best)
    requires forall r :: r in qs <==> r in rs
    ensures Get(RefreshAll(store, qs), key) == Get(RefreshAll(store, rs), key) == Some(Encoded(best))
  {
    RefreshIsJoin(store, key, rs, best);
    forall i | 0 <= i < |qs| && qs[i].key == key
      ensures SameOrNewer(qs[i].target, best)
    {
      assert qs[i] in rs;
    }
    RefreshIsJoin(store, key, qs, best);
  }

  /** Generations are unique: on one key, equal generations are the same registration. */
  predicate Distinct(store: Store, key: Key, rs: seq<Registration>) {
    && (forall r, q :: r in rs && q in rs && SameSlot(r, q, key) ==> r == q)
    && (key in store ==> store[key].Encoded?)
    && (key in store ==>
          forall r :: r in rs && SameSlot(r, Registration(key, store[key].target), key) ==>
            r.target == store[key].target)
  }

  predicate SameSlot(r: Registration, q: Registration, key: Key) {
    r.key == q.key == key && r.target.generation == q.target.generation
  }

  lemma {:induction false} GreatestExists(store: Store, key: Key, rs: seq<Registration>) returns (best: Target)
    requires Distinct(store, key, rs)
    requires key in store || exists r :: r in rs && r.key == key
    ensures Greatest(store, key, rs, best) && Offered(store, key, rs, best)
  {
    if |rs| == 0 {
      best := store[key].target;
    } else {
      var n := |rs| - 1;
      var front, last := rs[..n], rs[n];
      assert forall r :: r in rs <==> r in front || r == last;
      if key in store || exists r :: r in front && r.key == key {
        best := GreatestExists(store, key, front);
        if last.key == key {
          LessTrichotomy(best.generation, last.target.generation);
          if Less(best.generation, last.target.generation) {
            Newer(store, key, front, best, last.target);
            best := last.target;
          } else {
            assert SameOrNewer(last.target, best);
          }
        }
      } else {
        best := last.target;
      }
    }
  }

  lemma Newer(store: Store, key: Key, rs: seq<Registration>, best: Target, next: Target)
    requires Greatest(store, key, rs, best) && Less(best.generation, next.generation)
    ensures Greatest(store, key, rs, next)
  {
    forall t: Target | SameOrNewer(t, best) ensures SameOrNewer(t, next) {
      if t != best {
        LessTransitive(t.generation, best.generation, next.generation);
      }
    }
  }

  /** The registry converges: for distinct generations every sequence of refreshes that touches the
      key, also after Redis lost it, ends storing the greatest generation it was offered. */
  lemma RefreshConverges(store: Store, key: Key, rs: seq<Registration>) returns (best: Target)
    requires Distinct(store, key, rs)
    requires key in store || exists r :: r in rs && r.key == key
    ensures Greatest(store, key, rs, best) && Offered(store, key, rs, best)
    ensures HoldsTarget(RefreshAll(store, rs), Registration(key, best))
  {
    best := GreatestExists(store, key, rs);
    RefreshIsJoin(store, key, rs, best);
  }

  /** A compare-delete touches a key only if it held exactly that registration: whatever the stale
      deletes, a registration none of them names survives, and no other value appears. */
  lemma {:induction false} StaleDeletesSpareNewer(store: Store, key: Key, rs: seq<Registration>)
    ensures key in DeleteAll(store, rs) ==> key in store && DeleteAll(store, rs)[key] == store[key]
    ensures key in store && key !in DeleteAll(store, rs) <==>
            exists i :: 0 <= i < |rs| && HoldsTarget(store, rs[i]) && rs[i].key == key
  {
    if rs != [] {
      var n := |rs| - 1;
      StaleDeletesSpareNewer(store, key, rs[..n]);
      var before := DeleteAll(store, rs[..n]);
      if key in store && key !in before {
        var i :| 0 <= i < |rs[..n]| && HoldsTarget(store, rs[..n][i]) && rs[..n][i].key == key;
        assert HoldsTarget(store, rs[i]) && rs[i].key == key;
      } else if key in store && rs[n].key == key && HoldsTarget(store, rs[n]) {
        assert HoldsTarget(before, rs[n]);
      } else {
        assert forall i :: 0 <= i < n ==> rs[..n][i] == rs[i];
      }
    }
  }
}
