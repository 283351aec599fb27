/** The least-recently-used set: a doubly linked list threaded through the nodes of a map. */
module LruSet {
  class Node<T> {
    const value: T
    var prev: Node?<T>
    var next: Node?<T>

    constructor (value: T)
      ensures this.value == value && prev == null && next == null
    {
      this.value, prev, next := value, null, null;
    }
  }

  // ---------------------------------------------------------------------------------------------
  // The sequence it stands for: duplicate-free, most recently used first

  predicate Distinct<T(==)>(s: seq<T>) {
    forall i, j :: 0 <= i < j < |s| ==> s[i] != s[j]
  }

  function Without<T(==)>(s: seq<T>, v: T): (r: seq<T>)
    ensures v !in s ==> r == s
  {
    if s == [] then [] else if s[0] == v then s[1..] else [s[0]] + Without(s[1..], v)
  }

  function Touch<T(==)>(s: seq<T>, v: T): seq<T> {
    if v in s then [v] + Without(s, v) else s
  }

  /** A JavaScript number as a bound: neither Infinity nor NaN is ever exceeded. */
  datatype Capacity = Finite(size: real) | Unlimited

  predicate Fits(n: nat, c: Capacity) {
    c.Finite? ==> n as real <= c.size
  }

  function Insert<T(==)>(s: seq<T>, v: T, c: Capacity): seq<T> {
    if v in s then Touch(s, v)
    else if Fits(|s| + 1, c) then [v] + s
    else ([v] + s)[..|s|]
  }

  lemma {:induction false} WithoutAt<T>(s: seq<T>, k: nat)
    requires Distinct(s) && k < |s|
    ensures Without(s, s[k]) == RemoveAt(s, k)
  {
    if k > 0 {
      assert s[0] != s[k];
      WithoutAt(s[1..], k - 1);
      assert s[1..][k - 1] == s[k];
      assert [s[0]] + (s[1..][..k - 1] + s[1..][k..]) == s[..k] + s[k + 1..];
    }
  }

  function RemoveAt<T>(s: seq<T>, k: nat): seq<T>
    requires k < |s|
  {
    s[..k] + s[k + 1..]
  }

  // ---------------------------------------------------------------------------------------------
  // Nodes and the map

  function Values<T>(nodes: seq<Node<T>>): (s: seq<T>)
    ensures |s| == |nodes|
    ensures forall i :: 0 <= i < |nodes| ==> s[i] == nodes[i].value
  {
    seq(|nodes|, i requires 0 <= i < |nodes| => nodes[i].value)
  }

  /** The map holds exactly the listed nodes, each under its value. */
  ghost predicate Indexed<T>(nodes: seq<Node<T>>, index: map<T, Node<T>>) {
    && Distinct(nodes)
    && (forall i :: 0 <= i < |nodes| ==> nodes[i].value in index && index[nodes[i].value] == nodes[i])
    && (forall v :: v in index ==> index[v].value == v && index[v] in nodes)
  }

  lemma IndexedDistinct<T>(nodes: seq<Node<T>>, index: map<T, Node<T>>)
    requires Indexed(nodes, index)
    ensures Distinct(Values(nodes))
    ensures forall v :: v in index <==> v in Values(nodes)
  {
    forall i, j | 0 <= i < j < |nodes| ensures nodes[i].value != nodes[j].value {
      assert index[nodes[i].value] == nodes[i] && index[nodes[j].value] == nodes[j];
    }
    forall v | v in index ensures v in Values(nodes) {
      var i :| 0 <= i < |nodes| && nodes[i] == index[v];
      assert Values(nodes)[i] == v;
    }
  }

  lemma {:induction false} IndexedSize<T>(nodes: seq<Node<T>>, index: map<T, Node<T>>)
    requires Indexed(nodes, index)
    ensures |index| == |nodes|
  {
    if nodes == [] {
      assert index == map[];
    } else {
      var n := |nodes| - 1;
      var v := nodes[n].value;
      IndexedWithout(nodes, index, n);
      assert RemoveAt(nodes, n) == nodes[..n];
      IndexedSize(nodes[..n], index - {v});
      assert index.Keys == (index - {v}).Keys + {v};
      assert |index| == |index.Keys| && |index - {v}| == |(index - {v}).Keys|;
    }
  }

  lemma IndexedWithout<T>(nodes: seq<Node<T>>, index: map<T, Node<T>>, k: nat)
    requires Indexed(nodes, index) && k < |nodes|
    ensures Indexed(RemoveAt(nodes, k), index - {nodes[k].value})
    ensures Values(RemoveAt(nodes, k)) == RemoveAt(Values(nodes), k)
  {
    var rest, smaller := RemoveAt(nodes, k), index - {nodes[k].value};
    assert forall i :: 0 <= i < |rest| ==> rest[i] == nodes[if i < k then i else i + 1];
    forall i | 0 <= i < |rest| ensures rest[i].value in smaller && smaller[rest[i].value] == rest[i] {
      var j := if i < k then i else i + 1;
      assert rest[i] == nodes[j] && index[nodes[j].value] == nodes[j] && index[nodes[k].value] == nodes[k];
    }
    forall v | v in smaller ensures smaller[v].value == v && smaller[v] in rest {
      var j :| 0 <= j < |nodes| && nodes[j] == index[v];
      assert j != k;
      assert rest[if j < k then j else j - 1] == nodes[j];
    }
  }

  lemma IndexedFront<T>(nodes: seq<Node<T>>, index: map<T, Node<T>>, node: Node<T>)
    requires Indexed(nodes, index) && node.value !in index
    ensures Indexed([node] + nodes, index[node.value := node])
    ensures Values([node] + nodes) == [node.value] + Values(nodes)
  {
    var all, larger := [node] + nodes, index[node.value := node];
    assert forall i :: 0 < i < |all| ==> all[i] == nodes[i - 1];
    forall i, j | 0 <= i < j < |all| ensures all[i] != all[j] {
      assert all[j].value in index;
    }
    forall v | v in larger ensures larger[v].value == v && larger[v] in all {
      if v == node.value {
        assert all[0] == larger[v];
      } else {
        var i :| 0 <= i < |nodes| && nodes[i] == index[v];
        assert all[i + 1] == larger[v];
      }
    }
  }

  class LRUSet<T(==)> {
    const maxSize: Capacity
    var index: map<T, Node<T>>
    var head: Node?<T>
    var tail: Node?<T>
    ghost var nodes: seq<Node<T>>
    ghost var repr: set<Node<T>>   // every node ever linked

    ghost predicate Linked()
      reads this`nodes, this`head, this`tail, this`repr, repr
    {
      && Distinct(nodes)
      && (forall i :: 0 <= i < |nodes| ==> nodes[i] in repr)
      && head == (if nodes == [] then null else nodes[0])
      && tail == (if nodes == [] then null else nodes[|nodes| - 1])
      && (head != null ==> head.prev == null)
      && (tail != null ==> tail.next == null)
      && (forall i :: 0 <= i < |nodes| - 1 ==> nodes[i].next == nodes[i + 1])
      && (forall i :: 0 < i < |nodes| ==> nodes[i].prev == nodes[i - 1])
    }

    ghost predicate Valid()
      reads this, repr
    {
      Linked() && Indexed(nodes, index) && Fits(|nodes|, maxSize)
    }

    ghost function Contents(): seq<T>
      reads this`nodes
    {
      Values(nodes)
    }

    constructor (maxSize: Capacity)
      requires Fits(0, maxSize)
      ensures Valid() && this.maxSize == maxSize && Contents() == [] && repr == {}
    {
      this.maxSize := maxSize;
      index, head, tail, nodes, repr := map[], null, null, [], {};
    }

    /** The constructor as callers see it: it throws on a capacity that is not positive. */
    static method Create(maxSize: Capacity) returns (r: LRUSet?<T>)
      ensures r == null <==> maxSize.Finite? && maxSize.size <= 0.0
      ensures r != null ==> fresh(r) && r.Valid() && r.maxSize == maxSize && r.Contents() == [] && r.repr == {}
    {
      if maxSize.Finite? && maxSize.size <= 0.0 {
        return null;
      }
      r := new LRUSet(maxSize);
    }

    /** Takes the k-th node out of the list; `delete` and `moveToFront` share this part. */
    method Unlink(node: Node<T>, ghost k: nat)
      requires Linked() && k < |nodes| && nodes[k] == node
      modifies this`head, this`tail, this`nodes, repr
      ensures Linked() && nodes == RemoveAt(old(nodes), k)
    {
      assert node.prev == if k == 0 then null else nodes[k - 1];
      assert node.next == if k == |nodes| - 1 then null else nodes[k + 1];
      if node.prev != null { node.prev.next := node.next; }
      if node.next != null { node.next.prev := node.prev; }
      if node == head { head := node.next; }
      if node == tail { tail := node.prev; }
      nodes := RemoveAt(nodes, k);
    }

    /** Puts a node that is not in the list in front of it; `add` and `moveToFront` share this. */
    method PushFront(node: Node<T>)
      requires Linked() && forall i :: 0 <= i < |nodes| ==> nodes[i] != node
      modifies this`head, this`tail, this`nodes, this`repr, repr, node
      ensures Linked() && nodes == [node] + old(nodes) && repr == old(repr) + {node}
    {
      node.prev := null;
      node.next := head;
      if head != null { head.prev := node; }
      head := node;
      if tail == null { tail := node; }
      nodes := [node] + nodes;
      repr := repr + {node};
    }

    method MoveToFront(node: Node<T>, ghost k: nat)
      requires Valid() && k < |nodes| && nodes[k] == node
      modifies this`head, this`tail, this`nodes, this`repr, repr
      ensures Valid() && repr == old(repr)
      ensures nodes == [node] + RemoveAt(old(nodes), k)
    {
      if node == head {
        HeadIsFirst(nodes, k);
        return;
      }
      MovedIsIndexed(nodes, index, k);
      Relink(node, k);
    }

    method Relink(node: Node<T>, ghost k: nat)
      requires Linked() && k < |nodes| && nodes[k] == node
      modifies this`head, this`tail, this`nodes, this`repr, repr
      ensures Linked() && repr == old(repr)
      ensures nodes == [node] + RemoveAt(old(nodes), k)
    {
      NotInRest(nodes, k);
      Unlink(node, k);
      PushFront(node);
    }

    /** Refines the insertion exactly when at least one value fits; otherwise the value leaves the map
        again but stays the head, so that it is listed while the size is zero. */
    method Add(value: T)
      requires Valid()
      modifies this, repr
      ensures Valid() <==> Fits(1, maxSize)
      ensures Fits(1, maxSize) ==> Contents() == Insert(old(Contents()), value, maxSize)
      ensures !Fits(1, maxSize) ==>
                old(Contents()) == [] && index == map[] && head != null && head.value == value && head.next == null
      ensures fresh(repr - old(repr))
    {
      IndexedDistinct(nodes, index);
      if value in index {
        var existing := index[value];
        ghost var k :| 0 <= k < |nodes| && nodes[k] == existing;
        MovedValues(nodes, k);
        MoveToFront(existing, k);
        return;
      }
      AddNew(value);
    }

    method AddNew(value: T)
      requires Valid() && value !in index
      modifies this, repr
      ensures fresh(repr - old(repr))
      ensures Valid() <==> Fits(1, maxSize)
      ensures Fits(1, maxSize) ==>
                Contents() == if Fits(|old(nodes)| + 1, maxSize) then [value] + old(Contents())
                              else ([value] + old(Contents()))[..|old(nodes)|]
      ensures !Fits(1, maxSize) ==>
                old(nodes) == [] && index == map[] && head != null && head.value == value && head.next == null
    {
      Link(value);
      IndexedSize(nodes, index);
      if !Fits(|index|, maxSize) {
        Evicted(nodes, index, |nodes| - 1);
        Evict();
      }
    }

    method Link(value: T)
      requires Linked() && Indexed(nodes, index) && value !in index
      modifies this, repr
      ensures Linked() && Indexed(nodes, index) && fresh(repr - old(repr))
      ensures |nodes| == |old(nodes)| + 1 && Contents() == [value] + old(Contents())
    {
      var node := new Node(value);
      IndexedFront(nodes, index, node);
      index := index[value := node];
      PushFront(node);
    }

    /** Cuts the last node off the list. The head is left alone, even if it is that node. */
    method CutTail()
      requires nodes != [] && Linked()
      modifies this`tail, this`nodes, repr
      ensures nodes == RemoveAt(old(nodes), |old(nodes)| - 1)
      ensures Linked() <==> |old(nodes)| >= 2
      ensures |old(nodes)| == 1 ==> head.next == null
    {
      ghost var n := |nodes|;
      assert n >= 2 ==> tail.prev == nodes[n - 2];
      tail := tail.prev;
      if tail != null { tail.next := null; }
      nodes := RemoveAt(nodes, n - 1);
      if n == 1 {
        assert nodes == [];
      }
    }

    method Evict()
      requires nodes != [] && Fits(|nodes| - 1, maxSize) && Linked()
      requires Indexed(RemoveAt(nodes, |nodes| - 1), index - {nodes[|nodes| - 1].value})
      modifies this, repr
      ensures repr == old(repr) && (Valid() <==> |old(nodes)| >= 2)
      ensures |old(nodes)| >= 2 ==> nodes == RemoveAt(old(nodes), |old(nodes)| - 1)
      ensures |old(nodes)| == 1 ==> index == map[] && head == old(nodes)[0] && head.next == null
    {
      index := index - {tail.value};
      CutTail();
    }

    method Has(value: T) returns (found: bool)
      requires Valid()
      modifies this, repr
      ensures Valid() && found == (value in old(Contents())) && Contents() == Touch(old(Contents()), value)
      ensures repr == old(repr)
    {
      IndexedDistinct(nodes, index);
      found := value in index;
      if found {
        var node := index[value];
        ghost var k :| 0 <= k < |nodes| && nodes[k] == node;
        MovedValues(nodes, k);
        MoveToFront(node, k);
      }
    }

    method Delete(value: T) returns (deleted: bool)
      requires Valid()
      modifies this, repr
      ensures Valid() && deleted == (value in old(Contents())) && Contents() == Without(old(Contents()), value)
      ensures repr == old(repr)
    {
      IndexedDistinct(nodes, index);
      deleted := value in index;
      if deleted {
        var node := index[value];
        ghost var k :| 0 <= k < |nodes| && nodes[k] == node;
        Removed(nodes, index, k);
        Remove(node, k);
      }
    }

    method Remove(node: Node<T>, ghost k: nat)
      requires Valid() && k < |nodes| && nodes[k] == node
      requires Indexed(RemoveAt(nodes, k), index - {node.value})
      modifies this, repr
      ensures Valid() && nodes == RemoveAt(old(nodes), k) && repr == old(repr)
    {
      Unlink(node, k);
      index := index - {node.value};
    }

    method Clear()
      requires Valid()
      modifies this
      ensures Valid() && Contents() == [] && repr == old(repr)
    {
      index, head, tail, nodes := map[], null, null, [];
    }

    method Size() returns (size: nat)
      requires Valid()
      ensures size == |Contents()| && Fits(size, maxSize)
    {
      IndexedSize(nodes, index);
      size := |index|;
    }

    /** `toArray`, walking the list from the head. */
    method ToArray() returns (values: seq<T>)
      requires Valid()
      ensures values == Contents() && Distinct(values)
    {
      IndexedDistinct(nodes, index);
      values := [];
      var current := head;
      ghost var i := 0;
      while current != null
        invariant 0 <= i <= |nodes|
        invariant current == if i == |nodes| then null else nodes[i]
        invariant values == Values(nodes)[..i]
        decreases |nodes| - i
      {
        values := values + [current.value];
        current := current.next;
        i := i + 1;
      }
    }
  }

  /** Taking out one node, from the list and the map, is a deletion of its value. */
  lemma Removed<T>(nodes: seq<Node<T>>, index: map<T, Node<T>>, k: nat)
    requires Indexed(nodes, index) && k < |nodes|
    ensures Indexed(RemoveAt(nodes, k), index - {nodes[k].value})
    ensures Values(RemoveAt(nodes, k)) == Without(Values(nodes), nodes[k].value)
  {
    IndexedWithout(nodes, index, k);
    IndexedDistinct(nodes, index);
    assert Values(nodes)[k] == nodes[k].value;
    WithoutAt(Values(nodes), k);
  }

  lemma Evicted<T>(nodes: seq<Node<T>>, index: map<T, Node<T>>, maxSize: nat)
    requires Indexed(nodes, index) && |nodes| == maxSize + 1
    ensures Indexed(RemoveAt(nodes, maxSize), index - {nodes[maxSize].value})
    ensures Values(RemoveAt(nodes, maxSize)) == Values(nodes)[..maxSize]
  {
    IndexedWithout(nodes, index, maxSize);
  }

  lemma HeadIsFirst<T>(nodes: seq<Node<T>>, k: nat)
    requires Distinct(nodes) && k < |nodes| && nodes[k] == nodes[0]
    ensures nodes == [nodes[k]] + RemoveAt(nodes, k)
  {
    assert k == 0;
  }

  lemma NotInRest<T>(nodes: seq<Node<T>>, k: nat)
    requires Distinct(nodes) && k < |nodes|
    ensures forall i :: 0 <= i < |RemoveAt(nodes, k)| ==> RemoveAt(nodes, k)[i] != nodes[k]
  {
    forall i | 0 <= i < |RemoveAt(nodes, k)| ensures RemoveAt(nodes, k)[i] != nodes[k] {
      assert RemoveAt(nodes, k)[i] == nodes[if i < k then i else i + 1];
    }
  }

  /** Moving a node to the front leaves the map right. */
  lemma MovedIsIndexed<T>(nodes: seq<Node<T>>, index: map<T, Node<T>>, k: nat)
    requires Indexed(nodes, index) && k < |nodes|
    ensures Indexed([nodes[k]] + RemoveAt(nodes, k), index)
  {
    var v := nodes[k].value;
    IndexedWithout(nodes, index, k);
    IndexedFront(RemoveAt(nodes, k), index - {v}, nodes[k]);
    assert index == (index - {v})[v := nodes[k]];
  }

  /** ... and is a touch of its value. */
  lemma MovedValues<T>(nodes: seq<Node<T>>, k: nat)
    requires k < |nodes| && Distinct(Values(nodes))
    ensures Values([nodes[k]] + RemoveAt(nodes, k)) == Touch(Values(nodes), nodes[k].value)
  {
    var old', new' := Values(nodes), Values([nodes[k]] + RemoveAt(nodes, k));
    WithoutAt(old', k);
    assert old'[k] == nodes[k].value && old'[k] in old';
    forall i | 0 <= i < |new'| ensures new'[i] == ([old'[k]] + RemoveAt(old', k))[i] {
    }
    assert new' == [old'[k]] + RemoveAt(old', k);
  }

  lemma FrontReorders<T>(s: seq<T>, k: nat, r: seq<T>)
    requires Distinct(s) && k < |s| && r == [s[k]] + RemoveAt(s, k)
    ensures Distinct(r) && forall x :: x in r <==> x in s
  {
    forall x | x in r ensures x in s {
      var i :| 0 <= i < |r| && r[i] == x;
      assert x == s[if i == 0 then k else if i <= k then i - 1 else i];
    }
    forall x | x in s ensures x in r {
      var i :| 0 <= i < |s| && s[i] == x;
      assert x == r[if i == k then 0 else if i < k then i + 1 else i];
    }
    forall i, j | 0 <= i < j < |r| ensures r[i] != r[j] {
      assert r[i] == s[if i == 0 then k else if i <= k then i - 1 else i];
      assert r[j] == s[if j <= k then j - 1 else j];
    }
  }

  /** Touching a member reorders, and only reorders. */
  lemma TouchReorders<T>(s: seq<T>, v: T)
    requires Distinct(s) && v in s
    ensures var r := Touch(s, v);
            |r| == |s| && r[0] == v && Distinct(r) && forall x :: x in r <==> x in s
  {
    var k :| 0 <= k < |s| && s[k] == v;
    WithoutAt(s, k);
    var r := [v] + RemoveAt(s, k);
    assert |r| == |s|;
    FrontReorders(s, k, r);
  }

  /** Adding keeps the set duplicate-free and within its size, makes the value the most recent, and
      evicts only the least recently used value, only when the integer part of the size is reached. */
  lemma InsertEvictsOldest<T>(s: seq<T>, v: T, c: Capacity)
    requires Distinct(s) && Fits(|s|, c) && Fits(1, c)
    ensures var r := Insert(s, v, c);
            && Distinct(r) && Fits(|r|, c) && r[0] == v
            && (c.Finite? ==> |r| <= c.size.Floor)
            && (v in s || Fits(|s| + 1, c) ==> forall x :: x in r <==> x in s || x == v)
            && (v !in s && !Fits(|s| + 1, c) ==>
                  |s| == c.size.Floor && r == [v] + s[..|s| - 1] && s[|s| - 1] !in r)
  {
    if v in s {
      TouchReorders(s, v);
    } else if !Fits(|s| + 1, c) {
      assert Insert(s, v, c) == [v] + s[..|s| - 1];
    }
  }
}
