/** The LRU container on the heap: a map into a doubly linked list between two sentinels. */
module LruContainer {
  import opened LruSpec
  import opened Options

  class Node<K, V> {
    var key: K
    var val: V
    var prev: Node?<K, V>
    var next: Node?<K, V>

    constructor (key: K, val: V)
      ensures this.key == key && this.val == val && prev == null && next == null
    {
      this.key, this.val, prev, next := key, val, null, null;
    }
  }

  /** `nodes` are linked both ways, from one end to the other. */
  ghost predicate Chain<K, V>(nodes: seq<Node<K, V>>)
    reads nodes`prev, nodes`next
  {
    && |nodes| >= 2
    && nodes[0].prev == null && nodes[|nodes| - 1].next == null
    && (forall i {:trigger nodes[i].next} :: 0 <= i < |nodes| - 1 ==> nodes[i].next == nodes[i + 1])
    && (forall i {:trigger nodes[i].prev} :: 1 <= i < |nodes| ==> nodes[i].prev == nodes[i - 1])
  }

  /** No node occurs twice: following `prev` from two equal nodes would reach the head early. */
  lemma {:induction false} ChainDistinct<K, V>(nodes: seq<Node<K, V>>, i: nat, j: nat)
    requires Chain(nodes) && i < j < |nodes|
    ensures nodes[i] != nodes[j]
  {
    assert nodes[j].prev == nodes[j - 1];
    if i > 0 {
      ChainDistinct(nodes, i - 1, j - 1);
      assert nodes[i].prev == nodes[i - 1];
    }
  }

  lemma OnlyAt<K, V>(nodes: seq<Node<K, V>>, i: nat)
    requires Chain(nodes) && i < |nodes|
    ensures forall j :: 0 <= j < |nodes| && j != i ==> nodes[j] != nodes[i]
  {
    forall j | 0 <= j < |nodes| && j != i ensures nodes[j] != nodes[i] {
      if i < j { ChainDistinct(nodes, i, j); } else { ChainDistinct(nodes, j, i); }
    }
  }

  // ----- pointer surgery -----

  method RemoveNode<K, V>(existing: Node<K, V>, ghost nodes: seq<Node<K, V>>, ghost i: nat)
    requires Chain(nodes) && 1 <= i < |nodes| - 1 && nodes[i] == existing
    modifies existing.prev`next, existing.next`prev
    ensures Chain(Without(nodes, i))
  {
    var prev, next := existing.prev, existing.next;
    OnlyAt(nodes, i - 1);
    OnlyAt(nodes, i);
    OnlyAt(nodes, i + 1);
    prev.next, next.prev := next, prev;
  }

  /** The chain with one more node before its last. */
  ghost function Linked<T>(nodes: seq<T>, n: T): (r: seq<T>)
    requires nodes != []
    ensures |r| == |nodes| + 1
    ensures forall j {:trigger r[j]} :: 0 <= j < |r| ==>
              r[j] == if j < |nodes| - 1 then nodes[j] else if j == |nodes| - 1 then n else nodes[|nodes| - 1]
  {
    seq(|nodes| + 1, j requires 0 <= j < |nodes| + 1 =>
      if j < |nodes| - 1 then nodes[j] else if j == |nodes| - 1 then n else nodes[|nodes| - 1])
  }

  method AddToTail<K, V>(fakeTail: Node<K, V>, newNode: Node<K, V>, ghost nodes: seq<Node<K, V>>)
    requires Chain(nodes) && fakeTail == nodes[|nodes| - 1] && newNode !in nodes
    modifies fakeTail.prev`next, fakeTail`prev, newNode`prev, newNode`next
    ensures Chain(Linked(nodes, newNode))
  {
    OnlyAt(nodes, |nodes| - 1);
    OnlyAt(nodes, |nodes| - 2);
    fakeTail.prev.next := newNode;
    newNode.prev, fakeTail.prev := fakeTail.prev, newNode;
    newNode.next := fakeTail;
  }

  method MoveToTail<K, V>(fakeTail: Node<K, V>, existing: Node<K, V>, ghost nodes: seq<Node<K, V>>, ghost i: nat)
    requires Chain(nodes) && fakeTail == nodes[|nodes| - 1] && 1 <= i < |nodes| - 1 && nodes[i] == existing
    modifies nodes`prev, nodes`next
    ensures Chain(Linked(Without(nodes, i), existing))
  {
    OnlyAt(nodes, i);
    RemoveNode(existing, nodes, i);
    AddToTail(fakeTail, existing, Without(nodes, i));
  }

  // ----- the map as an index into the list -----

  /** The inner nodes spell out the entries. */
  ghost predicate Spelled<K, V>(nodes: seq<Node<K, V>>, order: seq<Entry<K, V>>)
    reads nodes`key, nodes`val
  {
    && |nodes| == |order| + 2
    && forall i :: 0 <= i < |order| ==> order[i] == Entry(nodes[i + 1].key, nodes[i + 1].val)
  }

  lemma SpelledWithout<K, V>(nodes: seq<Node<K, V>>, order: seq<Entry<K, V>>, i: nat)
    requires Spelled(nodes, order) && i < |order|
    ensures Spelled(Without(nodes, i + 1), Without(order, i))
  {
  }

  lemma SpelledAppend<K, V>(nodes: seq<Node<K, V>>, order: seq<Entry<K, V>>, n: Node<K, V>, e: Entry<K, V>)
    requires Spelled(nodes, order) && e == Entry(n.key, n.val)
    ensures Spelled(Linked(nodes, n), order + [e])
  {
  }

  /** The map sends exactly the listed keys to the nodes that hold them. */
  ghost predicate Indexed<K(!new), V>(vals: map<K, Node<K, V>>, nodes: seq<Node<K, V>>, order: seq<Entry<K, V>>) {
    && |nodes| == |order| + 2
    && (forall k :: k in vals <==> Find(order, k) >= 0)
    && (forall k :: k in vals ==> vals[k] == nodes[Find(order, k) + 1])
  }

  lemma IndexedWithout<K(!new), V>(vals: map<K, Node<K, V>>, nodes: seq<Node<K, V>>, order: seq<Entry<K, V>>, i: nat)
    requires Distinct(order) && Indexed(vals, nodes, order) && i < |order|
    ensures Indexed(vals - {order[i].key}, Without(nodes, i + 1), Without(order, i))
  {
    var vals', nodes', order' := vals - {order[i].key}, Without(nodes, i + 1), Without(order, i);
    forall k ensures k in vals' <==> Find(order', k) >= 0 {
      FindWithout(order, i, k);
    }
    forall k | k in vals' ensures vals'[k] == nodes'[Find(order', k) + 1] {
      FindWithout(order, i, k);
    }
  }

  lemma IndexedAppend<K(!new), V>(vals: map<K, Node<K, V>>, nodes: seq<Node<K, V>>, order: seq<Entry<K, V>>,
                                  n: Node<K, V>, e: Entry<K, V>)
    requires Distinct(order) && Indexed(vals, nodes, order) && Find(order, e.key) < 0
    ensures Indexed(vals[e.key := n], Linked(nodes, n), order + [e])
  {
    var vals', nodes', order' := vals[e.key := n], Linked(nodes, n), order + [e];
    forall k ensures k in vals' <==> Find(order', k) >= 0 {
      FindAppend(order, e, k);
    }
    forall k | k in vals' ensures vals'[k] == nodes'[Find(order', k) + 1] {
      FindAppend(order, e, k);
    }
  }

  /** The three views of the contents agree: list, map, entries. */
  ghost predicate Agree<K(!new), V>(vals: map<K, Node<K, V>>, nodes: seq<Node<K, V>>, order: seq<Entry<K, V>>)
    reads nodes`key, nodes`val
  {
    Spelled(nodes, order) && Distinct(order) && Indexed(vals, nodes, order)
  }

  lemma AgreeWithout<K(!new), V>(vals: map<K, Node<K, V>>, nodes: seq<Node<K, V>>, order: seq<Entry<K, V>>, i: nat)
    requires Agree(vals, nodes, order) && i < |order|
    ensures Agree(vals - {order[i].key}, Without(nodes, i + 1), Without(order, i))
    ensures Find(Without(order, i), order[i].key) < 0
  {
    SpelledWithout(nodes, order, i);
    DistinctWithout(order, i);
    IndexedWithout(vals, nodes, order, i);
  }

  lemma AgreeAppend<K(!new), V>(vals: map<K, Node<K, V>>, nodes: seq<Node<K, V>>, order: seq<Entry<K, V>>,
                                n: Node<K, V>, e: Entry<K, V>)
    requires Agree(vals, nodes, order) && e == Entry(n.key, n.val) && Find(order, e.key) < 0
    ensures Agree(vals[e.key := n], Linked(nodes, n), order + [e])
  {
    SpelledAppend(nodes, order, n, e);
    DistinctAppend(order, e);
    IndexedAppend(vals, nodes, order, n, e);
  }

  lemma AgreeMoved<K(!new), V>(vals: map<K, Node<K, V>>, nodes: seq<Node<K, V>>, order: seq<Entry<K, V>>, i: nat)
    requires Agree(vals, nodes, order) && i < |order|
    ensures Agree(vals, Linked(Without(nodes, i + 1), nodes[i + 1]), Without(order, i) + [order[i]])
  {
    var e, n := order[i], nodes[i + 1];
    AgreeWithout(vals, nodes, order, i);
    AgreeAppend(vals - {e.key}, Without(nodes, i + 1), Without(order, i), n, e);
    assert Find(order, e.key) == i;
    assert (vals - {e.key})[e.key := n] == vals;
  }

  lemma SameMembers<T>(s: seq<T>, i: nat)
    requires i < |s| - 1
    ensures forall x :: x in Linked(Without(s, i), s[i]) ==> x in s
  {
  }

  /** The state after making room, and what `Put` makes of it. */
  lemma RoomThenAppend<K, V>(repair: bool, s: Lru<K, V>, key: K, val: V, len: int, order: seq<Entry<K, V>>)
    requires Live(s, key) || s.len != s.cap || s.order != []
    requires var i := Find(s.order, key);
             if i >= 0 then order == Without(s.order, i) && len == s.len - (if repair then 1 else 0)
             else if s.len == s.cap then order == Without(s.order, 0) && len == s.len - 1
             else order == s.order && len == s.len
    ensures PutStep(repair, s, key, val) == Done(Lru(s.cap, len + 1, order + [Entry(key, val)]))
  {
  }

  class Container<K(==, 0, !new), V(0)> {
    const cap: int
    /** Is the counter decremented when `Put` overwrites?  The code as written does not. */
    const repair: bool
    var len: int
    var vals: map<K, Node<K, V>>
    const fakeHead: Node<K, V>
    const fakeTail: Node<K, V>

    ghost var nodes: seq<Node<K, V>>
    ghost var order: seq<Entry<K, V>>

    /** Map and list hold the same nodes, and the list spells out `order`. */
    ghost predicate Valid()
      reads this, nodes
    {
      && Chain(nodes) && nodes[0] == fakeHead && nodes[|nodes| - 1] == fakeTail
      && Agree(vals, nodes, order)
    }

    ghost function View(): Lru<K, V>
      reads this
    {
      Lru(cap, len, order)
    }

    constructor (cap: int, repair: bool)
      ensures Valid() && fresh(nodes) && View() == Empty(cap) && this.repair == repair
    {
      var k: K := *;
      var v: V := *;
      var head := new Node(k, v);
      var tail := new Node(k, v);
      head.next, tail.prev := tail, head;
      this.cap, this.repair, len, vals := cap, repair, 0, map[];
      fakeHead, fakeTail := head, tail;
      nodes, order := [head, tail], [];
    }

    /** Make one node the most recent. */
    method Refresh(existing: Node<K, V>, ghost i: nat)
      requires Valid() && i < |order| && nodes[i + 1] == existing
      modifies this`nodes, this`order, nodes`prev, nodes`next
      ensures Valid() && order == Without(old(order), i) + [old(order)[i]]
      ensures nodes == Linked(Without(old(nodes), i + 1), existing)
    {
      ghost var before, after := nodes, Linked(Without(nodes, i + 1), existing);
      AgreeMoved(vals, nodes, order, i);
      MoveToTail(fakeTail, existing, before, i + 1);
      nodes, order := after, Without(order, i) + [order[i]];
    }

    method Get(key: K) returns (r: Option<V>)
      requires Valid()
      modifies this, nodes
      ensures Valid() && forall n :: n in nodes ==> n in old(nodes)
      ensures View() == GetStep(old(View()), key)
      ensures r.Some? <==> Live(old(View()), key)
      ensures r.Some? ==> old(order)[Find(old(order), key)] == Entry(key, r.value)
    {
      if key !in vals { return None; }
      var v := vals[key];
      SameMembers(nodes, Find(order, key) + 1);
      Refresh(v, Find(order, key));
      return Some(v.val);
    }

    /** Take one node out of map and list. */
    method Drop(existing: Node<K, V>, ghost i: nat)
      requires Valid() && i < |order| && nodes[i + 1] == existing
      modifies this`vals, this`nodes, this`order, nodes`prev, nodes`next
      ensures Valid() && nodes == Without(old(nodes), i + 1) && order == Without(old(order), i)
      ensures Find(order, existing.key) < 0 && forall n :: n in nodes ==> n in old(nodes)
    {
      AgreeWithout(vals, nodes, order, i);
      vals := vals - {existing.key};
      RemoveNode(existing, nodes, i + 1);
      nodes, order := Without(nodes, i + 1), Without(order, i);
    }

    /** Enter a node under its key and append it to the list. */
    method Link(newNode: Node<K, V>)
      requires Valid() && newNode !in nodes && Find(order, newNode.key) < 0
      modifies this`vals, this`nodes, this`order
      modifies fakeTail.prev`next, fakeTail`prev, newNode`prev, newNode`next
      ensures Valid() && nodes == Linked(old(nodes), newNode)
      ensures order == old(order) + [Entry(newNode.key, newNode.val)]
      ensures forall n :: n in nodes ==> n in old(nodes) || n == newNode
    {
      AgreeAppend(vals, nodes, order, newNode, Entry(newNode.key, newNode.val));
      vals := vals[newNode.key := newNode];
      AddToTail(fakeTail, newNode, nodes);
      nodes, order := Linked(nodes, newNode), order + [Entry(newNode.key, newNode.val)];
    }

    /** The removals before an insertion.  Panics exactly when it must evict from an empty list:
        `fakeHead.next` is then the tail sentinel, which has no successor to relink. */
    method MakeRoom(key: K) returns (panicked: bool)
      requires Valid()
      modifies this`len, this`vals, this`nodes, this`order, nodes`prev, nodes`next
      ensures panicked <==> !Live(old(View()), key) && old(len) == cap && old(order) == []
      ensures !panicked ==> Valid() && Find(order, key) < 0 && forall n :: n in nodes ==> n in old(nodes)
      ensures !panicked ==> fakeTail in old(nodes) && fakeTail.prev != null && fakeTail.prev in old(nodes)
      ensures !panicked ==>
                var i := Find(old(order), key);
                if i >= 0 then order == Without(old(order), i) && len == old(len) - (if repair then 1 else 0)
                else if old(len) == cap then order == Without(old(order), 0) && len == old(len) - 1
                else order == old(order) && len == old(len)
    {
      if key in vals {
        Drop(vals[key], Find(order, key));
        if repair { len := len - 1; }
      } else if len == cap {
        var excess := fakeHead.next;
        if excess.next == null { return true; }
        Drop(excess, 0);
        len := len - 1;
      }
      assert fakeTail.prev == nodes[|nodes| - 2] && nodes[|nodes| - 2] in nodes && fakeTail in nodes;
      return false;
    }

    method Put(key: K, val: V) returns (panicked: bool)
      requires Valid()
      modifies this, nodes
      ensures panicked <==> PutStep(repair, old(View()), key, val).Panic?
      ensures !panicked ==> Valid() && PutStep(repair, old(View()), key, val) == Done(View())
      ensures !panicked ==> forall n :: n in nodes ==> n in old(nodes) || fresh(n)
    {
      var newNode := new Node(key, val);
      panicked := MakeRoom(key);
      if !panicked {
        RoomThenAppend(repair, old(View()), key, val, len, order);
        Link(newNode);
        len := len + 1;
      }
    }

    method Delete(key: K) returns (found: bool)
      requires Valid()
      modifies this, nodes
      ensures Valid() && forall n :: n in nodes ==> n in old(nodes)
      ensures View() == DeleteStep(old(View()), key)
      ensures found == Live(old(View()), key) && !Live(View(), key)
    {
      if key !in vals { return false; }
      Drop(vals[key], Find(order, key));
      len := len - 1;
      return true;
    }
  }

  /** `New`: no container for a capacity below one. */
  method New<K(==, 0, !new), V(0)>(cap: int, repair: bool) returns (c: Container?<K, V>)
    ensures c == null <==> cap < 1
    ensures c != null ==> fresh(c) && c.Valid() && fresh(c.nodes) && c.View() == Empty(cap) && c.repair == repair
  {
    if cap < 1 { return null; }
    c := new Container(cap, repair);
  }
}
