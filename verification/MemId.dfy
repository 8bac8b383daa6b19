/** The list of memory allocators and the ids they get: nm_mem_assign_id and nm_mem_release_id. */
module MemId {
  import opened Ring

  /** struct netmap_mem_d, as far as the list goes. */
  class Node {
    var id: nat
    var prev: Node?
    var next: Node?
    constructor ()
      ensures prev == null && next == null && id == 0
    {
      id, prev, next := 0, null, null;
    }
  }

  const MAX_ID: nat := 0xFFFF

  /** The id after this one in 16 bits, without 0. */
  function Succ(id: nat): nat {
    if id == MAX_ID then 1 else id + 1
  }

  /** The nodes are different. */
  ghost predicate Distinct(nodes: seq<Node>) {
    forall i, j {:trigger nodes[i], nodes[j]} :: 0 <= i < j < |nodes| ==> nodes[i] != nodes[j]
  }

  /** Following next from nodes[0] gives all nodes in this order, and then nodes[0] again. */
  ghost predicate Forward(nodes: seq<Node>)
    reads nodes`next
  {
    forall i {:trigger nodes[i].next} :: 0 <= i < |nodes| ==>
      nodes[i].next == if i + 1 == |nodes| then nodes[0] else nodes[i + 1]
  }

  /** Following prev gives them in the opposite order. */
  ghost predicate Backward(nodes: seq<Node>)
    reads nodes`prev
  {
    forall i {:trigger nodes[i].prev} :: 0 <= i < |nodes| ==>
      nodes[i].prev == if i == 0 then nodes[|nodes| - 1] else nodes[i - 1]
  }

  /** Ids of 16 bits, not zero, in increasing order. */
  ghost predicate Ordered(nodes: seq<Node>)
    reads nodes`id
  {
    && (forall i {:trigger nodes[i].id} :: 0 <= i < |nodes| ==> 0 < nodes[i].id <= MAX_ID)
    && (forall i, j {:trigger nodes[i].id, nodes[j].id} :: 0 <= i < j < |nodes| ==> nodes[i].id < nodes[j].id)
  }

  /** The list with x put at place p. */
  ghost function Placed(nodes: seq<Node>, p: nat, x: Node): (r: seq<Node>)
    requires p <= |nodes|
    ensures |r| == |nodes| + 1 && r[p] == x
    ensures forall i {:trigger r[i]} :: 0 <= i < p ==> r[i] == nodes[i]
    ensures forall i {:trigger r[i]} :: p < i < |r| ==> r[i] == nodes[i - 1]
  {
    nodes[..p] + [x] + nodes[p..]
  }

  lemma PlacedDistinct(nodes: seq<Node>, p: nat, x: Node)
    requires p <= |nodes| && Distinct(nodes) && x !in nodes
    ensures Distinct(Placed(nodes, p, x))
  {
  }

  lemma PlacedOrdered(nodes: seq<Node>, p: nat, x: Node)
    requires p <= |nodes| && Ordered(nodes) && 0 < x.id <= MAX_ID
    requires (p > 0 ==> nodes[p - 1].id < x.id) && (p < |nodes| ==> x.id < nodes[p].id)
    ensures Ordered(Placed(nodes, p, x))
  {
    var r := Placed(nodes, p, x);
    forall i, j | 0 <= i < j < |r| ensures r[i].id < r[j].id {
      if i < p { assert r[i] == nodes[i] && nodes[i].id <= nodes[p - 1].id; }
      if j > p { assert r[j] == nodes[j - 1] && nodes[p].id <= nodes[j - 1].id; }
    }
  }

  /** The next links around a new node x between b and s. */
  method LinkNext(x: Node, b: Node, s: Node, ghost nodes: seq<Node>, ghost p: nat)
    requires Distinct(nodes) && Forward(nodes) && x !in nodes && 0 < |nodes| && p <= |nodes|
    requires b == nodes[if p == 0 then |nodes| - 1 else p - 1] && s == nodes[if p == |nodes| then 0 else p]
    modifies x`next, b`next
    ensures Forward(Placed(nodes, p, x))
  {
    x.next := s;
    b.next := x;
    ghost var r := Placed(nodes, p, x);
    forall i | 0 <= i < |r| ensures r[i].next == if i + 1 == |r| then r[0] else r[i + 1] {
      if i < p { assert nodes[i] == b || nodes[i].next == old(nodes[i].next); }
      if i > p { assert nodes[i - 1] == b || nodes[i - 1].next == old(nodes[i - 1].next); }
    }
  }

  /** The prev links. */
  method LinkPrev(x: Node, b: Node, s: Node, ghost nodes: seq<Node>, ghost p: nat)
    requires Distinct(nodes) && Backward(nodes) && x !in nodes && 0 < |nodes| && p <= |nodes|
    requires b == nodes[if p == 0 then |nodes| - 1 else p - 1] && s == nodes[if p == |nodes| then 0 else p]
    modifies x`prev, s`prev
    ensures Backward(Placed(nodes, p, x))
  {
    x.prev := b;
    s.prev := x;
    ghost var r := Placed(nodes, p, x);
    forall i | 0 <= i < |r| ensures r[i].prev == if i == 0 then r[|r| - 1] else r[i - 1] {
      if i < p { assert nodes[i] == s || nodes[i].prev == old(nodes[i].prev); }
      if i > p { assert nodes[i - 1] == s || nodes[i - 1].prev == old(nodes[i - 1].prev); }
    }
  }

  /** The place of the node after that at i, around the circle. */
  function After(i: nat, m: nat): (j: nat)
    requires i < m
    ensures j < m
  {
    if i + 1 == m then 0 else i + 1
  }

  /** No id is free between the nodes at i and after it. */
  ghost predicate NoGap(nodes: seq<Node>, i: nat)
    requires i < |nodes|
    reads nodes`id
  {
    Succ(nodes[i].id) == nodes[After(i, |nodes|)].id
  }

  ghost predicate Packed(nodes: seq<Node>)
    reads nodes`id
  {
    forall i {:trigger NoGap(nodes, i)} :: 0 <= i < |nodes| ==> NoGap(nodes, i)
  }

  lemma {:induction false} OrderedIds(nodes: seq<Node>, i: nat)
    requires Ordered(nodes) && i < |nodes|
    ensures i < nodes[i].id
  {
    if i > 0 {
      OrderedIds(nodes, i - 1);
      assert nodes[i - 1].id < nodes[i].id;
    }
  }

  lemma {:induction false} Consecutive(nodes: seq<Node>, i: nat)
    requires Ordered(nodes) && i < |nodes| && Packed(nodes)
    ensures nodes[i].id == i + 1
  {
    if i > 0 {
      Consecutive(nodes, i - 1);
      assert NoGap(nodes, i - 1) && nodes[i].id == nodes[After(i - 1, |nodes|)].id;
    } else {
      assert NoGap(nodes, |nodes| - 1) && nodes[0].id == nodes[After(|nodes| - 1, |nodes|)].id;
    }
  }

  /** Without gaps, all ids are taken. */
  lemma NoGapsMeansFull(nodes: seq<Node>)
    requires Ordered(nodes) && 0 < |nodes| && Packed(nodes)
    ensures |nodes| == MAX_ID
  {
    Consecutive(nodes, |nodes| - 1);
    Consecutive(nodes, 0);
    assert NoGap(nodes, |nodes| - 1) && nodes[0].id == nodes[After(|nodes| - 1, |nodes|)].id;
  }

  /** A doubly linked circle of different nodes in the order of their ids. */
  ghost predicate List(nodes: seq<Node>)
    reads nodes
  {
    Distinct(nodes) && Forward(nodes) && Backward(nodes) && Ordered(nodes)
  }

  /** Link x with a free id between the node before scan and scan. */
  method Insert(x: Node, scan: Node, id: nat, ghost nodes: seq<Node>, ghost p: nat)
    requires List(nodes) && x !in nodes && p <= |nodes| && 0 < |nodes| && scan == nodes[if p == |nodes| then 0 else p]
    requires 0 < id <= MAX_ID && (p > 0 ==> nodes[p - 1].id < id) && (p < |nodes| ==> id < nodes[p].id)
    modifies x, nodes`next, nodes`prev
    ensures x.id == id && List(Placed(nodes, p, x))
  {
    ghost var r := Placed(nodes, p, x);
    var b := scan.prev;
    assert b == nodes[if p == 0 then |nodes| - 1 else p - 1];
    x.id := id;
    PlacedDistinct(nodes, p, x);
    PlacedOrdered(nodes, p, x);
    assert Ordered(r) && Forward(nodes) && Backward(nodes);
    LinkNext(x, b, scan, nodes, p);
    assert Ordered(r) && Forward(r) && Backward(nodes);
    LinkPrev(x, b, scan, nodes, p);
  }

  /** The list without the node at place p. */
  ghost function Removed(nodes: seq<Node>, p: nat): (r: seq<Node>)
    requires p < |nodes|
    ensures |r| == |nodes| - 1
    ensures forall i {:trigger r[i]} :: 0 <= i < |r| ==> r[i] == if i < p then nodes[i] else nodes[i + 1]
  {
    nodes[..p] + nodes[p + 1..]
  }

  method UnlinkNext(x: Node, b: Node, s: Node, ghost nodes: seq<Node>, ghost p: nat)
    requires Distinct(nodes) && Forward(nodes) && 2 <= |nodes| && p < |nodes| && x == nodes[p]
    requires b == nodes[if p == 0 then |nodes| - 1 else p - 1] && s == nodes[if p + 1 == |nodes| then 0 else p + 1]
    modifies x`next, b`next
    ensures Forward(Removed(nodes, p)) && x.next == null
  {
    b.next := s;
    x.next := null;
    ghost var r := Removed(nodes, p);
    forall i | 0 <= i < |r| ensures r[i].next == if i + 1 == |r| then r[0] else r[i + 1] {
      if i < p { assert nodes[i] == b || nodes[i].next == old(nodes[i].next); }
      if i >= p { assert nodes[i + 1] == b || nodes[i + 1].next == old(nodes[i + 1].next); }
    }
  }

  method UnlinkPrev(x: Node, b: Node, s: Node, ghost nodes: seq<Node>, ghost p: nat)
    requires Distinct(nodes) && Backward(nodes) && 2 <= |nodes| && p < |nodes| && x == nodes[p]
    requires b == nodes[if p == 0 then |nodes| - 1 else p - 1] && s == nodes[if p + 1 == |nodes| then 0 else p + 1]
    modifies x`prev, s`prev
    ensures Backward(Removed(nodes, p)) && x.prev == null
  {
    s.prev := b;
    x.prev := null;
    ghost var r := Removed(nodes, p);
    forall i | 0 <= i < |r| ensures r[i].prev == if i == 0 then r[|r| - 1] else r[i - 1] {
      if i < p { assert nodes[i] == s || nodes[i].prev == old(nodes[i].prev); }
      if i >= p { assert nodes[i + 1] == s || nodes[i + 1].prev == old(nodes[i + 1].prev); }
    }
  }

  lemma RemovedKeeps(nodes: seq<Node>, p: nat)
    requires p < |nodes| && Distinct(nodes) && Ordered(nodes)
    ensures Distinct(Removed(nodes, p)) && Ordered(Removed(nodes, p)) && nodes[p] !in Removed(nodes, p)
    ensures forall i :: 0 <= i < |nodes| && i != p ==> nodes[i] in Removed(nodes, p)
  {
    var r := Removed(nodes, p);
    forall i | 0 <= i < |nodes| && i != p ensures nodes[i] in r {
      assert r[if i < p then i else i - 1] == nodes[i];
    }
  }

  method Unlink(x: Node, ghost nodes: seq<Node>, ghost p: nat)
    requires List(nodes) && 2 <= |nodes| && p < |nodes| && x == nodes[p]
    modifies nodes`next, nodes`prev
    ensures List(Removed(nodes, p)) && x.prev == null && x.next == null && x !in Removed(nodes, p)
    ensures forall i :: 0 <= i < |nodes| && i != p ==> nodes[i] in Removed(nodes, p)
  {
    ghost var r := Removed(nodes, p);
    var b, s := x.prev, x.next;
    RemovedKeeps(nodes, p);
    assert b == nodes[if p == 0 then |nodes| - 1 else p - 1] && s == nodes[if p + 1 == |nodes| then 0 else p + 1];
    UnlinkNext(x, b, s, nodes, p);
    assert Ordered(r) && Forward(r) && Backward(nodes);
    UnlinkPrev(x, b, s, nodes, p);
  }

  lemma IdsDiffer(nodes: seq<Node>, p: nat, x: Node)
    requires p <= |nodes| && Ordered(Placed(nodes, p, x))
    ensures forall n: Node :: n in nodes ==> n.id != x.id
  {
    var r := Placed(nodes, p, x);
    forall i | 0 <= i < |nodes| ensures nodes[i].id != x.id {
      assert r[p].id == x.id && r[if i < p then i else i + 1] == nodes[i];
    }
  }

  class Allocators {
    /** netmap_last_mem_d */
    var last: Node
    /** The list, from the smallest id on. */
    ghost var nodes: seq<Node>

    ghost predicate Valid()
      reads this, nodes
    {
      last in nodes && List(nodes) == true
    }

    /** The global allocator is alone at first, with id 1. */
    constructor (global: Node)
      modifies global
      ensures Valid() && nodes == [global] && last == global
    {
      last, nodes := global, [global];
      new;
      global.id, global.prev, global.next := 1, global, global;
    }

    /** Look around the circle for a node with a free id after it. */
    method FindGap() returns (found: bool, scan: Node, id: nat, ghost p: nat)
      requires Valid()
      ensures found ==> && p <= |nodes| && scan == nodes[if p == |nodes| then 0 else p] && 0 < id <= MAX_ID
                        && (p > 0 ==> nodes[p - 1].id < id) && (p < |nodes| ==> id < nodes[p].id)
      ensures !found ==> Packed(nodes)
    {
      ghost var m := |nodes|;
      ghost var k :| 0 <= k < m && nodes[k] == last;
      ghost var j: nat, seen: nat := k, 0;
      scan, p := last, 0;
      found := true;
      while true
        invariant j < m && scan == nodes[j] && seen < m && Dist(k, j, m) == seen
        invariant forall i {:trigger NoGap(nodes, i)} :: 0 <= i < m && Dist(k, i, m) < seen ==> NoGap(nodes, i)
        decreases m - seen
      {
        id := if scan.id == MAX_ID then 1 else scan.id + 1;
        scan := scan.next;
        if id != scan.id {
          p := if j + 1 == m && id == 1 then 0 else j + 1;
          return;
        }
        assert NoGap(nodes, j);
        j, seen := After(j, m), seen + 1;
        if scan == last {
          assert j == k;
          assert forall i :: 0 <= i < m ==> NoGap(nodes, i);
          found := false;
          return;
        }
      }
    }

    /** nm_mem_assign_id: fails exactly when all ids are taken, and otherwise gives x a free one. */
    method Assign(x: Node) returns (ok: bool)
      requires Valid() && x !in nodes
      modifies this, x, nodes`next, nodes`prev
      ensures Valid() && (ok <==> old(|nodes|) < MAX_ID)
      ensures !ok ==> nodes == old(nodes) && last == old(last)
      ensures ok ==> last == x && exists p :: 0 <= p <= |old(nodes)| && nodes == Placed(old(nodes), p, x)
      ensures ok ==> 0 < x.id <= MAX_ID && forall n: Node :: n in old(nodes) ==> n.id != x.id
    {
      var scan, id;
      ghost var p, a := 0, nodes;
      ok, scan, id, p := FindGap();
      if ok {
        Insert(x, scan, id, a, p);
        OrderedIds(Placed(a, p, x), |a|);
        IdsDiffer(a, p, x);
        nodes := Placed(a, p, x);
        last := x;
        assert nodes[p] == x;
      } else {
        NoGapsMeansFull(nodes);
      }
    }

    /** nm_mem_release_id, for an allocator other than the only one. */
    method ReleaseId(x: Node)
      requires Valid() && x in nodes && 2 <= |nodes|
      modifies this, nodes`next, nodes`prev
      ensures Valid() && x.prev == null && x.next == null && x !in nodes
      ensures exists p :: 0 <= p < |old(nodes)| && old(nodes)[p] == x && nodes == Removed(old(nodes), p)
    {
      ghost var p :| 0 <= p < |nodes| && nodes[p] == x;
      ghost var r := Removed(nodes, p);
      var b := x.prev;
      assert b == nodes[if p == 0 then |nodes| - 1 else p - 1];
      Unlink(x, nodes, p);
      if last == x {
        last := b;
      }
      nodes := r;
    }
  }
}
