/** The queue of packets from the host stack (netmap_mbq.c). */
module Mbq {

  class Mbuf {
    const data: seq<nat>
    var next: Mbuf?

    constructor (d: seq<nat>)
      ensures data == d && next == null
    {
      data, next := d, null;
    }
  }

  /** Following the links from the first packet gives all of them, in this order. */
  ghost predicate Linked(packets: seq<Mbuf>)
    reads packets`next
  {
    forall i {:trigger packets[i].next} :: 0 <= i < |packets| ==>
      packets[i].next == if i + 1 < |packets| then packets[i + 1] else null
  }

  ghost predicate Distinct(packets: seq<Mbuf>) {
    forall i, j {:trigger packets[i], packets[j]} :: 0 <= i < j < |packets| ==> packets[i] != packets[j]
  }

  class Queue {
    var head: Mbuf?
    var tail: Mbuf?
    var count: nat
    /** The packets in the queue, oldest first. */
    ghost var packets: seq<Mbuf>

    ghost predicate Valid()
      reads this, packets`next
    {
      && count == |packets| && Distinct(packets) && Linked(packets)
      && (if packets == [] then head == null && tail == null
          else head == packets[0] && tail == packets[|packets| - 1])
    }

    constructor ()
      ensures Valid() && packets == []
    {
      head, tail, count, packets := null, null, 0, [];
    }

    /** mbq_enqueue */
    method Enqueue(m: Mbuf)
      requires Valid() && m !in packets
      modifies this, m`next, packets`next
      ensures Valid() && packets == old(packets) + [m]
    {
      m.next := null;
      if tail != null {
        tail.next := m;
        tail := m;
      } else {
        head, tail := m, m;
      }
      count := count + 1;
      packets := packets + [m];
    }

    /** mbq_dequeue */
    method Dequeue() returns (m: Mbuf?)
      requires Valid()
      modifies this, packets`next
      ensures Valid()
      ensures old(packets) == [] ==> m == null && packets == []
      ensures old(packets) != [] ==> m == old(packets)[0] && m.next == null && packets == old(packets)[1..]
    {
      m := null;
      if head != null {
        m := head;
        head := m.next;
        if head == null {
          tail := null;
        }
        count := count - 1;
        m.next := null;
        packets := packets[1..];
      }
    }

    /** mbq_purge */
    method Purge()
      requires Valid()
      modifies this, packets`next
      ensures Valid() && packets == []
    {
      var m := Dequeue();
      while m != null
        invariant Valid() && (m == null ==> packets == [])
        invariant |packets| <= |old(packets)| && packets == old(packets)[|old(packets)| - |packets|..]
        decreases if m == null then 0 else 1 + |packets|
      {
        m := Dequeue();
      }
    }
  }
}
