/** The kernel's view of one ring (struct netmap_kring) and the part of the shared
    ring that user code can write, with the routines that run at both ends of every sync. */
module KringModel {
  import opened Ring

  /** One slot of a ring (struct netmap_slot). */
  datatype Slot = Slot(bufIdx: nat, len: nat, flags: nat)

  /** The indices h, c, t follow each other in this order when counting up from b. */
  predicate InOrder(b: nat, h: nat, c: nat, t: nat, n: nat)
    requires b < n && h < n && c < n && t < n
  {
    Dist(b, h, n) <= Dist(b, c, n) <= Dist(b, t, n)
  }

  /** A head and cur accepted between rhead and the tail are also in order from hwcur. */
  lemma OrderThroughPrologue(hwcur: nat, rhead: nat, tail: nat, head: nat, cur: nat, n: nat)
    requires hwcur < n && rhead < n && tail < n && head < n && cur < n
    requires Dist(hwcur, rhead, n) <= Dist(hwcur, tail, n)
    requires InOrder(rhead, head, cur, tail, n)
    ensures InOrder(hwcur, head, cur, tail, n)
    ensures Dist(hwcur, rhead, n) <= Dist(hwcur, head, n)
  {
  }

  class Kring {
    const n: nat
    /** nr_hwcur and nr_hwtail: trusted, written only by the kernel. */
    var hwcur: nat
    var hwtail: nat
    /** Copies of the user's head, cur and tail taken by the last sync. */
    var rhead: nat
    var rcur: nat
    var rtail: nat
    /** ring->head, ring->cur and ring->tail: the user may store anything here. */
    var head: nat
    var cur: nat
    var tail: nat

    ghost predicate InRange()
      reads this
    {
      hwcur < n && hwtail < n && rhead < n && rcur < n && rtail < n
    }

    /** hwcur <= rhead <= rcur <= rtail = hwtail: a transmit ring between syncs. */
    ghost predicate TxOrdered()
      reads this
    {
      InRange() && InOrder(hwcur, rhead, rcur, rtail, n) && rtail == hwtail
    }

    /** hwcur <= rhead <= rtail <= hwtail: a transmit ring whose user may have stored any cur. */
    ghost predicate Bounded()
      reads this
    {
      && hwcur < n && hwtail < n && rhead < n && rtail < n
      && Dist(hwcur, rhead, n) <= Dist(hwcur, rtail, n) <= Dist(hwcur, hwtail, n)
    }

    /** hwcur <= rhead <= rcur <= rtail <= hwtail: a ring between syncs. */
    ghost predicate Ordered()
      reads this
    {
      InRange() && InOrder(hwcur, rhead, rcur, rtail, n)
      && Dist(hwcur, rtail, n) <= Dist(hwcur, hwtail, n)
    }

    /** A transmit ring starts with every slot but one available to the user. */
    constructor Tx(slots: nat)
      requires 0 < slots
      ensures n == slots && TxOrdered()
      ensures hwcur == 0 && hwtail == n - 1 && rhead == head == 0 && rcur == cur == 0 && tail == rtail
    {
      n := slots;
      hwcur, rhead, rcur, head, cur := 0, 0, 0, 0, 0;
      hwtail, rtail, tail := slots - 1, slots - 1, slots - 1;
    }

    /** A receive ring starts empty. */
    constructor Rx(slots: nat)
      requires 0 < slots
      ensures n == slots && Ordered()
      ensures hwcur == hwtail == 0 && rhead == head == 0 && rcur == cur == 0 && tail == rtail == 0
    {
      n := slots;
      hwcur, rhead, rcur, head, cur := 0, 0, 0, 0, 0;
      hwtail, rtail, tail := 0, 0, 0;
    }

    /** What nm_txsync_prologue accepts, whatever the user stored: the kernel values are in
        range, head is in range, and head and cur lie in order between rhead and rtail.
        A cur beyond the ring slips through exactly when the interval wraps and head has not. */
    ghost predicate TxAccepts()
      reads this
    {
      && hwcur < n && rhead < n && rtail < n && hwtail < n && head < n
      && (if cur < n then InOrder(rhead, head, cur, rtail, n) else rtail < rhead <= head)
    }

    /** The same for nm_rxsync_prologue, whose bounds are hwcur and hwtail. */
    ghost predicate RxAccepts()
      reads this
    {
      && hwcur < n && hwtail < n && head < n
      && (if cur < n then InOrder(hwcur, head, cur, hwtail, n) else hwtail < hwcur <= head)
    }

    /** A user that has moved head by x slots from rhead, and cur by y, is accepted exactly if x <= y and the kernel
        has given it as many: every head and cur within the ring is so many slots away. */
    lemma TxAcceptsExactly(x: nat, y: nat, z: nat)
      requires hwcur < n && hwtail < n && rhead < n && x < n && y < n && z < n
      requires head == At(rhead, x, n) && cur == At(rhead, y, n) && rtail == At(rhead, z, n)
      ensures TxAccepts() <==> x <= y <= z
    {
      DistAt(rhead, x, n);
      DistAt(rhead, y, n);
      DistAt(rhead, z, n);
    }

    lemma RxAcceptsExactly(x: nat, y: nat, z: nat)
      requires hwcur < n && x < n && y < n && z < n
      requires head == At(hwcur, x, n) && cur == At(hwcur, y, n) && hwtail == At(hwcur, z, n)
      ensures RxAccepts() <==> x <= y <= z
    {
      DistAt(hwcur, x, n);
      DistAt(hwcur, y, n);
      DistAt(hwcur, z, n);
    }

    /** nm_txsync_prologue: the head to use, or a value of at least n on error. */
    method TxSyncPrologue() returns (r: nat)
      modifies this`rhead, this`rcur, this`tail
      ensures r < n <==> old(TxAccepts())
      ensures r < n ==> r == head && rhead == head && rcur == cur && tail == rtail
      ensures r >= n ==> ((rhead == old(rhead) && rcur == old(rcur) && tail == old(tail))
                       || (head >= n && rhead == head && rcur == cur))
    {
      var h, c := head, cur;
      if hwcur >= n || rhead >= n || rtail >= n || hwtail >= n {
        return n;
      }
      if rtail >= rhead {
        if h < rhead || h > rtail {
          return n;
        }
        if c < h || c > rtail {
          return n;
        }
      } else {
        if h > rtail && h < rhead {
          return n;
        }
        if h <= rtail {
          if c < h || c > rtail {
            return n;
          }
        } else {
          if c > rtail && c < h {
            return n;
          }
        }
      }
      if tail != rtail {
        tail := rtail;
      }
      rhead := h;
      rcur := c;
      return h;
    }

    /** nm_rxsync_prologue: rhead and rcur are overwritten even when the values are refused. */
    method RxSyncPrologue() returns (r: nat)
      modifies this`rhead, this`rcur, this`tail
      ensures rhead == head && rcur == cur
      ensures r < n <==> old(RxAccepts())
      ensures r < n ==> r == head && tail == rtail
      ensures r >= n ==> tail == old(tail) || (r == head && tail == rtail)
    {
      var h, c := head, cur;
      rcur, rhead := c, h;
      if hwcur >= n || hwtail >= n {
        return n;
      }
      if hwtail >= hwcur {
        if h < hwcur || h > hwtail {
          return n;
        }
        if c < h || c > hwtail {
          return n;
        }
      } else {
        if h < hwcur && h > hwtail {
          return n;
        }
        if h <= hwtail {
          if c < h || c > hwtail {
            return n;
          }
        } else {
          if c < h && c > hwtail {
            return n;
          }
        }
      }
      if tail != rtail {
        tail := rtail;
      }
      return h;
    }

    /** nm_txsync_finalize */
    method TxSyncFinalize()
      modifies this`rtail, this`tail
      ensures rtail == hwtail && tail == hwtail
    {
      rtail := hwtail;
      tail := rtail;
    }

    /** nm_rxsync_finalize: publishes hwtail and reads the user's head and cur again. */
    method RxSyncFinalize()
      modifies this`rtail, this`tail, this`rhead, this`rcur
      ensures rtail == hwtail && tail == hwtail && rhead == head && rcur == cur
    {
      rtail := hwtail;
      tail := rtail;
      rhead := head;
      rcur := cur;
    }
  }
}
