/** The VALE lease routines in the form of the C code: fields and arrays updated in place. */
module LeaseRingImpl {
  import opened Ring
  import opened KringModel
  import opened Lease

  lemma ReleaseNext(s: seq<Slot>, start: nat, i: nat)
    requires start < |s| && i < |s| && Dist(start, i, |s|) < |s| - 1
    ensures Released(s, start, i)[i := Acknowledged(s[i])] == Released(s, start, Next(i, |s| - 1))
    ensures Released(s, start, i)[i] == s[i]
  {
    assert Dist(start, Next(i, |s| - 1), |s|) == Dist(start, i, |s|) + 1;
  }

  class LeaseRing {
    const kring: Kring
    const n: nat
    const slots: array<Slot>
    const leases: array<nat>
    var hwlease: nat
    var leaseIdx: nat

    ghost predicate Valid()
      reads this, kring, leases
    {
      && 0 < n < NOSLOT && kring.n == n && slots.Length == n && leases.Length == n
      && kring.hwcur < n && kring.rtail < n && kring.hwtail < n && hwlease < n && leaseIdx < n
      && (forall i :: 0 <= i < n ==> leases[i] < n || leases[i] == NOSLOT)
    }

    ghost function View(): Fields
      reads this, kring, slots, leases
    {
      Fields(n, kring.hwcur, kring.rtail, kring.hwtail, hwlease, leaseIdx, leases[..], slots[..])
    }

    constructor (k: Kring)
      requires 0 < k.n < NOSLOT && k.hwcur == k.hwtail == k.rtail == 0
      ensures Valid() && kring == k && fresh(slots) && fresh(leases)
      ensures View() == Fields(k.n, 0, 0, 0, 0, 0, seq(k.n, _ => 0), slots[..])
    {
      kring, n := k, k.n;
      slots := new Slot[k.n](_ => Slot(0, 0, 0));
      leases := new nat[k.n](_ => 0);
      hwlease, leaseIdx := 0, 0;
      new;
      assert leases[..] == seq(n, _ => 0);
    }

    /** The locked block that starts a delivery: nm_kr_space, the clamp and nm_kr_lease. */
    method Reserve(needed: nat) returns (w: Writer)
      requires Valid()
      modifies this, leases
      ensures Valid() && View() == Reserved(old(View()), needed) && w == ReservedWriter(old(View()), needed)
      ensures w.howmany <= needed && Dist(kring.hwcur, old(hwlease), n) + w.howmany <= n - 1
      ensures w.howmany == needed || Dist(kring.hwcur, old(hwlease), n) + w.howmany == n - 1
    {
      var lim := n - 1;
      var myStart := hwlease;
      var busy := hwlease - kring.hwcur;
      if busy < 0 {
        busy := busy + n;
      }
      var howmany := n - 1 - busy;
      if needed < howmany {
        howmany := needed;
      }
      var idx := leaseIdx;
      leases[idx] := NOSLOT;
      leaseIdx := Next(idx, lim);
      hwlease := hwlease + howmany;
      if hwlease > lim {
        hwlease := hwlease - (lim + 1);
      }
      w := Writer(idx, myStart, myStart, howmany);
    }

    /** One slot of the copy loop. */
    method Store(w: Writer, s: Slot) returns (w': Writer)
      requires Valid() && w.j < n && 0 < w.howmany
      modifies slots
      ensures Valid() && View() == Stored(old(View()), w, s) && w' == StoredWriter(old(View()), w)
    {
      slots[w.j] := s;
      w' := Writer(w.leaseIdx, w.myStart, Next(w.j, n - 1), w.howmany - 1);
    }

    /** The locked block that ends a delivery. */
    method Complete(w: Writer)
      requires Valid() && w.leaseIdx < n && w.j < n && w.howmany <= n
      modifies this, kring, slots, leases
      ensures Valid() && View() == Completed(old(View()), w)
    {
      var lim := n - 1;
      var j := Settle(w);
      leases[w.leaseIdx] := j;
      if w.myStart == kring.hwtail {
        j := ScanReports(w.leaseIdx, j);
        if j != w.myStart {
          kring.hwtail := j;
        }
      }
    }

    /** Leftover slots: recovered by the last writer, marked as empty packets by any other. */
    method Settle(w: Writer) returns (j: nat)
      requires Valid() && w.leaseIdx < n && w.j < n && w.howmany <= n
      modifies this, slots
      ensures Valid() && View() == Settled(old(View()), w) && j == EndOf(old(View()), w)
    {
      var lim := n - 1;
      j := w.j;
      var howmany := w.howmany;
      if howmany > 0 {
        if Next(w.leaseIdx, lim) == leaseIdx {
          hwlease := j;
        } else {
          while howmany > 0
            modifies slots
            invariant 0 <= howmany <= w.howmany && j == At(w.j, w.howmany - howmany, n)
            invariant slots[..] == Blanked(old(slots[..]), w.j, w.howmany - howmany)
          {
            slots[j] := slots[j].(len := 0, flags := 0);
            j := Next(j, lim);
            howmany := howmany - 1;
          }
        }
      }
    }

    /** Subsequent leases that have been completed. */
    method ScanReports(start: nat, end: nat) returns (j: nat)
      requires Valid() && start < n && end < n
      modifies leases
      ensures leases[..] == Scan(old(leases[..]), start, leaseIdx, end).0
      ensures j == Scan(old(leases[..]), start, leaseIdx, end).1
      ensures Valid() && j < n
    {
      var lim, i: nat := n - 1, start;
      j := end;
      while i != leaseIdx && leases[i] != NOSLOT
        invariant Valid() && i < n && j < n
        invariant Scan(leases[..], i, leaseIdx, j) == Scan(old(leases[..]), start, leaseIdx, end)
        decreases Dist(i, leaseIdx, n)
      {
        j := leases[i];
        leases[i] := NOSLOT;
        i := Next(i, lim);
      }
    }

    /** Skip past the slots that the user has released. */
    method Release(start: nat, head: nat)
      requires Valid() && start < n && head < n
      modifies slots
      ensures slots[..] == Released(old(slots[..]), start, head)
    {
      var i: nat := start;
      while i != head
        invariant i < n && Dist(start, i, n) <= Dist(start, head, n)
        invariant slots[..] == Released(old(slots[..]), start, i)
        decreases Dist(i, head, n)
      {
        ReleaseNext(old(slots[..]), start, i);
        slots[i] := slots[i].(flags := slots[i].flags - slots[i].flags % 2);
        i := Next(i, n - 1);
      }
    }

    /** First part of an accepted rxsync: the slots that the user has released. */
    method Advance(head: nat)
      requires Valid() && head < n
      modifies kring`hwcur, slots
      ensures Valid() && kring.hwcur == head && slots[..] == Released(old(slots[..]), old(kring.hwcur), head)
    {
      if kring.hwcur != head {
        Release(kring.hwcur, head);
        kring.hwcur := head;
      }
    }

    /** netmap_vp_rxsync_locked; a refused head leaves the protocol's fields alone. */
    method RxSync() returns (ok: bool)
      requires Valid()
      modifies kring, slots
      ensures Valid() && (ok <==> old(kring.RxAccepts()))
      ensures !ok ==> View() == old(View())
      ensures ok ==> kring.head < n && View() == Synced(old(View()), kring.head)
      ensures ok ==> Dist(old(kring.hwcur), kring.head, n) <= Dist(old(kring.hwcur), kring.hwtail, n)
      ensures kring.head == old(kring.head)
    {
      var lim := n - 1;
      var head := kring.RxSyncPrologue();
      if head > lim {
        return false;
      }
      Advance(head);
      kring.RxSyncFinalize();
      return true;
    }
  }
}
