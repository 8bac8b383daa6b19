/** The transmit ring of the ixgbe driver, with the NIC as a third party that runs at any time.

    The NIC transmits descriptors from TDH up to TDT, excluded.  A sync fills descriptors up to the user's
    head, moves TDT, and reclaims the slots that TDH has passed. */
module IxgbeTx {
  import opened Ring
  import opened KringModel
  import opened Fates

  /** A descriptor: buffer, length, and whether the NIC shall report completion. */
  datatype Desc = Desc(buf: nat, len: nat, rs: bool)

  /** The descriptor that stands for a slot: lengths are cut to the buffer size, and completion is
      reported when the user asks for it (NS_REPORT) and twice per round. */
  function Loaded(s: Slot, nicI: nat, size: nat, n: nat): Desc {
    Desc(s.bufIdx, if size < s.len then size else s.len, s.flags / 2 % 2 == 1 || nicI == 0 || nicI == n / 2)
  }

  /** The slots from index i on, as many as r, as descriptors. */
  ghost function Submitted(slots: seq<Slot>, i: nat, r: nat, hwofs: nat, size: nat, n: nat): seq<Desc>
    requires |slots| == n && i < n && r <= n && hwofs < n
  {
    seq(r, d requires 0 <= d < r => Loaded(slots[At(i, d, n)], K2n(At(i, d, n), hwofs, n), size, n))
  }

  /** These descriptors stand for the slots from hwcur up to head: descriptor d has the buffer of its slot, as much of its
      length as a buffer holds, and a report if the slot asks for one (NS_REPORT) or the descriptor is number 0 or n / 2. */
  ghost predicate StandFor(batch: seq<Desc>, slots: seq<Slot>, hwcur: nat, head: nat, hwofs: nat, size: nat, n: nat) {
    && |slots| == n && hwcur < n && head < n && hwofs < n && |batch| == Dist(hwcur, head, n)
    && forall d {:trigger batch[d]} :: 0 <= d < |batch| ==>
         var s, x := slots[At(hwcur, d, n)], K2n(At(hwcur, d, n), hwofs, n);
         && batch[d].buf == s.bufIdx
         && (s.len <= size ==> batch[d].len == s.len) && (s.len > size ==> batch[d].len == size)
         && (batch[d].rs <==> s.flags / 2 % 2 == 1 || x == 0 || x == n / 2)
  }

  lemma SubmittedStandFor(before: seq<Desc>, slots: seq<Slot>, hwcur: nat, head: nat, hwofs: nat, size: nat, n: nat,
                          handed: seq<Desc>)
    requires |slots| == n && hwcur < n && head < n && hwofs < n
    requires handed == before + Submitted(slots, hwcur, Dist(hwcur, head, n), hwofs, size, n)
    ensures before <= handed && StandFor(handed[|before|..], slots, hwcur, head, hwofs, size, n)
  {
    assert handed[|before|..] == Submitted(slots, hwcur, Dist(hwcur, head, n), hwofs, size, n);
  }

  /** The descriptors from c on are these. */
  ghost predicate Queued(c: nat, queue: seq<Desc>, desc: seq<Desc>, n: nat) {
    && c < n && |queue| < n && |desc| == n
    && forall j {:trigger desc[j]} :: 0 <= j < n && Dist(c, j, n) < |queue| ==> desc[j] == queue[Dist(c, j, n)]
  }

  lemma QueuedNext(tdh: nat, queue: seq<Desc>, desc: seq<Desc>, n: nat)
    requires Queued(tdh, queue, desc, n) && queue != []
    ensures desc[tdh] == queue[0] && Queued(Next(tdh, n - 1), queue[1..], desc, n)
  {
  }

  /** One more descriptor x after those from c on; others are not touched. */
  lemma QueuedMore(c: nat, queue: seq<Desc>, desc: seq<Desc>, n: nat, x: nat, d: Desc)
    requires Queued(c, queue, desc, n) && x < n && Dist(c, x, n) >= |queue|
    ensures Queued(c, queue, desc[x := d], n)
    ensures Dist(c, x, n) == |queue| < n - 1 ==> Queued(c, queue + [d], desc[x := d], n)
  {
  }

  /** Two queues, one after the other. */
  lemma QueuedJoin(tdh: nat, tdt: nat, a: seq<Desc>, b: seq<Desc>, desc: seq<Desc>, n: nat)
    requires Queued(tdh, a, desc, n) && Queued(tdt, b, desc, n) && Dist(tdh, tdt, n) == |a| && |a| + |b| < n
    ensures Queued(tdh, a + b, desc, n)
  {
  }

  /** Filling the descriptor of slot i: it follows those filled before, and the NIC does not own it. */
  lemma FillKeeps(tdh: nat, queue: seq<Desc>, desc: seq<Desc>, was: seq<Slot>, hwcur: nat, i: nat, hwofs: nat,
                  size: nat, n: nat)
    requires |was| == n && hwcur < n && i < n && hwofs < n
    requires var c, r := K2n(hwcur, hwofs, n), Dist(hwcur, i, n);
             && Queued(tdh, queue, desc, n) && Queued(c, Submitted(was, hwcur, r, hwofs, size, n), desc, n)
             && Dist(tdh, c, n) == |queue| && |queue| + r < n - 1
    ensures var c, r, x := K2n(hwcur, hwofs, n), Dist(hwcur, i, n), K2n(i, hwofs, n);
            var desc' := desc[x := Loaded(was[i], x, size, n)];
            Queued(tdh, queue, desc', n) && Queued(c, Submitted(was, hwcur, r + 1, hwofs, size, n), desc', n)
  {
    var c, r, x := K2n(hwcur, hwofs, n), Dist(hwcur, i, n), K2n(i, hwofs, n);
    var batch := Submitted(was, hwcur, r, hwofs, size, n);
    assert Submitted(was, hwcur, r + 1, hwofs, size, n) == batch + [Loaded(was[i], x, size, n)];
    assert Dist(c, x, n) == r;
    DistAdd(tdh, c, x, n);
    QueuedMore(c, batch, desc, n, x, Loaded(was[i], x, size, n));
    QueuedMore(tdh, queue, desc, n, x, Loaded(was[i], x, size, n));
  }

  /** The first r slots from hwcur have lost NS_REPORT and NS_BUF_CHANGED; nothing else has changed. */
  ghost predicate Cleared(was: seq<Slot>, slots: seq<Slot>, hwcur: nat, r: nat, n: nat) {
    && hwcur < n && |was| == |slots| == n
    && forall s {:trigger slots[s]} :: 0 <= s < n ==>
         slots[s] == if Dist(hwcur, s, n) < r then was[s].(flags := was[s].flags - was[s].flags % 4) else was[s]
  }

  lemma ClearOne(was: seq<Slot>, slots: seq<Slot>, hwcur: nat, r: nat, n: nat, x: nat)
    requires Cleared(was, slots, hwcur, r, n) && x < n && Dist(hwcur, x, n) == r
    ensures slots[x] == was[x]
    ensures Cleared(was, slots[x := was[x].(flags := was[x].flags - was[x].flags % 4)], hwcur, r + 1, n)
  {
  }

  lemma K2nDist(i: nat, j: nat, hwofs: nat, n: nat)
    requires i < n && j < n && hwofs < n
    ensures Dist(K2n(i, hwofs, n), K2n(j, hwofs, n), n) == Dist(i, j, n)
  {
  }

  /** A slot that lies after hwcur, but not by as much as what is free, counted from TDH. */
  lemma NotPending(tdh: nat, tdt: nat, hwcur: nat, i: nat, q: nat, hwofs: nat, n: nat)
    requires tdh < n && tdt < n && hwcur < n && i < n && hwofs < n && tdt == K2n(hwcur, hwofs, n)
    requires Dist(tdh, tdt, n) == q && Dist(hwcur, i, n) + q < n
    ensures q <= Dist(tdh, K2n(i, hwofs, n), n)
    ensures Dist(N2k(tdh, hwofs, n), hwcur, n) <= Dist(N2k(tdh, hwofs, n), i, n)
  {
    K2nDist(hwcur, i, hwofs, n);
    DistAdd(tdh, tdt, K2n(i, hwofs, n), n);
    SameDistance(tdh, tdt, hwofs, n);
    SameDistance(tdh, K2n(i, hwofs, n), hwofs, n);
    SameDistance(hwcur, i, hwofs, n);
  }

  /** What can happen to the ring: the NIC transmits, the user stores indices or writes a slot, a sync, a reset. */
  datatype Event =
    | Transmits
    | Moves(head: nat, cur: nat)
    | Writes(i: nat, slot: Slot)
    | Syncs(carrier: bool, force: bool, reported: bool)
    | Resets

  /** Indices accepted between rhead and rtail stay in order from hwcur and from the new hwcur. */
  lemma Accepted(hwcur: nat, hwtail: nat, rhead: nat, rtail: nat, head: nat, cur: nat, n: nat)
    requires hwcur < n && hwtail < n && rhead < n && rtail < n && head < n
    requires Dist(hwcur, rhead, n) <= Dist(hwcur, rtail, n) <= Dist(hwcur, hwtail, n)
    requires if cur < n then InOrder(rhead, head, cur, rtail, n) else rtail < rhead <= head
    ensures Dist(hwcur, head, n) <= Dist(hwcur, hwtail, n)
    ensures cur < n ==> InOrder(hwcur, head, cur, hwtail, n) && InOrder(head, head, cur, hwtail, n)
  {
  }

  lemma StillInOrder(b: nat, head: nat, cur: nat, hwtail: nat, hwtail': nat, n: nat)
    requires b < n && head < n && cur < n && hwtail < n && hwtail' < n
    requires InOrder(b, head, cur, hwtail, n) && Dist(b, hwtail, n) <= Dist(b, hwtail', n)
    ensures InOrder(b, head, cur, hwtail', n)
  {
  }

  /** More frames were transmitted. */
  ghost predicate Onward(gone: seq<bool>, gone': seq<bool>) {
    |gone| <= |gone'| && gone' == gone + Times(true, |gone'| - |gone|)
  }

  /** The ring as the run of events sees it: indices, slots, all descriptors ever handed to the NIC, and what became of
      those that are not queued. */
  datatype Summary = Summary(slots: seq<Slot>, hwcur: nat, head: nat, ready: bool, hwofs: nat,
                             handed: seq<Desc>, gone: seq<bool>)

  /** What an event may do: an accepted sync with carrier hands over exactly the slots up to head, and no other event
      hands over any; a reset loses exactly what is queued; otherwise the NIC transmits in order. */
  ghost predicate Follows(a: Summary, e: Event, b: Summary, size: nat, n: nat) {
    && |a.gone| <= |a.handed| && |b.gone| <= |b.handed|
    && match e
       case Transmits => b.handed == a.handed && b.gone == a.gone + Times(true, if |a.gone| == |a.handed| then 0 else 1)
       case Syncs(carrier, _, _) => Onward(a.gone, b.gone) && Hands(a, b, carrier && a.ready, size, n)
       case Resets => b.handed == a.handed && b.gone == a.gone + Times(false, |a.handed| - |a.gone|)
       case _ => b.handed == a.handed && b.gone == a.gone
  }

  ghost predicate Hands(a: Summary, b: Summary, go: bool, size: nat, n: nat) {
    if go then
      && a.hwcur < n && a.head < n && a.hwofs < n && |a.slots| == n
      && a.handed <= b.handed && StandFor(b.handed[|a.handed|..], a.slots, a.hwcur, a.head, a.hwofs, size, n)
    else b.handed == a.handed
  }

  /** The events that happened, up to a refused sync. */
  ghost predicate Trace(trace: seq<Summary>, script: seq<Event>, size: nat, n: nat) {
    && 0 < |trace| <= |script| + 1
    && forall j {:trigger script[j]} :: 0 <= j < |trace| - 1 ==> Follows(trace[j], script[j], trace[j + 1], size, n)
  }

  lemma TraceMore(trace: seq<Summary>, script: seq<Event>, size: nat, n: nat, b: Summary)
    requires Trace(trace, script, size, n) && |trace| <= |script|
    requires Follows(trace[|trace| - 1], script[|trace| - 1], b, size, n)
    ensures Trace(trace + [b], script, size, n)
  {
  }

  /** Without a reset the NIC transmits all that was handed over, in order. */
  lemma {:induction false} NothingDropped(trace: seq<Summary>, script: seq<Event>, size: nat, n: nat, i: nat)
    requires Trace(trace, script, size, n) && Resets !in script && i < |trace|
    requires |trace[0].gone| <= |trace[0].handed|
    ensures trace[0].handed <= trace[i].handed && |trace[0].gone| <= |trace[i].gone| <= |trace[i].handed|
    ensures trace[i].gone == trace[0].gone + Times(true, |trace[i].gone| - |trace[0].gone|)
  {
    if i > 0 {
      NothingDropped(trace, script, size, n, i - 1);
      assert Follows(trace[i - 1], script[i - 1], trace[i], size, n) && script[i - 1] in script;
    }
  }

  lemma Outcome(trace: seq<Summary>, script: seq<Event>, size: nat, n: nat)
    requires Trace(trace, script, size, n) && |trace[0].gone| <= |trace[0].handed|
    ensures var a, b := trace[0], trace[|trace| - 1];
            Resets !in script ==> && |a.gone| <= |b.gone| <= |b.handed|
                                  && Selected(b.handed, b.gone) == Selected(a.handed, a.gone) + b.handed[|a.gone|..|b.gone|]
  {
    if Resets !in script {
      var a, b := trace[0], trace[|trace| - 1];
      NothingDropped(trace, script, size, n, |trace| - 1);
      SelectedSame(a.handed, b.handed, a.gone);
      SelectedMore(b.handed, a.gone, |b.gone| - |a.gone|);
    }
  }

  class TxRing {
    const n: nat
    const size: nat
    const k: Kring
    const slots: array<Slot>
    var hwofs: nat
    /** The NIC: registers and descriptors. */
    var tdh: nat
    var tdt: nat
    const desc: array<Desc>
    /** All that was ever handed to the NIC; what became of the first of these (transmitted, or lost in a reset); and
        the others, which are queued. */
    ghost var handed: seq<Desc>
    ghost var gone: seq<bool>
    ghost var queue: seq<Desc>

    ghost predicate Shape() {
      k.n == n == slots.Length == desc.Length && 2 <= n
    }

    /** Slots that the user may fill, or has filled since the last sync. */
    ghost function Free(): nat
      reads k`hwcur, k`hwtail
      requires k.hwcur < n && k.hwtail < n
    {
      Dist(k.hwcur, k.hwtail, n)
    }

    /** TDT corresponds to hwcur, and the free slots do not reach what the NIC has still to transmit. */
    ghost predicate Valid()
      reads this`hwofs, this`tdh, this`tdt, this`queue, this`handed, this`gone, k`hwcur, k`hwtail, desc
    {
      && |gone| + |queue| == |handed| && queue == handed[|gone|..]
      && Shape() && hwofs < n && k.hwcur < n && k.hwtail < n && tdh < n
      && tdt == K2n(k.hwcur, hwofs, n) && Dist(tdh, tdt, n) == |queue|
      && Queued(tdh, queue, desc[..], n) && Free() + |queue| <= n - 1
    }

    /** The ring as krings_create and the first initialisation of the NIC leave it. */
    constructor (bufs: seq<nat>, bufSize: nat)
      requires 2 <= |bufs|
      ensures Valid() && n == |bufs| && size == bufSize && handed == [] && k.TxOrdered() && fresh(k) && fresh(slots)
      ensures fresh(desc)
    {
      n, size := |bufs|, bufSize;
      k := new Kring.Tx(|bufs|);
      slots := new Slot[|bufs|](i requires 0 <= i < |bufs| => Slot(bufs[i], 0, 0));
      desc := new Desc[|bufs|](_ => Desc(0, 0, false));
      hwofs, tdh, tdt, queue, handed, gone := 0, 0, 0, [], [], [];
    }

    /** All that the NIC transmitted. */
    ghost function Sent(): seq<Desc>
      requires |gone| <= |handed|
      reads this`handed, this`gone
    {
      Selected(handed, gone)
    }

    /** The NIC transmits one frame, if it has any. */
    method Transmit()
      requires Valid()
      modifies this`tdh, this`queue, this`gone
      ensures Valid() == true && gone == old(gone) + Times(true, if old(queue) == [] then 0 else 1)
      ensures old(queue) != [] ==> queue == old(queue)[1..]
    {
      if tdh == tdt { return; }
      QueuedNext(tdh, queue, desc[..], n);
      gone, queue := gone + Times(true, 1), queue[1..];
      tdh := Next(tdh, n - 1);
    }

    /** The NIC runs for a while. */
    method Nic()
      requires Valid()
      modifies this`tdh, this`queue, this`gone
      ensures Valid() && Onward(old(gone), gone)
    {
      var steps: nat := *;
      while steps > 0
        invariant Valid() && Onward(old(gone), gone)
      {
        Transmit();
        steps := steps - 1;
      }
    }

    /** The fill loop has done r slots: they are in descriptors from TDT on, and the rest are as they were. */
    ghost predicate Filling(was: seq<Slot>, r: nat)
      reads this`hwofs, this`tdt, k`hwcur, slots, desc
      requires Shape() && hwofs < n && k.hwcur < n
    {
      && |was| == n && r <= n
      && Queued(tdt, Submitted(was, k.hwcur, r, hwofs, size, n), desc[..], n)
      && Cleared(was, slots[..], k.hwcur, r, n)
    }

    /** The slot nmI goes to the descriptor nicI. */
    method Load(nicI: nat, nmI: nat)
      requires Shape() && nicI < n && nmI < n
      modifies slots, desc
      ensures desc[..] == old(desc[..])[nicI := Loaded(old(slots[nmI]), nicI, size, n)]
      ensures slots[..] == old(slots[..])[nmI := old(slots[nmI]).(flags := old(slots[nmI]).flags - old(slots[nmI]).flags % 4)]
    {
      var s := slots[nmI];
      var len := s.len;
      if len > size { len := size; }
      slots[nmI] := s.(flags := s.flags - s.flags % 4); // NS_REPORT and NS_BUF_CHANGED
      desc[nicI] := Desc(s.bufIdx, len, s.flags / 2 % 2 == 1 || nicI == 0 || nicI == n / 2);
    }

    /** The body of the fill loop. */
    method FillOne(nicI: nat, nmI: nat, ghost r: nat, ghost was: seq<Slot>)
      requires Valid() && nmI < n && nicI == K2n(nmI, hwofs, n)
      requires Dist(k.hwcur, nmI, n) == r < Free() && Filling(was, r)
      modifies slots, desc
      ensures Valid() && Filling(was, r + 1)
    {
      ClearOne(was, slots[..], k.hwcur, r, n, nmI);
      FillKeeps(tdh, queue, desc[..], was, k.hwcur, nmI, hwofs, size, n);
      Load(nicI, nmI);
    }

    /** The fill loop has done r slots and has reached nicI and nmI. */
    ghost predicate Reached(nicI: nat, nmI: nat, r: nat, was: seq<Slot>)
      reads this`hwofs, this`tdt, k`hwcur, slots, desc
    {
      && Shape() && hwofs < n && k.hwcur < n && nmI < n && nicI == K2n(nmI, hwofs, n) && Dist(k.hwcur, nmI, n) == r
      && Filling(was, r)
    }

    /** One turn of the loop, and what the NIC does until the next one. */
    method FillNext(nicI: nat, nmI: nat, ghost r: nat, ghost was: seq<Slot>) returns (nicI': nat, nmI': nat)
      requires Valid() && Reached(nicI, nmI, r, was) && r < Free()
      modifies this`tdh, this`queue, this`gone, slots, desc
      ensures Valid() && Reached(nicI', nmI', r + 1, was) && Onward(old(gone), gone)
    {
      StepBoth(k.hwcur, nmI, hwofs, n);
      nmI', nicI' := Next(nmI, n - 1), Next(nicI, n - 1);
      FillOne(nicI, nmI, r, was);
      Nic();
    }

    /** The fill loop, while the NIC runs. */
    method FillLoop(head: nat) returns (nicI: nat)
      requires Valid() && head < n && Dist(k.hwcur, head, n) <= Free()
      modifies this`tdh, this`queue, this`gone, slots, desc
      ensures Valid() && nicI == K2n(head, hwofs, n) && Onward(old(gone), gone)
      ensures Filling(old(slots[..]), Dist(k.hwcur, head, n))
    {
      var nmI: nat := k.hwcur;
      nicI := K2n(nmI, hwofs, n);
      ghost var r, was := 0, slots[..];
      while nmI != head
        invariant Valid() && Reached(nicI, nmI, r, was) && Onward(old(gone), gone)
        invariant r <= Dist(k.hwcur, head, n)
        decreases n - r
      {
        nicI, nmI := FillNext(nicI, nmI, r, was);
        r := r + 1;
      }
    }

    /** The new hwcur and TDT: the filled descriptors join the queue of the NIC. */
    method Commit(head: nat, nicI: nat, ghost was: seq<Slot>)
      requires Valid() && head < n && Dist(k.hwcur, head, n) <= Free() && nicI == K2n(head, hwofs, n)
      requires Filling(was, Dist(k.hwcur, head, n))
      modifies this`tdt, this`queue, this`handed, k`hwcur
      ensures Valid() && k.hwcur == head
      ensures handed == old(handed) + Submitted(was, old(k.hwcur), Dist(old(k.hwcur), head, n), hwofs, size, n)
    {
      ghost var ds, batch := desc[..], Submitted(was, k.hwcur, Dist(k.hwcur, head, n), hwofs, size, n);
      QueuedJoin(tdh, tdt, queue, batch, ds, n);
      DistAdd(k.hwcur, head, k.hwtail, n);
      K2nDist(k.hwcur, head, hwofs, n);
      DistAdd(tdh, tdt, nicI, n);
      k.hwcur, tdt, queue, handed := head, nicI, queue + batch, handed + batch;
      assert desc[..] == ds;
    }

    /** First part of the sync: hand the slots up to head to the NIC, in order. */
    method Submit(head: nat)
      requires Valid() && head < n && Dist(k.hwcur, head, n) <= Free()
      modifies this`tdh, this`tdt, this`queue, this`handed, this`gone, k`hwcur, slots, desc
      ensures Valid() && k.hwcur == head
      ensures handed == old(handed)
                + Submitted(old(slots[..]), old(k.hwcur), Dist(old(k.hwcur), head, n), hwofs, size, n)
      ensures Onward(old(gone), gone)
      ensures Cleared(old(slots[..]), slots[..], old(k.hwcur), Dist(old(k.hwcur), head, n), n)
    {
      if k.hwcur == head { return; }
      var nicI := FillLoop(head);
      Commit(head, nicI, old(slots[..]));
    }

    /** Second part of the sync: slots before TDH are free again. */
    method Reclaim()
      requires Valid()
      modifies k`hwtail
      ensures Valid() && k.hwtail == Prev(N2k(tdh, hwofs, n), n - 1)
      ensures Dist(k.hwcur, old(k.hwtail), n) <= Free() == n - 1 - |queue|
    {
      ghost var ds := desc[..];
      k.hwtail := Prev(N2k(tdh, hwofs, n), n - 1);
      assert desc[..] == ds;
    }

    /** ixgbe_netmap_txsync after an accepted prologue.  Without free slots, the sync looks at the DD bit of a
        descriptor with report status (`reported`) before it reads TDH. */
    method Sync(head: nat, carrier: bool, force: bool, reported: bool)
      requires Valid() && head < n && Dist(k.hwcur, head, n) <= Free()
      modifies this`tdh, this`tdt, this`queue, this`handed, this`gone, k`hwcur, k`hwtail, slots, desc
      ensures Valid() == true && k.hwcur == if carrier then head else old(k.hwcur)
      ensures Dist(k.hwcur, old(k.hwtail), n) <= Free()
      ensures if carrier && (force || (k.rcur == old(k.hwtail) && reported)) then Free() == n - 1 - |queue|
              else k.hwtail == old(k.hwtail)
      ensures Cleared(old(slots[..]), slots[..], old(k.hwcur), Dist(old(k.hwcur), k.hwcur, n), n) == true
      ensures Onward(old(gone), gone) && (!carrier ==> handed == old(handed))
      ensures carrier ==>
                handed == old(handed)
                  + Submitted(old(slots[..]), old(k.hwcur), Dist(old(k.hwcur), head, n), hwofs, size, n)
    {
      if !carrier { return; }
      Submit(head);
      var reclaim := if force then true else if k.rcur != k.hwtail then false else reported;
      Nic();
      if reclaim {
        Reclaim();
      }
    }

    /** Sync and finalize, for indices that are in order before and after hwcur moves. */
    method SyncAndFinalize(head: nat, carrier: bool, force: bool, reported: bool)
      requires Valid() && k.rhead == head < n && Dist(k.hwcur, head, n) <= Free()
      requires k.rcur < n ==> InOrder(k.hwcur, head, k.rcur, k.hwtail, n) && InOrder(head, head, k.rcur, k.hwtail, n)
      modifies this`tdh, this`tdt, this`queue, this`handed, this`gone, slots, desc, k`hwcur, k`hwtail, k`rtail, k`tail
      ensures Valid() == true && k.rtail == k.hwtail == k.tail && k.Bounded() && (k.rcur < n ==> k.TxOrdered())
      ensures if carrier && (force || (k.rcur == old(k.hwtail) && reported)) then Free() == n - 1 - |queue|
              else k.hwtail == old(k.hwtail)
      ensures k.hwcur == if carrier then head else old(k.hwcur)
      ensures Cleared(old(slots[..]), slots[..], old(k.hwcur), Dist(old(k.hwcur), k.hwcur, n), n) == true
      ensures Onward(old(gone), gone) && (!carrier ==> handed == old(handed))
      ensures carrier ==>
                handed == old(handed)
                  + Submitted(old(slots[..]), old(k.hwcur), Dist(old(k.hwcur), head, n), hwofs, size, n)
    {
      ghost var t := k.hwtail;
      Sync(head, carrier, force, reported);
      if k.rcur < n { StillInOrder(k.hwcur, head, k.rcur, t, k.hwtail, n); }
      k.TxSyncFinalize();
    }

    /** A whole round: prologue, sync, finalize. */
    method TxSync(carrier: bool, force: bool, reported: bool) returns (ok: bool)
      requires Valid() && k.Bounded()
      modifies this`tdh, this`tdt, this`queue, this`handed, this`gone, slots, desc
      modifies k`hwcur, k`hwtail, k`rhead, k`rcur, k`rtail, k`tail
      ensures Valid() == true && (ok <==> old(k.TxAccepts()))
      ensures ok ==> k.rtail == k.hwtail == k.tail && k.rhead == k.head && k.Bounded() && (k.cur < n ==> k.TxOrdered())
      ensures if ok && carrier && (force || (k.cur == old(k.hwtail) && reported)) then Free() == n - 1 - |queue|
              else k.hwtail == old(k.hwtail)
      ensures k.hwcur == if ok && carrier then k.head else old(k.hwcur)
      ensures Cleared(old(slots[..]), slots[..], old(k.hwcur), Dist(old(k.hwcur), k.hwcur, n), n) == true
      ensures Onward(old(gone), gone) && (!ok || !carrier ==> handed == old(handed))
      ensures ok && carrier ==>
                && old(handed) <= handed && k.head < n
                && StandFor(handed[|old(handed)|..], old(slots[..]), old(k.hwcur), k.head, hwofs, size, n) == true
    {
      var head := k.TxSyncPrologue();
      if head >= n { return false; }
      Accepted(k.hwcur, k.hwtail, old(k.rhead), k.rtail, head, k.cur, n);
      SyncAndFinalize(head, carrier, force, reported);
      if carrier { SubmittedStandFor(old(handed), old(slots[..]), old(k.hwcur), head, hwofs, size, n, handed); }
      ok := true;
    }

    /** The user stores new indices. */
    method MoveHead(h: nat, c: nat)
      requires Valid() && k.Bounded()
      modifies k`head, k`cur
      ensures Valid() && k.Bounded() && k.head == h && k.cur == c
    {
      k.head, k.cur := h, c;
    }

    /** The user fills one of the slots it may. */
    method WriteSlot(i: nat, s: Slot)
      requires Valid() && i < n && Dist(k.hwcur, i, n) < Free()
      modifies slots
      ensures Valid() && slots[..] == old(slots[..])[i := s]
    {
      slots[i] := s;
    }

    /** Reinitialisation of the NIC: its ring restarts at 0, and netmap_reset makes all slots but one free. */
    method Reset()
      requires Valid() && k.Bounded()
      modifies this`hwofs, this`tdh, this`tdt, this`queue, this`gone, k`hwtail
      ensures Valid() && k.Bounded() && hwofs == k.hwcur && tdh == tdt == 0 && Free() == n - 1
      ensures gone == old(gone) + Times(false, |old(queue)|)
    {
      hwofs := k.hwcur;
      k.hwtail := k.hwcur + n - 1;
      if k.hwtail > n - 1 {
        k.hwtail := k.hwtail - n;
      }
      gone := gone + Times(false, |queue|);
      tdh, tdt, queue := 0, 0, [];
    }

    /** No slot that the user may fill is among those that the NIC has still to transmit. */
    lemma FreeSlotsAreNotPending(i: nat)
      requires Valid() && i < n && Dist(k.hwcur, i, n) < Free()
      ensures |queue| <= Dist(tdh, K2n(i, hwofs, n), n)
      ensures Dist(N2k(tdh, hwofs, n), k.hwcur, n) <= Dist(N2k(tdh, hwofs, n), i, n)
    {
      NotPending(tdh, tdt, k.hwcur, i, |queue|, hwofs, n);
    }

    ghost function Abs(): Summary
      reads this`handed, this`gone, this`hwofs, k, slots
    {
      Summary(slots[..], k.hwcur, k.head, k.TxAccepts(), hwofs, handed, gone)
    }

    method HappenSync(e: Event) returns (ok: bool)
      requires Valid() && k.Bounded() && e.Syncs?
      modifies this`tdh, this`tdt, this`queue, this`handed, this`gone, slots, desc
      modifies k`hwcur, k`hwtail, k`rhead, k`rcur, k`rtail, k`tail
      ensures Valid() && (ok ==> k.Bounded()) && (ok <==> old(k.TxAccepts()))
      ensures Follows(old(Abs()), e, Abs(), size, n)
    {
      ok := TxSync(e.carrier, e.force, e.reported);
    }

    method HappenOther(e: Event)
      requires Valid() && k.Bounded() && !e.Syncs?
      modifies this`hwofs, this`tdh, this`tdt, this`queue, this`gone, k`head, k`cur, k`hwtail, slots
      ensures Valid() && k.Bounded()
      ensures Follows(old(Abs()), e, Abs(), size, n)
    {
      match e
      case Transmits => Transmit();
      case Moves(h, c) => MoveHead(h, c);
      case Writes(x, s) =>
        if x < n && Dist(k.hwcur, x, n) < Dist(k.hwcur, k.hwtail, n) { WriteSlot(x, s); }
      case Resets => Reset();
    }

    /** One event of a run; a refused sync changes nothing that matters, but leaves the kring to be reinitialised. */
    method Happen(e: Event) returns (ok: bool)
      requires Valid() && k.Bounded()
      modifies this, k, slots, desc
      ensures Valid() && (ok ==> k.Bounded()) && (ok <==> (e.Syncs? ==> old(k.TxAccepts())))
      ensures Follows(old(Abs()), e, Abs(), size, n)
    {
      if e.Syncs? {
        ok := HappenSync(e);
      } else {
        HappenOther(e);
        ok := true;
      }
    }

    /** Every run, up to the first refused sync, of a user that fills only its own slots: each event does what it should
        to the frames, and without a reset the wire gets what was handed over, in order. */
    method Run(script: seq<Event>) returns (refused: bool, ghost trace: seq<Summary>)
      requires Valid() && k.Bounded()
      modifies this, k, slots, desc
      ensures Valid() && (!refused ==> k.Bounded() && |trace| == |script| + 1)
      ensures Trace(trace, script, size, n) && trace[0] == old(Abs()) && trace[|trace| - 1] == Abs()
      ensures Resets !in script ==>
                |old(gone)| <= |gone| && Sent() == old(Sent()) + handed[|old(gone)|..|gone|]
    {
      ghost var start := Abs();
      trace := [start];
      refused := false;
      for i := 0 to |script|
        invariant Valid() && k.Bounded() && |trace| == i + 1 && trace[0] == start && trace[i] == Abs()
        invariant Trace(trace, script, size, n)
      {
        var ok := Happen(script[i]);
        TraceMore(trace, script, size, n, Abs());
        trace := trace + [Abs()];
        if !ok {
          refused := true;
          break;
        }
      }
      Outcome(trace, script, size, n);
    }
  }
}
