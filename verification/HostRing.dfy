/** The receive ring for packets from the host stack: netmap_transmit queues them, and netmap_rxsync_from_host moves
    them to the ring and forwards what the user has released. */
module HostRing {
  import opened Ring
  import opened KringModel
  import opened Buffers
  import opened Mbq
  import opened ZeroCopy

  /** The slots from hwtail on describe these packets, in order; the others are as before. */
  ghost predicate Imported(was: seq<Slot>, slots: seq<Slot>, hwtail: nat, ps: seq<seq<nat>>, flags: nat, n: nat) {
    && |was| == |slots| == n && hwtail < n && |ps| < n
    && forall x {:trigger slots[x]} :: 0 <= x < n ==>
         var d := Dist(hwtail, x, n);
         slots[x] == if d < |ps| then Slot(was[x].bufIdx, |ps[d]|, flags) else was[x]
  }

  lemma ImportedMore(was: seq<Slot>, slots: seq<Slot>, hwtail: nat, ps: seq<seq<nat>>, flags: nat, n: nat, x: nat, p: seq<nat>)
    requires Imported(was, slots, hwtail, ps, flags, n) && x < n && Dist(hwtail, x, n) == |ps| < n - 1
    ensures Imported(was, slots[x := Slot(slots[x].bufIdx, |p|, flags)], hwtail, ps + [p], flags, n)
    ensures slots[x] == was[x]
  {
  }

  /** The buffers of the c slots from index i on. */
  ghost function Targets(slots: seq<Slot>, i: nat, c: nat, n: nat, count: nat): (r: seq<nat>)
    requires |slots| == n && i < n && c <= n
    ensures |r| == c && forall d {:trigger r[d]} :: 0 <= d < c ==> r[d] == BufferOf(slots[At(i, d, n)], count)
  {
    seq(c, d requires 0 <= d < c => BufferOf(slots[At(i, d, n)], count))
  }

  /** The packets were copied to the buffers of the slots from hwtail on, in order. */
  ghost predicate Landed(was: seq<Slot>, mem0: seq<seq<nat>>, mem: seq<seq<nat>>, hwtail: nat, ps: seq<seq<nat>>, n: nat) {
    && |was| == n && hwtail < n && |ps| < n && Copies(mem0, Targets(was, hwtail, |ps|, n, |mem0|), ps)
    && mem == CopiedTo(mem0, Targets(was, hwtail, |ps|, n, |mem0|), ps)
  }

  lemma LandedMore(was: seq<Slot>, mem0: seq<seq<nat>>, mem: seq<seq<nat>>, hwtail: nat, ps: seq<seq<nat>>, n: nat,
                   size: nat, x: nat, p: seq<nat>)
    requires Landed(was, mem0, mem, hwtail, ps, n) && Uniform(mem0, size) && |p| <= size
    requires x < n && Dist(hwtail, x, n) == |ps| < n - 1
    ensures var b := BufferOf(was[x], |mem0|);
            b < |mem| && |mem[b]| == size && Landed(was, mem0, mem[b := Over(mem[b], p)], hwtail, ps + [p], n)
  {
    var b, bs := BufferOf(was[x], |mem0|), Targets(was, hwtail, |ps|, n, |mem0|);
    assert Targets(was, hwtail, |ps| + 1, n, |mem0|) == bs + [b];
    CopyMore(mem0, bs, ps, b, p);
  }

  /** A packet for a slot with an index beyond the table lands in buffer 0, and nowhere else. */
  lemma StrayIndex(was: seq<Slot>, mem0: seq<seq<nat>>, mem: seq<seq<nat>>, hwtail: nat, p: seq<nat>, n: nat)
    requires Landed(was, mem0, mem, hwtail, [p], n) && 0 < |mem0| <= was[hwtail].bufIdx
    ensures |mem| == |mem0| && p <= mem[0] && forall b {:trigger mem[b]} :: 0 < b < |mem0| ==> mem[b] == mem0[b]
  {
    var bs := Targets(was, hwtail, 1, n, |mem0|);
    assert bs == [0];
    assert [p][..0] == [] && bs[..0] == [];
    assert CopiedTo(mem0, [], []) == mem0;
  }

  lemma ImportedNone(was: seq<Slot>, mem0: seq<seq<nat>>, hwtail: nat, flags: nat, n: nat)
    requires |was| == n && hwtail < n
    ensures Imported(was, was, hwtail, [], flags, n) && Landed(was, mem0, mem0, hwtail, [], n)
  {
  }

  /** Nothing changes the size of a buffer. */
  lemma StillUniform(was: seq<Slot>, mem0: seq<seq<nat>>, mem: seq<seq<nat>>, hwtail: nat, ps: seq<seq<nat>>, n: nat, size: nat)
    requires Landed(was, mem0, mem, hwtail, ps, n) && Uniform(mem0, size)
    ensures Uniform(mem, size) == true
  {
  }

  /** The contents of queued packets. */
  ghost function Data(packets: seq<Mbuf>): (r: seq<seq<nat>>)
    ensures |r| == |packets| && forall i {:trigger r[i]} :: 0 <= i < |r| ==> r[i] == packets[i].data
  {
    seq(|packets|, i requires 0 <= i < |packets| => packets[i].data)
  }

  lemma NextPacket(all: seq<Mbuf>, c: nat)
    requires c <= |all|
    ensures c == |all| ==> all[c..] == [] && Data(all)[..c] == Data(all)
    ensures c < |all| ==> all[c..] != [] && all[c..][0] == all[c] && all[c..][1..] == all[c + 1..]
    ensures c < |all| ==> Data(all)[..c] + [all[c].data] == Data(all)[..c + 1]
  {
  }

  lemma DataMore(packets: seq<Mbuf>, m: Mbuf)
    ensures Data(packets + [m]) == Data(packets) + [m.data]
  {
  }

  /** These fit a buffer. */
  ghost predicate Fit(ps: seq<seq<nat>>, size: nat) {
    forall i {:trigger ps[i]} :: 0 <= i < |ps| ==> |ps[i]| <= size
  }

  /** What can happen to the ring: the stack sends a packet, the user advances, stores a slot with any buffer, or fills
      a slot and its buffer, a sync. */
  datatype Event =
    | Packet(data: seq<nat>, on: bool)
    | Moves(head: nat, cur: nat)
    | Writes(i: nat, slot: Slot)
    | Fills(i: nat, len: nat, flags: nat, bytes: seq<nat>)
    | Syncs(flags: nat, forward: bool, all: bool)

  /** What the user is shown after a sync: new packets in the slots after the old hwtail; all other slots that it had not
      released are as they were. */
  ghost predicate Shown(was: seq<Slot>, slots: seq<Slot>, hwcur: nat, rhead: nat, hwtail: nat, ps: seq<seq<nat>>, flags: nat, n: nat) {
    && |was| == |slots| == n && hwcur < n && rhead < n && hwtail < n && |ps| < n
    && (forall x {:trigger slots[x]} :: 0 <= x < n && Dist(hwcur, rhead, n) <= Dist(hwcur, x, n) ==>
          slots[x] == if Dist(hwtail, x, n) < |ps| then Slot(was[x].bufIdx, |ps[Dist(hwtail, x, n)]|, flags) else was[x])
  }

  /** The packets that were in the ring keep their bytes, and the new ones can be read from the buffers of their slots. */
  ghost predicate Intact(was: seq<Slot>, mem0: seq<seq<nat>>, mem: seq<seq<nat>>, hwcur: nat, hwtail: nat,
                         ps: seq<seq<nat>>, n: nat)
  {
    && |was| == n && hwcur < n && hwtail < n && |ps| < n && 0 < |mem0| == |mem|
    && (forall x {:trigger was[x]} :: 0 <= x < n && Dist(hwcur, x, n) < Dist(hwcur, hwtail, n) ==>
          mem[BufferOf(was[x], |mem|)] == mem0[BufferOf(was[x], |mem|)])
    && (forall d {:trigger ps[d]} :: 0 <= d < |ps| ==>
          ps[d] <= mem[BufferOf(was[At(hwtail, d, n)], |mem|)])
  }

  /** The wanted packets from hwcur up to `to` have gone to the transmit rings, in order: all that were released, unless
      the rings are full.  Their slots, and no others of these, have another buffer. */
  ghost predicate Forwards(was: seq<Slot>, slots: seq<Slot>, hwcur: nat, rhead: nat, to: nat, n: nat, forward: bool, all: bool,
                           full: bool, v0: seq<seq<Slot>>, v: seq<seq<Slot>>, curs: seq<nat>, parts: seq<seq<Slot>>)
  {
    && |was| == n && hwcur < n && rhead < n && to < n && Dist(hwcur, to, n) <= Dist(hwcur, rhead, n)
    && (if forward then to == rhead || full else to == hwcur)
    && Flat(parts) == Picked(was, hwcur, Dist(hwcur, to, n), n, all)
    && |parts| == |v| && AllPlaced(v0, v, curs, parts) && Swept(was, slots, hwcur, Dist(hwcur, to, n), n, all)
    && forall x {:trigger slots[x]} :: 0 <= x < n && Dist(hwcur, to, n) <= Dist(hwcur, x, n) < Dist(hwcur, rhead, n) ==>
         slots[x] == was[x]
  }

  /** Where a slot lies that was imported, or is still held, when the slots from hwcur to rhead are given up. */
  lemma Regions(hwcur: nat, rhead: nat, hwtail: nat, len: nat, x: nat, n: nat)
    requires hwcur < n && rhead < n && hwtail < n && x < n
    requires Dist(hwcur, rhead, n) <= Dist(hwcur, hwtail, n) && Dist(hwcur, hwtail, n) + len <= n - 1
    ensures Dist(hwtail, x, n) < len ==> Dist(hwcur, rhead, n) <= Dist(hwcur, x, n)
    ensures Dist(rhead, x, n) < Dist(rhead, hwtail, n) ==> Dist(hwcur, rhead, n) <= Dist(hwcur, x, n) && len <= Dist(hwtail, x, n)
    ensures Dist(hwcur, x, n) < Dist(hwcur, rhead, n) ==> len <= Dist(hwtail, x, n)
  {
    DistAdd(hwcur, hwtail, x, n);
    DistAdd(hwcur, rhead, x, n);
    DistAdd(hwcur, rhead, hwtail, n);
    DistAdd(hwcur, x, hwtail, n);
    DistAdd(rhead, x, hwtail, n);
  }

  /** The bytes of slot x stay, whatever the next c packets are, exactly if no slot that they go to has its buffer. */
  lemma HeldIsKept(was: seq<Slot>, mem0: seq<seq<nat>>, size: nat, hwtail: nat, c: nat, n: nat, x: nat)
    requires |was| == n && hwtail < n && c < n && x < n && Uniform(mem0, size) && 0 < size
    ensures var bs, b := Targets(was, hwtail, c, n, |mem0|), BufferOf(was[x], |mem0|);
            (forall ps {:trigger Keeps(mem0, bs, ps, b)} :: Keeps(mem0, bs, ps, b))
            <==> forall y {:trigger was[y]} :: 0 <= y < n && Dist(hwtail, y, n) < c ==> BufferOf(was[y], |mem0|) != b
  {
    var bs, b := Targets(was, hwtail, c, n, |mem0|), BufferOf(was[x], |mem0|);
    KeptWhatever(mem0, bs, size, b);
    if b in bs {
      var d :| 0 <= d < c && bs[d] == b;
      DistAt(hwtail, d, n);
      assert BufferOf(was[At(hwtail, d, n)], |mem0|) == b;
    } else {
      forall y | 0 <= y < n && Dist(hwtail, y, n) < c ensures BufferOf(was[y], |mem0|) != b {
        assert bs[Dist(hwtail, y, n)] in bs;
      }
    }
  }

  /** The slots that are in the ring and those that are filled differ. */
  lemma Apart2(hwcur: nat, hwtail: nat, n: nat, c: nat, x: nat, d: nat)
    requires hwcur < n && hwtail < n && x < n && d < c && Dist(hwcur, hwtail, n) + c <= n - 1
    requires Dist(hwcur, x, n) < Dist(hwcur, hwtail, n)
    ensures At(hwtail, d, n) != x
  {
    DistAdd(hwcur, x, hwtail, n);
    DistAt(hwtail, d, n);
  }

  /** With separate buffers nothing is lost: a packet in the ring keeps its bytes. */
  lemma KeptIfOwned(was: seq<Slot>, more: multiset<nat>, mem0: seq<seq<nat>>, hwcur: nat, hwtail: nat, ps: seq<seq<nat>>,
                    n: nat, x: nat)
    requires |was| == n && hwcur < n && hwtail < n && x < n && Dist(hwcur, hwtail, n) + |ps| <= n - 1
    requires Owned(Bufs(was) + more, |mem0|) && Dist(hwcur, x, n) < Dist(hwcur, hwtail, n)
    ensures Keeps(mem0, Targets(was, hwtail, |ps|, n, |mem0|), ps, BufferOf(was[x], |mem0|))
  {
    var bs, b := Targets(was, hwtail, |ps|, n, |mem0|), BufferOf(was[x], |mem0|);
    forall d | 0 <= d < |bs| ensures bs[d] != b {
      var y := At(hwtail, d, n);
      Apart2(hwcur, hwtail, n, |ps|, x, d);
      OwnedApart(was, more, |mem0|, x, y);
      OwnedApart(was, more, |mem0|, y, x);
    }
    KeptIf(mem0, bs, ps, b);
  }

  lemma ShownIfOwned(was: seq<Slot>, more: multiset<nat>, mem0: seq<seq<nat>>, hwtail: nat, ps: seq<seq<nat>>, n: nat, d: nat)
    requires |was| == n && hwtail < n && d < |ps| < n && Owned(Bufs(was) + more, |mem0|)
    ensures Readable(mem0, Targets(was, hwtail, |ps|, n, |mem0|), ps, d)
  {
    var bs := Targets(was, hwtail, |ps|, n, |mem0|);
    forall e | d < e < |bs| ensures bs[e] != bs[d] {
      var x, y := At(hwtail, d, n), At(hwtail, e, n);
      DistAt(hwtail, d, n);
      DistAt(hwtail, e, n);
      OwnedApart(was, more, |mem0|, x, y);
      OwnedApart(was, more, |mem0|, y, x);
    }
    assert forall y {:trigger bs[d + 1..][y]} :: 0 <= y < |bs[d + 1..]| ==> bs[d + 1..][y] == bs[d + 1 + y];
    ShownIf(mem0, bs, ps, d);
  }

  /** If all buffers of the ring and of others are different, a sync leaves all packets intact. */
  lemma IntactIfOwned(was: seq<Slot>, more: multiset<nat>, mem0: seq<seq<nat>>, mem: seq<seq<nat>>, hwcur: nat, hwtail: nat,
                      ps: seq<seq<nat>>, n: nat)
    requires Landed(was, mem0, mem, hwtail, ps, n) && hwcur < n && Dist(hwcur, hwtail, n) + |ps| <= n - 1 && 0 < |mem0|
    requires Owned(Bufs(was) + more, |mem0|)
    ensures Intact(was, mem0, mem, hwcur, hwtail, ps, n)
  {
    var bs := Targets(was, hwtail, |ps|, n, |mem0|);
    forall x | 0 <= x < n && Dist(hwcur, x, n) < Dist(hwcur, hwtail, n)
      ensures mem[BufferOf(was[x], |mem|)] == mem0[BufferOf(was[x], |mem|)]
    {
      KeptIfOwned(was, more, mem0, hwcur, hwtail, ps, n, x);
    }
    forall d | 0 <= d < |ps| ensures ps[d] <= mem[BufferOf(was[At(hwtail, d, n)], |mem|)] {
      ShownIfOwned(was, more, mem0, hwtail, ps, n, d);
      assert bs[d] == BufferOf(was[At(hwtail, d, n)], |mem|);
    }
  }

  lemma ShownAfter(was: seq<Slot>, mid: seq<Slot>, slots: seq<Slot>,
                   hwcur: nat, rhead: nat, hwtail: nat, ps: seq<seq<nat>>, flags: nat, n: nat, d: nat)
    requires Imported(was, mid, hwtail, ps, flags, n) && hwcur < n && rhead < n
    requires Dist(hwcur, rhead, n) <= Dist(hwcur, hwtail, n) && Dist(hwcur, hwtail, n) + |ps| <= n - 1
    requires d <= Dist(hwcur, rhead, n) && Beyond(mid, slots, hwcur, d, n)
    ensures Shown(was, slots, hwcur, rhead, hwtail, ps, flags, n)
  {
  }

  /** The import does not change what is to be forwarded, nor which buffers there are. */
  lemma ForwardsBefore(was: seq<Slot>, mid: seq<Slot>, slots: seq<Slot>, hwcur: nat, rhead: nat,
                       hwtail: nat, ps: seq<seq<nat>>, flags: nat, n: nat, to: nat, forward: bool, all: bool, full: bool,
                       v0: seq<seq<Slot>>, v: seq<seq<Slot>>, curs: seq<nat>, parts: seq<seq<Slot>>)
    requires Imported(was, mid, hwtail, ps, flags, n)
    requires Forwards(mid, slots, hwcur, rhead, to, n, forward, all, full, v0, v, curs, parts)
    requires Dist(hwcur, rhead, n) <= Dist(hwcur, hwtail, n) && Dist(hwcur, hwtail, n) + |ps| <= n - 1
    ensures Forwards(was, slots, hwcur, rhead, to, n, forward, all, full, v0, v, curs, parts) == true
    ensures Bufs(mid) == Bufs(was)
  {
    var d := Dist(hwcur, to, n);
    forall x | 0 <= x < n && Dist(hwcur, x, n) < Dist(hwcur, rhead, n) ensures mid[x] == was[x] {
      Regions(hwcur, rhead, hwtail, |ps|, x, n);
    }
    PickedSame(was, mid, hwcur, d, n, all);
    SameBufs(was, mid);
  }

  lemma {:induction false} FlatNothing(parts: seq<seq<Slot>>)
    requires forall i {:trigger parts[i]} :: 0 <= i < |parts| ==> parts[i] == []
    ensures Flat(parts) == []
  {
    if parts != [] {
      FlatNothing(parts[..|parts| - 1]);
    }
  }

  lemma NothingPlaced(v: seq<seq<Slot>>, curs: seq<nat>, parts: seq<seq<Slot>>)
    requires |v| == |curs| == |parts| && forall i {:trigger parts[i]} :: 0 <= i < |parts| ==> parts[i] == []
    requires forall i {:trigger v[i]} :: 0 <= i < |v| ==> curs[i] < |v[i]|
    ensures AllPlaced(v, v, curs, parts) && Flat(parts) == []
  {
    FlatNothing(parts);
  }

  /** What one sync does to slots, bytes and buffers. */
  ghost predicate Synced(was: seq<Slot>, slots: seq<Slot>, mem0: seq<seq<nat>>, mem: seq<seq<nat>>, hwcur: nat, rhead: nat,
                         hwtail: nat, ps: seq<seq<nat>>, flags: nat, n: nat, bufs0: multiset<nat>, bufs: multiset<nat>)
  {
    && Shown(was, slots, hwcur, rhead, hwtail, ps, flags, n) && Landed(was, mem0, mem, hwtail, ps, n) && bufs == bufs0
    && (Owned(bufs0, |mem0|) ==> Intact(was, mem0, mem, hwcur, hwtail, ps, n))
  }

  lemma SyncedAfter(was: seq<Slot>, mid: seq<Slot>, slots: seq<Slot>, mem0: seq<seq<nat>>, mem: seq<seq<nat>>, hwcur: nat,
                    rhead: nat, hwtail: nat, ps: seq<seq<nat>>, flags: nat, n: nat, d: nat, more: multiset<nat>)
    requires Imported(was, mid, hwtail, ps, flags, n) && Landed(was, mem0, mem, hwtail, ps, n) && hwcur < n && rhead < n
    requires Dist(hwcur, rhead, n) <= Dist(hwcur, hwtail, n) && Dist(hwcur, hwtail, n) + |ps| <= n - 1 && 0 < |mem0|
    requires d <= Dist(hwcur, rhead, n) && Beyond(mid, slots, hwcur, d, n)
    ensures Synced(was, slots, mem0, mem, hwcur, rhead, hwtail, ps, flags, n, Bufs(was) + more, Bufs(was) + more) == true
  {
    ShownAfter(was, mid, slots, hwcur, rhead, hwtail, ps, flags, n, d);
    if Owned(Bufs(was) + more, |mem0|) {
      IntactIfOwned(was, more, mem0, mem, hwcur, hwtail, ps, n);
    }
  }

  lemma WriteBalances(slots: seq<Slot>, v: seq<seq<Slot>>, i: nat, s: Slot)
    requires i < |slots|
    ensures Everything(slots[i := s], v) == Everything(slots, v) - multiset{slots[i].bufIdx} + multiset{s.bufIdx}
  {
    StoreBalances(slots, i, s);
  }

  /** The ring as the run of events sees it: slots, buffers, indices, the queue, what was admitted and what has reached
      the ring; and which buffers the ring and the transmit rings have. */
  datatype Summary = Summary(slots: seq<Slot>, mem: seq<seq<nat>>, hwcur: nat, hwtail: nat, rhead: nat, head: nat, cur: nat,
                             waiting: seq<seq<nat>>, admitted: seq<seq<nat>>, imported: seq<seq<nat>>, bufs: multiset<nat>)

  /** The stack finds the interface on, a buffer that is large enough, and a slot. */
  predicate Admits(a: Summary, data: seq<nat>, on: bool, size: nat, n: nat) {
    a.hwcur < n && a.hwtail < n && on && |data| <= size && Dist(a.hwcur, a.hwtail, n) + |a.waiting| < n - 1
  }

  predicate MayMove(a: Summary, head: nat, cur: nat, n: nat) {
    && a.hwcur < n && a.hwtail < n && a.rhead < n && head < n && cur < n
    && Dist(a.hwcur, a.rhead, n) <= Dist(a.hwcur, head, n) <= Dist(a.hwcur, cur, n) <= Dist(a.hwcur, a.hwtail, n)
  }

  predicate MayWrite(a: Summary, i: nat, n: nat) {
    && a.hwcur < n && a.hwtail < n && i < n && |a.slots| == n && 0 < |a.mem|
    && Dist(a.hwcur, i, n) < Dist(a.hwcur, a.hwtail, n)
  }

  ghost function Queued(a: Summary, ps: seq<seq<nat>>): Summary {
    a.(waiting := a.waiting + ps, admitted := a.admitted + ps)
  }

  ghost function Written(a: Summary, i: nat, s: Slot): Summary
    requires i < |a.slots|
  {
    a.(slots := a.slots[i := s], bufs := a.bufs - multiset{a.slots[i].bufIdx} + multiset{s.bufIdx})
  }

  ghost function Filled(a: Summary, i: nat, len: nat, flags: nat, bytes: seq<nat>): Summary
    requires i < |a.slots| && 0 < |a.mem| && |bytes| <= |a.mem[BufferOf(a.slots[i], |a.mem|)]|
  {
    var b := BufferOf(a.slots[i], |a.mem|);
    a.(slots := a.slots[i := Slot(a.slots[i].bufIdx, len, flags)], mem := a.mem[b := Over(a.mem[b], bytes)])
  }

  /** What an event does. */
  ghost predicate Follows(a: Summary, e: Event, b: Summary, size: nat, n: nat) {
    match e
    case Packet(data, on) => b == if Admits(a, data, on, size, n) then Queued(a, [data]) else a
    case Moves(h, c) => b == if MayMove(a, h, c, n) then a.(head := h, cur := c) else a
    case Writes(i, s) => b == if MayWrite(a, i, n) then Written(a, i, s) else a
    case Fills(i, len, flags, bytes) =>
      if MayWrite(a, i, n) && |bytes| <= size
      then |a.mem[BufferOf(a.slots[i], |a.mem|)]| == size && b == Filled(a, i, len, flags, bytes)
      else b == a
    case Syncs(flags, _, _) =>
      && a.hwtail < n && |a.waiting| < n
      && Synced(a.slots, b.slots, a.mem, b.mem, a.hwcur, a.rhead, a.hwtail, a.waiting, flags, n, a.bufs, b.bufs)
      && b == a.(slots := b.slots, mem := b.mem, hwcur := a.rhead, hwtail := At(a.hwtail, |a.waiting|, n),
                 rhead := a.head, waiting := [], imported := a.admitted)
  }

  lemma SyncFollows(a: Summary, b: Summary, flags: nat, forward: bool, all: bool, size: nat, n: nat)
    requires a.hwtail < n && |a.waiting| < n
    requires Synced(a.slots, b.slots, a.mem, b.mem, a.hwcur, a.rhead, a.hwtail, a.waiting, flags, n, a.bufs, b.bufs)
    requires b.hwcur == a.rhead && b.hwtail == At(a.hwtail, |a.waiting|, n) && b.rhead == a.head && b.head == a.head
    requires b.cur == a.cur && b.waiting == [] && b.admitted == a.admitted == b.imported
    ensures Follows(a, Syncs(flags, forward, all), b, size, n)
  {
  }

  ghost predicate Trace(trace: seq<Summary>, script: seq<Event>, size: nat, n: nat) {
    && 0 < |trace| <= |script| + 1
    && forall j {:trigger script[j]} :: 0 <= j < |trace| - 1 ==> Follows(trace[j], script[j], trace[j + 1], size, n)
  }

  lemma TraceMore(trace: seq<Summary>, script: seq<Event>, size: nat, n: nat, b: Summary)
    requires Trace(trace, script, size, n) && |trace| <= |script|
    requires Follows(trace[|trace| - 1], script[|trace| - 1], b, size, n)
    ensures Trace(trace + [b], script, size, n)
  {
  }

  /** A user that stores no other buffers keeps those of all rings. */
  lemma {:induction false} BuffersStay(trace: seq<Summary>, script: seq<Event>, size: nat, n: nat, i: nat)
    requires Trace(trace, script, size, n) && i < |trace| && forall j {:trigger script[j]} :: 0 <= j < i ==> !script[j].Writes?
    ensures trace[i].bufs == trace[0].bufs && |trace[i].mem| == |trace[0].mem|
  {
    if i > 0 {
      BuffersStay(trace, script, size, n, i - 1);
      assert Follows(trace[i - 1], script[i - 1], trace[i], size, n);
    }
  }

  /** In every run of such a user, with separate buffers at the start: at every sync, what the user holds is not
      overwritten, and new packets are shown with their bytes. */
  lemma HeldInRuns(trace: seq<Summary>, script: seq<Event>, size: nat, n: nat, i: nat)
    requires Trace(trace, script, size, n) && i < |trace| - 1 && script[i].Syncs?
    requires forall j {:trigger script[j]} :: 0 <= j < i ==> !script[j].Writes?
    requires Owned(trace[0].bufs, |trace[0].mem|)
    ensures var a, b := trace[i], trace[i + 1];
            && Intact(a.slots, a.mem, b.mem, a.hwcur, a.hwtail, a.waiting, n)
            && HeldSlots(a.slots, b.slots, a.hwcur, a.rhead, a.hwtail, |a.waiting|, n)
  {
    BuffersStay(trace, script, size, n, i);
    var a, b := trace[i], trace[i + 1];
    assert Follows(a, script[i], b, size, n);
    HeldStay(a.slots, b.slots, a.hwcur, a.rhead, a.hwtail, a.waiting, script[i].flags, n);
  }

  /** If so many packets fit, the slots that the user had not released are as they were. */
  ghost predicate HeldSlots(was: seq<Slot>, slots: seq<Slot>, hwcur: nat, rhead: nat, hwtail: nat, c: nat, n: nat) {
    && |was| == |slots| == n && hwcur < n && rhead < n && hwtail < n
    && (Dist(hwcur, rhead, n) <= Dist(hwcur, hwtail, n) && Dist(hwcur, hwtail, n) + c <= n - 1 ==>
          forall x {:trigger slots[x]} :: 0 <= x < n && Dist(rhead, x, n) < Dist(rhead, hwtail, n) ==> slots[x] == was[x])
  }

  lemma HeldStay(was: seq<Slot>, slots: seq<Slot>, hwcur: nat, rhead: nat, hwtail: nat, ps: seq<seq<nat>>, flags: nat, n: nat)
    requires Shown(was, slots, hwcur, rhead, hwtail, ps, flags, n)
    ensures HeldSlots(was, slots, hwcur, rhead, hwtail, |ps|, n)
  {
    if Dist(hwcur, rhead, n) <= Dist(hwcur, hwtail, n) && Dist(hwcur, hwtail, n) + |ps| <= n - 1 {
      forall x | 0 <= x < n && Dist(rhead, x, n) < Dist(rhead, hwtail, n) ensures slots[x] == was[x] {
        Regions(hwcur, rhead, hwtail, |ps|, x, n);
      }
    }
  }

  /* ---- a user that stores a buffer twice ---- */

  const BEFORE: seq<Slot> := [Slot(2, 1, 0), Slot(3, 1, 0), Slot(4, 1, 0), Slot(5, 1, 0)]
  const DOUBLED: seq<Slot> := [Slot(4, 1, 0), Slot(3, 1, 0), Slot(4, 1, 0), Slot(5, 1, 0)]

  /** Six buffers of one byte. */
  const ZEROS: seq<seq<nat>> := [[0], [0], [0], [0], [0], [0]]

  lemma ReadTwice()
    ensures Owned(Bufs(BEFORE), 6) && Bufs(DOUBLED) == Bufs(BEFORE) - multiset{2} + multiset{4} && !Owned(Bufs(DOUBLED), 6)
  {
    assert Indices(BEFORE) == [2, 3, 4, 5] && Indices(DOUBLED) == [4, 3, 4, 5];
    assert Bufs(DOUBLED)[4] == 2;
  }

  /** Two packets to slots 3 and 0: the second lands in the buffer of slot 2. */
  lemma TwoLand()
    ensures Landed(DOUBLED, ZEROS, [[0], [0], [0], [0], [8], [7]], 3, [[7], [8]], 4)
  {
    ImportedNone(DOUBLED, ZEROS, 3, 0, 4);
    LandedMore(DOUBLED, ZEROS, ZEROS, 3, [], 4, 1, 3, [7]);
    assert Over([0], [7]) == [7] && Over([0], [8]) == [8];
    assert [] + [[7]] == [[7]] && ZEROS[5 := Over(ZEROS[5], [7])] == [[0], [0], [0], [0], [0], [7]];
    LandedMore(DOUBLED, ZEROS, [[0], [0], [0], [0], [0], [7]], 3, [[7]], 4, 1, 0, [8]);
    assert [[7]] + [[8]] == [[7], [8]];
    assert [[0], [0], [0], [0], [0], [7]][4 := [8]] == [[0], [0], [0], [0], [8], [7]];
  }

  /** The user holds slots 0 to 2, and has released 0 and 1. */
  ghost function State0(): Summary {
    Summary(BEFORE, ZEROS, 0, 3, 2, 2, 2, [], [], [], Bufs(BEFORE))
  }

  /** It stores the buffer of slot 2 also in slot 0. */
  ghost function State1(): Summary {
    Summary(DOUBLED, ZEROS, 0, 3, 2, 2, 2, [], [], [], Bufs(DOUBLED))
  }

  ghost function State2(): Summary {
    State1().(hwcur := 2)
  }

  ghost function State3(): Summary {
    State2().(waiting := [[7]], admitted := [[7]])
  }

  ghost function State4(): Summary {
    State2().(waiting := [[7], [8]], admitted := [[7], [8]])
  }

  ghost function State5(): Summary {
    State2().(mem := [[0], [0], [0], [0], [8], [7]], hwtail := 1, admitted := [[7], [8]], imported := [[7], [8]])
  }

  lemma Store0()
    ensures Follows(State0(), Writes(0, Slot(4, 1, 0)), State1(), 1, 4)
  {
    ReadTwice();
    assert BEFORE[0 := Slot(4, 1, 0)] == DOUBLED;
  }

  lemma Sync1()
    ensures Follows(State1(), Syncs(0, false, false), State2(), 1, 4)
  {
    ReadTwice();
    ImportedNone(DOUBLED, ZEROS, 3, 0, 4);
    SyncFollows(State1(), State2(), 0, false, false, 1, 4);
  }

  lemma Packets23()
    ensures Follows(State2(), Packet([7], true), State3(), 1, 4)
    ensures Follows(State3(), Packet([8], true), State4(), 1, 4)
  {
    assert [] + [[7]] == [[7]] && [[7]] + [[8]] == [[7], [8]];
  }

  lemma Sync4()
    ensures Follows(State4(), Syncs(0, false, false), State5(), 1, 4)
  {
    ReadTwice();
    TwoLand();
    SyncFollows(State4(), State5(), 0, false, false, 1, 4);
  }

  /** Two packets after that, the packet in slot 2, which the user has not released, is another one. */
  lemma HeldIsOverwritten() returns (script: seq<Event>, trace: seq<Summary>)
    ensures |trace| == 6 && Trace(trace, script, 1, 4) == true && trace[0] == State0() && trace[5] == State5()
    ensures Owned(State0().bufs, |State0().mem|)
    ensures MayWrite(State0(), 2, 4) && MayWrite(State5(), 2, 4) && State0().slots[2] == State5().slots[2] == Slot(4, 1, 0)
    ensures State0().mem[4] == [0] && State5().mem[4] == [8]
  {
    ReadTwice();
    Store0();
    Sync1();
    Packets23();
    Sync4();
    script := [Writes(0, Slot(4, 1, 0)), Syncs(0, false, false), Packet([7], true), Packet([8], true), Syncs(0, false, false)];
    trace := [State0()];
    TraceMore(trace, script, 1, 4, State1());
    TraceMore(trace + [State1()], script, 1, 4, State2());
    TraceMore(trace + [State1()] + [State2()], script, 1, 4, State3());
    TraceMore(trace + [State1()] + [State2()] + [State3()], script, 1, 4, State4());
    TraceMore(trace + [State1()] + [State2()] + [State3()] + [State4()], script, 1, 4, State5());
    trace := trace + [State1()] + [State2()] + [State3()] + [State4()] + [State5()];
  }

  class HostRx {
    const k: Kring
    const slots: array<Slot>
    /** The buffers, all of this size. */
    const mem: array<seq<nat>>
    const size: nat
    const q: Queue
    /** All packets that were admitted, and those that have reached the ring. */
    ghost var admitted: seq<seq<nat>>
    ghost var imported: seq<seq<nat>>

    ghost predicate Shape() {
      k.n == slots.Length && 2 <= k.n
    }

    /** Packets in the ring. */
    ghost function Busy(): nat
      reads k`hwcur, k`hwtail
      requires k.hwcur < k.n && k.hwtail < k.n
    {
      Dist(k.hwcur, k.hwtail, k.n)
    }

    /** What the admission test keeps: all queued packets will find a free slot. */
    ghost predicate Room()
      reads k`hwcur, k`hwtail, q`count
    {
      k.hwcur < k.n && k.hwtail < k.n && Busy() + q.count <= k.n - 1
    }

    /** The user advances head and cur within what it was shown. */
    ghost predicate User()
      reads k
    {
      && k.head < k.n && k.cur < k.n && k.Ordered()
      && Dist(k.hwcur, k.rhead, k.n) <= Dist(k.hwcur, k.head, k.n)
           <= Dist(k.hwcur, k.cur, k.n) <= Dist(k.hwcur, k.rtail, k.n)
    }

    /** The queue holds what was admitted and is not in the ring, and all of it fits a buffer. */
    ghost predicate Waiting()
      reads this, q, q.packets`next
    {
      q.Valid() && admitted == imported + Data(q.packets) && Fit(Data(q.packets), size)
    }

    ghost predicate Valid()
      reads this, k, q, q.packets`next, mem
    {
      Shape() && Room() && User() && k.rtail == k.hwtail && Waiting() && Uniform(mem[..], size)
    }

    constructor (bufs: seq<Slot>, count: nat, bytes: nat)
      requires 2 <= |bufs| && 0 < count
      ensures Valid() && q.packets == [] && slots[..] == bufs && fresh(k) && fresh(slots) && fresh(mem) && fresh(q)
      ensures admitted == [] && size == bytes && mem.Length == count
    {
      k := new Kring.Rx(|bufs|);
      slots := new Slot[|bufs|](i requires 0 <= i < |bufs| => bufs[i]);
      mem, size := new seq<nat>[count](_ => seq(bytes, _ => 0)), bytes;
      q := new Queue();
      admitted, imported := [], [];
    }

    /** netmap_transmit: a packet is queued when it fits a buffer and the ring will have a slot for it. */
    method Transmit(m: Mbuf, on: bool) returns (ok: bool)
      requires Valid() && m !in q.packets
      modifies this`admitted, q, m`next, q.packets`next
      ensures Valid() && (ok <==> on && |m.data| <= size && old(Busy() + q.count) < k.n - 1)
      ensures q.packets == if ok then old(q.packets) + [m] else old(q.packets)
      ensures admitted == if ok then old(admitted) + [m.data] else old(admitted)
    {
      if !on { return false; }
      if |m.data| > size { return false; }
      var space := k.hwtail - k.hwcur;
      if space < 0 { space := space + k.n; }
      if space + q.count >= k.n - 1 { return false; }
      DataMore(q.packets, m);
      q.Enqueue(m);
      admitted := admitted + [m.data];
      ok := true;
    }

    /** The first c of these packets have gone from the queue to the ring. */
    ghost predicate Importing(was: seq<Slot>, mem0: seq<seq<nat>>, all: seq<Mbuf>, c: nat, flags: nat)
      reads q, q.packets`next, k`hwtail, slots, mem
    {
      && q.Valid() && c <= |all| < k.n && q.packets == all[c..] && Uniform(mem0, size) && Fit(Data(all), size)
      && Imported(was, slots[..], k.hwtail, Data(all)[..c], flags, k.n)
      && Landed(was, mem0, mem[..], k.hwtail, Data(all)[..c], k.n)
    }

    /** A packet goes to the slot nmI and its buffer. */
    method Fill(m: Mbuf, nmI: nat, flags: nat, ghost was: seq<Slot>, ghost mem0: seq<seq<nat>>, ghost ps: seq<seq<nat>>)
      requires Shape() && k.hwtail < k.n && nmI < k.n && Dist(k.hwtail, nmI, k.n) == |ps| < k.n - 1
      requires Imported(was, slots[..], k.hwtail, ps, flags, k.n) && Landed(was, mem0, mem[..], k.hwtail, ps, k.n)
      requires Uniform(mem0, size) && |m.data| <= size
      modifies slots, mem
      ensures Imported(was, slots[..], k.hwtail, ps + [m.data], flags, k.n)
      ensures Landed(was, mem0, mem[..], k.hwtail, ps + [m.data], k.n)
    {
      ghost var ss, ms := slots[..], mem[..];
      ImportedMore(was, ss, k.hwtail, ps, flags, k.n, nmI, m.data);
      LandedMore(was, mem0, ms, k.hwtail, ps, k.n, size, nmI, m.data);
      var b := BufferOf(slots[nmI], mem.Length);
      mem[b] := Over(mem[b], m.data);
      slots[nmI] := Slot(slots[nmI].bufIdx, |m.data|, flags);
      assert mem[..] == ms[b := Over(ms[b], m.data)] && slots[..] == ss[nmI := Slot(ss[nmI].bufIdx, |m.data|, flags)];
    }

    /** One turn of the import loop. */
    method ImportOne(nmI: nat, flags: nat, ghost was: seq<Slot>, ghost mem0: seq<seq<nat>>, ghost all: seq<Mbuf>, ghost c: nat)
      returns (got: bool)
      requires Shape() && k.hwtail < k.n && c < k.n - 1 && nmI == At(k.hwtail, c, k.n)
      requires Importing(was, mem0, all, c, flags)
      modifies q, q.packets`next, slots, mem
      ensures (got <==> c < |all|) && Importing(was, mem0, all, if got then c + 1 else c, flags) == true
    {
      NextPacket(all, c);
      var m := q.Dequeue();
      if m == null { return false; }
      DistAt(k.hwtail, c, k.n);
      assert Data(all)[c] == m.data;
      Fill(m, nmI, flags, was, mem0, Data(all)[..c]);
      got := true;
    }

    /** The import loop.  It looks at hwtail only, and still ends when all packets are there. */
    method ImportLoop(flags: nat, ghost was: seq<Slot>, ghost mem0: seq<seq<nat>>, ghost all: seq<Mbuf>) returns (nmI: nat)
      requires Shape() && k.hwtail < k.n && Importing(was, mem0, all, 0, flags)
      modifies q, q.packets`next, slots, mem
      ensures Importing(was, mem0, all, |all|, flags) == true && nmI == At(k.hwtail, |all|, k.n)
    {
      nmI := k.hwtail;
      var stop := Prev(nmI, k.n - 1);
      ghost var c := 0;
      while nmI != stop
        invariant Importing(was, mem0, all, c, flags) == true && c <= |all| < k.n && nmI == At(k.hwtail, c, k.n)
        decreases |all| - c, nmI != stop
      {
        var got := ImportOne(nmI, flags, was, mem0, all, c);
        if !got { break; }
        NextAt(k.hwtail, c, k.n);
        nmI, c := Next(nmI, k.n - 1), c + 1;
      }
    }

    method ImportAll(flags: nat) returns (nmI: nat)
      requires Shape() && q.Valid() && Room() && Uniform(mem[..], size) && Fit(Data(q.packets), size)
      modifies q, q.packets`next, slots, mem
      ensures q.Valid() && q.packets == [] && nmI == At(k.hwtail, old(q.count), k.n)
      ensures Imported(old(slots[..]), slots[..], k.hwtail, Data(old(q.packets)), flags, k.n)
      ensures Landed(old(slots[..]), old(mem[..]), mem[..], k.hwtail, Data(old(q.packets)), k.n)
    {
      ghost var all := q.packets;
      ImportedNone(slots[..], mem[..], k.hwtail, flags, k.n);
      assert all[0..] == all && Data(all)[..0] == [];
      nmI := ImportLoop(flags, slots[..], mem[..], all);
      NextPacket(all, |all|);
    }

    /** First part of the sync: the whole queue goes to the ring; the transmit rings stay as they are. */
    method Import(flags: nat, ghost rings: seq<UserRing>)
      requires Shape() && Room() && Waiting() && Uniform(mem[..], size)
      requires slots !in Arrays(rings)
      modifies this`imported, k`hwtail, q, q.packets`next, slots, mem
      ensures Each(rings) == old(Each(rings)) && Curs(rings) == old(Curs(rings)) && AllValid(rings) == old(AllValid(rings))
      ensures q.Valid() && q.packets == [] && imported == admitted
      ensures k.hwtail == At(old(k.hwtail), old(q.count), k.n)
      ensures Imported(old(slots[..]), slots[..], old(k.hwtail), Data(old(q.packets)), flags, k.n) == true
      ensures Landed(old(slots[..]), old(mem[..]), mem[..], old(k.hwtail), Data(old(q.packets)), k.n) == true
    {
      if q.count != 0 {
        var nmI := ImportAll(flags);
        k.hwtail := nmI;
      } else {
        ImportedNone(slots[..], mem[..], k.hwtail, flags, k.n);
      }
      imported := admitted;
    }

    /** All packets are in the ring. */
    ghost predicate Pending()
      reads this, k, q, q.packets`next, mem
    {
      && Shape() && q.Valid() && q.packets == [] && imported == admitted && Uniform(mem[..], size)
      && k.hwcur < k.n && k.rhead < k.n && k.hwtail < k.n && k.head < k.n && k.cur < k.n
      && InOrder(k.rhead, k.head, k.cur, k.hwtail, k.n)
    }

    /** netmap_sw_to_nic touches nothing else. */
    method ToNic(rings: seq<UserRing>, all: bool) returns (ghost to: nat, ghost parts: seq<seq<Slot>>)
      requires Pending() && Apart(rings) && AllValid(rings) && slots !in Arrays(rings)
      modifies slots, rings, Arrays(rings)
      ensures Pending() && AllValid(rings) && to < k.n
      ensures Forwards(old(slots[..]), slots[..], k.hwcur, k.rhead, to, k.n, true, all, Done(rings, 0, |rings|),
                       old(Each(rings)), Each(rings), old(Curs(rings)), parts)
      ensures Beyond(old(slots[..]), slots[..], k.hwcur, Dist(k.hwcur, to, k.n), k.n)
      ensures Everything(slots[..], Each(rings)) == old(Everything(slots[..], Each(rings)))
    {
      var sent, rxcur;
      sent, rxcur, parts := SwToNic(slots, k.hwcur, k.rhead, rings, all);
      to := rxcur;
    }

    /** What the user has released is forwarded, if so configured. */
    method Forward(forward: bool, rings: seq<UserRing>, all: bool)
      returns (ghost to: nat, ghost parts: seq<seq<Slot>>)
      requires Pending() && Apart(rings) && AllValid(rings) && slots !in Arrays(rings)
      modifies slots, rings, Arrays(rings)
      ensures Pending() && AllValid(rings) && to < k.n
      ensures Forwards(old(slots[..]), slots[..], k.hwcur, k.rhead, to, k.n, forward, all, Done(rings, 0, |rings|),
                       old(Each(rings)), Each(rings), old(Curs(rings)), parts)
      ensures Beyond(old(slots[..]), slots[..], k.hwcur, Dist(k.hwcur, to, k.n), k.n)
      ensures Everything(slots[..], Each(rings)) == old(Everything(slots[..], Each(rings)))
    {
      if k.hwcur != k.rhead && forward {
        to, parts := ToNic(rings, all);
      } else {
        to := k.hwcur;
        parts := seq(|rings|, _ => []);
        NothingPlaced(Each(rings), Curs(rings), parts);
      }
    }

    /** Second part of the sync: what the user has released is forwarded and recovered. */
    method Recover(forward: bool, rings: seq<UserRing>, all: bool)
      returns (ghost to: nat, ghost parts: seq<seq<Slot>>)
      requires Pending() && Apart(rings) && AllValid(rings) && slots !in Arrays(rings)
      modifies k`hwcur, slots, rings, Arrays(rings)
      ensures Pending() == true && k.hwcur == k.rhead && AllValid(rings) == true && to < k.n
      ensures Forwards(old(slots[..]), slots[..], old(k.hwcur), k.rhead, to, k.n, forward, all, Done(rings, 0, |rings|),
                       old(Each(rings)), Each(rings), old(Curs(rings)), parts) == true
      ensures Beyond(old(slots[..]), slots[..], old(k.hwcur), Dist(old(k.hwcur), to, k.n), k.n) == true
      ensures Everything(slots[..], Each(rings)) == old(Everything(slots[..], Each(rings)))
    {
      to, parts := Forward(forward, rings, all);
      SetHwcur(rings);
    }

    method SetHwcur(ghost rings: seq<UserRing>)
      requires Pending()
      modifies k`hwcur
      ensures Pending() && k.hwcur == k.rhead && AllValid(rings) == old(AllValid(rings))
      ensures Each(rings) == old(Each(rings)) && Done(rings, 0, |rings|) == old(Done(rings, 0, |rings|))
    {
      assert forall i :: 0 <= i < |rings| ==> rings[i] as object != k as object;
      if k.hwcur != k.rhead {
        k.hwcur := k.rhead;
      }
    }

    /** Both parts of the sync. */
    method ImportAndRecover(flags: nat, forward: bool, rings: seq<UserRing>, all: bool)
      returns (ghost to: nat, ghost parts: seq<seq<Slot>>)
      requires Shape() && Room() && Waiting() && Uniform(mem[..], size)
      requires k.rhead < k.n && Dist(k.hwcur, k.rhead, k.n) <= Dist(k.hwcur, k.hwtail, k.n) && k.head < k.n && k.cur < k.n
      requires InOrder(k.rhead, k.head, k.cur, At(k.hwtail, q.count, k.n), k.n)
      requires Apart(rings) && AllValid(rings) && slots !in Arrays(rings)
      modifies this`imported, k`hwcur, k`hwtail, q, q.packets`next, slots, mem, rings, Arrays(rings)
      ensures AllValid(rings) == true && Pending() == true && k.hwcur == k.rhead
      ensures k.hwtail == At(old(k.hwtail), old(q.count), k.n)
      ensures Synced(old(slots[..]), slots[..], old(mem[..]), mem[..], old(k.hwcur), k.rhead, old(k.hwtail), Data(old(q.packets)),
                     flags, k.n, old(Everything(slots[..], Each(rings))), Everything(slots[..], Each(rings))) == true
      ensures Forwards(old(slots[..]), slots[..], old(k.hwcur), k.rhead, to, k.n, forward, all, Done(rings, 0, |rings|),
                       old(Each(rings)), Each(rings), old(Curs(rings)), parts) == true
    {
      ghost var was, mem0, c, t, ps := slots[..], mem[..], k.hwcur, k.hwtail, Data(q.packets);
      ghost var v0, curs := Each(rings), Curs(rings);
      Import(flags, rings);
      ghost var mid, mem1 := slots[..], mem[..];
      to, parts := Recover(forward, rings, all);
      assert mem[..] == mem1;
      StillUniform(was, mem0, mem1, t, ps, k.n, size);
      ForwardsBefore(was, mid, slots[..], c, k.rhead, t, ps, flags, k.n, to, forward, all, Done(rings, 0, |rings|),
                     v0, Each(rings), curs, parts);
      SyncedAfter(was, mid, slots[..], mem0, mem1, c, k.rhead, t, ps, flags, k.n, Dist(c, to, k.n), Sum(v0));
    }

    /** The end of the sync. */
    method Finish(ghost rings: seq<UserRing>)
      requires Pending() && k.hwcur == k.rhead
      modifies k`rtail, k`tail, k`rhead, k`rcur
      ensures Valid() && k.rhead == k.head
      ensures Each(rings) == old(Each(rings)) && Done(rings, 0, |rings|) == old(Done(rings, 0, |rings|))
      ensures AllValid(rings) == old(AllValid(rings))
    {
      k.RxSyncFinalize();
    }

    /** netmap_rxsync_from_host: the whole queue goes to the ring, in order; packets that the user had released at the
        previous sync are forwarded to the transmit rings, and their slots recovered.  No buffer is lost or doubled, and
        if the buffers are separate no packet in the ring is overwritten. */
    method RxSync(flags: nat, forward: bool, rings: seq<UserRing>, all: bool)
      returns (ghost to: nat, ghost parts: seq<seq<Slot>>)
      requires Valid() && Apart(rings) && AllValid(rings) && slots !in Arrays(rings)
      modifies this`imported, k`hwcur, k`hwtail, k`rtail, k`tail, k`rhead, k`rcur, q, q.packets`next, slots, mem
      modifies rings, Arrays(rings)
      ensures Valid() && AllValid(rings) && q.packets == [] && imported == admitted
      ensures k.hwcur == old(k.rhead) && k.hwtail == At(old(k.hwtail), old(q.count), k.n) && k.rhead == k.head
      ensures Synced(old(slots[..]), slots[..], old(mem[..]), mem[..], old(k.hwcur), old(k.rhead), old(k.hwtail),
                     Data(old(q.packets)), flags, k.n, old(Everything(slots[..], Each(rings))),
                     Everything(slots[..], Each(rings)))
      ensures Forwards(old(slots[..]), slots[..], old(k.hwcur), old(k.rhead), to, k.n, forward, all, Done(rings, 0, |rings|),
                       old(Each(rings)), Each(rings), old(Curs(rings)), parts)
    {
      AfterSync(k.hwcur, k.hwtail, q.count, k.rhead, k.head, k.cur, k.rtail, k.n);
      to, parts := ImportAndRecover(flags, forward, rings, all);
      Finish(rings);
    }

    /** The user advances head and cur. */
    method MoveHead(head: nat, cur: nat, ghost rings: seq<UserRing>)
      requires Valid() && head < k.n && cur < k.n
      requires Dist(k.hwcur, k.rhead, k.n) <= Dist(k.hwcur, head, k.n)
                 <= Dist(k.hwcur, cur, k.n) <= Dist(k.hwcur, k.hwtail, k.n)
      modifies k`head, k`cur
      ensures Valid() && k.head == head && k.cur == cur
      ensures Each(rings) == old(Each(rings)) && AllValid(rings) == old(AllValid(rings))
    {
      assert forall i :: 0 <= i < |rings| ==> rings[i] as object != k as object;
      k.head, k.cur := head, cur;
    }

    /** The user stores a slot that it was shown, with any buffer. */
    method WriteSlot(i: nat, s: Slot, ghost rings: seq<UserRing>)
      requires Valid() && i < k.n && Dist(k.hwcur, i, k.n) < Dist(k.hwcur, k.hwtail, k.n) && slots !in Arrays(rings)
      modifies slots
      ensures Valid() && slots[..] == old(slots[..])[i := s] && Each(rings) == old(Each(rings))
    {
      slots[i] := s;
    }

    /** The user fills a slot that it was shown, and its buffer. */
    method FillSlot(i: nat, len: nat, flags: nat, bytes: seq<nat>, ghost rings: seq<UserRing>)
      requires Valid() && i < k.n && Dist(k.hwcur, i, k.n) < Dist(k.hwcur, k.hwtail, k.n) && |bytes| <= size
      requires slots !in Arrays(rings)
      modifies slots, mem
      ensures Each(rings) == old(Each(rings))
      ensures Valid() && slots[..] == old(slots[..])[i := Slot(old(slots[i]).bufIdx, len, flags)]
      ensures var b := BufferOf(old(slots[i]), mem.Length);
              b < mem.Length && |old(mem[..])[b]| == size && mem[..] == old(mem[..])[b := Over(old(mem[..])[b], bytes)]
    {
      var b := BufferOf(slots[i], mem.Length);
      assert |mem[..][b]| == size;
      mem[b] := Over(mem[b], bytes);
      slots[i] := Slot(slots[i].bufIdx, len, flags);
    }

    /** The ring together with these transmit rings. */
    ghost function Abs(rings: seq<UserRing>): Summary
      reads this, k, slots, mem, q, Arrays(rings)
    {
      Summary(slots[..], mem[..], k.hwcur, k.hwtail, k.rhead, k.head, k.cur, Data(q.packets), admitted, imported,
              Everything(slots[..], Each(rings)))
    }

    /** The stack sends a packet. */
    method Send(data: seq<nat>, on: bool, ghost rings: seq<UserRing>) returns (ok: bool)
      requires Valid()
      modifies this`admitted, q, q.packets`next
      ensures Valid() && (ok <==> on && |data| <= size && old(Busy() + q.count) < k.n - 1)
      ensures Data(q.packets) == Data(old(q.packets)) + if ok then [data] else []
      ensures admitted == old(admitted) + if ok then [data] else []
      ensures Each(rings) == old(Each(rings)) && AllValid(rings) == old(AllValid(rings))
      ensures forall j {:trigger q.packets[j]} :: 0 <= j < |q.packets| ==> fresh(q.packets[j]) || q.packets[j] in old(q.packets)
    {
      var m := new Mbuf(data);
      DataMore(q.packets, m);
      ok := Transmit(m, on);
    }

    method HappenPacket(data: seq<nat>, on: bool, ghost rings: seq<UserRing>)
      requires Valid()
      modifies this`admitted, q, q.packets`next
      ensures Valid() && Follows(old(Abs(rings)), Packet(data, on), Abs(rings), size, k.n)
      ensures AllValid(rings) == old(AllValid(rings))
      ensures forall j {:trigger q.packets[j]} :: 0 <= j < |q.packets| ==> fresh(q.packets[j]) || q.packets[j] in old(q.packets)
    {
      var ok := Send(data, on, rings);
    }

    method HappenMoves(h: nat, c: nat, ghost rings: seq<UserRing>)
      requires Valid()
      modifies k`head, k`cur
      ensures Valid() == true && Follows(old(Abs(rings)), Moves(h, c), Abs(rings), size, k.n) == true
      ensures AllValid(rings) == old(AllValid(rings))
    {
      if h < k.n && c < k.n && Dist(k.hwcur, k.rhead, k.n) <= Dist(k.hwcur, h, k.n)
         <= Dist(k.hwcur, c, k.n) <= Dist(k.hwcur, k.hwtail, k.n) { MoveHead(h, c, rings); }
    }

    method HappenWrites(i: nat, s: Slot, ghost rings: seq<UserRing>)
      requires Valid() && slots !in Arrays(rings)
      modifies slots
      ensures Valid() == true && Follows(old(Abs(rings)), Writes(i, s), Abs(rings), size, k.n) == true
    {
      if i < k.n && Dist(k.hwcur, i, k.n) < Dist(k.hwcur, k.hwtail, k.n) {
        WriteBalances(slots[..], Each(rings), i, s);
        WriteSlot(i, s, rings);
      }
    }

    method HappenFills(i: nat, len: nat, flags: nat, bytes: seq<nat>, ghost rings: seq<UserRing>)
      requires Valid() && slots !in Arrays(rings)
      modifies slots, mem
      ensures Valid() == true && Follows(old(Abs(rings)), Fills(i, len, flags, bytes), Abs(rings), size, k.n) == true
    {
      if i < k.n && Dist(k.hwcur, i, k.n) < Dist(k.hwcur, k.hwtail, k.n) && |bytes| <= size {
        SameBufs(slots[..], slots[..][i := Slot(slots[i].bufIdx, len, flags)]);
        FillSlot(i, len, flags, bytes, rings);
      }
    }

    method HappenSync(flags: nat, forward: bool, all: bool, rings: seq<UserRing>)
      requires Valid() && Apart(rings) && AllValid(rings) && slots !in Arrays(rings)
      modifies this`imported, k`hwcur, k`hwtail, k`rtail, k`tail, k`rhead, k`rcur, q, q.packets`next, slots, mem
      modifies rings, Arrays(rings)
      ensures Valid() && AllValid(rings) && q.packets == []
      ensures Follows(old(Abs(rings)), Syncs(flags, forward, all), Abs(rings), size, k.n)
    {
      ghost var a := Abs(rings);
      ghost var to, parts := RxSync(flags, forward, rings, all);
      SyncFollows(a, Abs(rings), flags, forward, all, size, k.n);
    }

    /** The user does something. */
    method HappenUser(e: Event, ghost rings: seq<UserRing>)
      requires Valid() && slots !in Arrays(rings) && (e.Moves? || e.Writes? || e.Fills?)
      modifies k`head, k`cur, slots, mem
      ensures Valid() == true && Follows(old(Abs(rings)), e, Abs(rings), size, k.n) == true
      ensures AllValid(rings) == old(AllValid(rings))
    {
      match e
      case Moves(h, c) => HappenMoves(h, c, rings);
      case Writes(i, s) => HappenWrites(i, s, rings);
      case Fills(i, len, flags, bytes) => HappenFills(i, len, flags, bytes, rings);
    }

    /** One event of a run. */
    method Happen(e: Event, rings: seq<UserRing>)
      requires Valid() && Apart(rings) && AllValid(rings) && slots !in Arrays(rings)
      modifies this, k, q, q.packets`next, slots, mem, rings, Arrays(rings)
      ensures Valid() && AllValid(rings) && Follows(old(Abs(rings)), e, Abs(rings), size, k.n)
      ensures forall j {:trigger q.packets[j]} :: 0 <= j < |q.packets| ==> fresh(q.packets[j]) || q.packets[j] in old(q.packets)
    {
      if e.Packet? {
        HappenPacket(e.data, e.on, rings);
      } else if e.Syncs? {
        HappenSync(e.flags, e.forward, e.all, rings);
      } else {
        HappenUser(e, rings);
      }
    }

    method HappenNext(script: seq<Event>, i: nat, rings: seq<UserRing>, ghost trace: seq<Summary>)
      returns (ghost trace': seq<Summary>)
      requires Valid() && Apart(rings) && AllValid(rings) && slots !in Arrays(rings) && i < |script|
      requires |trace| == i + 1 && trace[i] == Abs(rings) && Trace(trace, script, size, k.n)
      modifies this, k, q, q.packets`next, slots, mem, rings, Arrays(rings)
      ensures Valid() == true && AllValid(rings) == true
      ensures |trace'| == i + 2 && trace'[0] == trace[0] && trace'[i + 1] == Abs(rings)
      ensures Trace(trace', script, size, k.n) == true
      ensures forall j {:trigger q.packets[j]} :: 0 <= j < |q.packets| ==> fresh(q.packets[j]) || q.packets[j] in old(q.packets)
    {
      Happen(script[i], rings);
      TraceMore(trace, script, size, k.n, Abs(rings));
      trace' := trace + [Abs(rings)];
    }

    /** Every run of a user that respects the ownership of slots: each event does exactly what it should.  The packets
        that the stack handed over while there was room reach the ring, each once and in order. */
    method Run(script: seq<Event>, rings: seq<UserRing>) returns (ghost trace: seq<Summary>)
      requires Valid() && Apart(rings) && AllValid(rings) && slots !in Arrays(rings)
      modifies this, k, q, q.packets`next, slots, mem, rings, Arrays(rings)
      ensures Valid() == true && |trace| == |script| + 1 && Trace(trace, script, size, k.n) == true
      ensures trace[0] == old(Abs(rings)) && trace[|script|] == Abs(rings)
      ensures admitted == imported + Data(q.packets) && q.count <= k.n - 1
    {
      ghost var start := Abs(rings);
      trace := [start];
      for i := 0 to |script|
        invariant Valid() == true && AllValid(rings) == true
        invariant |trace| == i + 1 && trace[0] == start && trace[i] == Abs(rings) && Trace(trace, script, size, k.n) == true
        invariant forall j {:trigger q.packets[j]} :: 0 <= j < |q.packets| ==>
          fresh(q.packets[j]) || q.packets[j] in old(q.packets)
      {
        trace := HappenNext(script, i, rings, trace);
      }
    }
  }

  lemma AfterSync(hwcur: nat, hwtail: nat, len: nat, rhead: nat, head: nat, cur: nat, rtail: nat, n: nat)
    requires hwcur < n && hwtail < n && rhead < n && head < n && cur < n && rtail < n
    requires Dist(hwcur, hwtail, n) + len <= n - 1
    requires Dist(hwcur, rhead, n) <= Dist(hwcur, head, n) <= Dist(hwcur, cur, n) <= Dist(hwcur, rtail, n) <= Dist(hwcur, hwtail, n)
    ensures var t := At(hwtail, len, n);
            && Dist(hwcur, t, n) == Dist(hwcur, hwtail, n) + len
            && InOrder(rhead, head, cur, t, n) && Dist(rhead, t, n) <= n - 1
  {
    AtAt(hwcur, Dist(hwcur, hwtail, n), len, n);
    DistAdd(hwcur, rhead, head, n);
    DistAdd(hwcur, rhead, cur, n);
    DistAdd(hwcur, rhead, At(hwtail, len, n), n);
  }
}
