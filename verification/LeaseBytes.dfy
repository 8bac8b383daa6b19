/** The bytes of the packets that go through the lease protocol.

    Slots are exclusive to a writer, but bytes are in buffers.  A writer copies to the buffer of its slot and leaves the
    buffer index alone; the reader may store other buffers in the slots that it was shown. */
module LeaseBytes {
  import opened Bytes
  import opened Ring
  import opened KringModel
  import opened Buffers
  import opened Lease
  import R = LeaseRuns
  import B = LeaseBlocks

  /** The protocol, the buffers, and what was last in the buffer of each position ever reserved. */
  datatype Loaded = Loaded(s: R.System, mem: seq<seq<byte>>, bytes: seq<seq<byte>>)

  /** A step of the protocol, with the data that a store copies, or the buffers as the user leaves them. */
  datatype Act = Act(e: R.Event, data: seq<byte>, mem: seq<seq<byte>>)

  /** What is in the buffer of the slot at index i. */
  ghost function Holding(slots: seq<Slot>, mem: seq<seq<byte>>, i: nat): seq<byte> {
    if i < |slots| && slots[i].bufIdx < |mem| then mem[slots[i].bufIdx] else []
  }

  /** The buffers of the positions that the user has not been shown are as they were left. */
  ghost predicate Kept(slots: seq<Slot>, mem: seq<seq<byte>>, hwcur: nat, aCur: nat, aSeen: nat, bytes: seq<seq<byte>>) {
    && hwcur < |slots| && aCur <= aSeen && |bytes| <= aCur + |slots|
    && forall a {:trigger bytes[a]} :: aSeen <= a < |bytes| ==> Holding(slots, mem, At(hwcur, a - aCur, |slots|)) == bytes[a]
  }

  /** All buffers of the ring are different. */
  ghost predicate Safe(l: Loaded) {
    && R.Good(l.s) && |l.bytes| == |l.s.g.log| && Owned(Bufs(l.s.k.slots), |l.mem|)
    && Kept(l.s.k.slots, l.mem, l.s.k.hwcur, l.s.g.aCur, l.s.g.aSeen, l.bytes)
  }

  /** The user touches only buffers of slots that it was shown, or takes in, and keeps all different. */
  ghost predicate UserOk(k: Fields, mem: seq<seq<byte>>, slots: seq<Slot>, mem': seq<seq<byte>>)
    requires Sized(k)
  {
    && OnlyUserSlots(k, slots) && |mem'| == |mem| && Owned(Bufs(slots), |mem|)
    && (forall b {:trigger mem'[b]} :: 0 <= b < |mem| ==> |mem'[b]| == |mem[b]|)
    && forall i: nat {:trigger Holding(slots, mem', i)} :: i < k.n && Dist(k.hwcur, k.rtail, k.n) <= Dist(k.hwcur, i, k.n) ==>
         Holding(slots, mem', i) == Holding(k.slots, mem, i)
  }

  /** A writer stores to its slot, whose buffer is large enough. */
  ghost predicate StoreOk(k: Fields, mem: seq<seq<byte>>, w: Writer, slot: Slot, data: seq<byte>) {
    w.j < |k.slots| && slot.bufIdx == k.slots[w.j].bufIdx < |mem| && |data| <= |mem[slot.bufIdx]|
  }

  ghost predicate Enabled(l: Loaded, a: Act)
    requires R.Good(l.s)
  {
    && R.Enabled(l.s, a.e)
    && match a.e
       case Store(t, slot) => StoreOk(l.s.k, l.mem, l.s.writers[t], slot, a.data)
       case UserWrites(slots) => UserOk(l.s.k, l.mem, slots, a.mem)
       case _ => true
  }

  /** What is in the buffers of the next m slots to reserve. */
  ghost function Next(k: Fields, mem: seq<seq<byte>>, m: nat): (r: seq<seq<byte>>)
    requires Sized(k) && m <= k.n
    ensures |r| == m && forall i {:trigger r[i]} :: 0 <= i < m ==> r[i] == Holding(k.slots, mem, At(k.hwlease, i, k.n))
  {
    seq(m, i requires 0 <= i < m => Holding(k.slots, mem, At(k.hwlease, i, k.n)))
  }

  /** What is known of a store. */
  lemma StoreParts(s: R.System, t: nat, slot: Slot)
    requires R.Good(s) && R.Enabled(s, R.Store(t, slot))
    ensures var w, p := s.writers[t], s.g.bounds[t] + s.g.hist[t].used;
            && w.j < |s.k.slots| == s.k.n && s.g.aSeen <= p < |s.g.log| < s.g.aCur + s.k.n && s.g.aCur <= s.g.aSeen
            && w.j == At(s.k.hwcur, p - s.g.aCur, s.k.n)
            && R.Step(s, R.Store(t, slot)).k == s.k.(slots := s.k.slots[w.j := slot])
            && R.Step(s, R.Store(t, slot)).g == AfterStore(s.g, t, slot)
  {
    WriterInRange(s.k, s.g, t, s.writers[t]);
  }

  /** The bytes of all positions after a step. */
  ghost function BytesAfter(l: Loaded, a: Act): seq<seq<byte>>
    requires R.Good(l.s) && |l.bytes| == |l.s.g.log| && Enabled(l, a)
  {
    match a.e
    case Reserve(needed) => l.bytes + Next(l.s.k, l.mem, Granted(l.s.k, needed))
    case Store(t, slot) =>
      StoreParts(l.s, t, slot);
      l.bytes[l.s.g.bounds[t] + l.s.g.hist[t].used := Over(l.mem[slot.bufIdx], a.data)]
    case Complete(t) =>
      var n := |R.DoComplete(l.s, t).g.log|;
      if n <= |l.bytes| then l.bytes[..n] else l.bytes
    case RxSync(_) => l.bytes
    case UserWrites(_) => l.bytes
  }

  ghost function MemAfter(l: Loaded, a: Act): seq<seq<byte>>
    requires R.Good(l.s) && Enabled(l, a)
  {
    match a.e
    case Store(t, slot) => l.mem[slot.bufIdx := Over(l.mem[slot.bufIdx], a.data)]
    case UserWrites(_) => a.mem
    case _ => l.mem
  }

  ghost function Do(l: Loaded, a: Act): Loaded
    requires R.Good(l.s) && |l.bytes| == |l.s.g.log| && Enabled(l, a)
  {
    Loaded(R.Step(l.s, a.e), MemAfter(l, a), BytesAfter(l, a))
  }

  /* ---- every step keeps the bytes ---- */

  lemma Together(s: R.System, mem: seq<seq<byte>>, bytes: seq<seq<byte>>)
    requires R.Good(s) == true && |bytes| == |s.g.log| && Owned(Bufs(s.k.slots), |mem|)
    requires Kept(s.k.slots, mem, s.k.hwcur, s.g.aCur, s.g.aSeen, bytes) == true
    ensures Safe(Loaded(s, mem, bytes)) == true
  {
  }

  lemma StoreKept(slots: seq<Slot>, mem: seq<seq<byte>>, hwcur: nat, aCur: nat, aSeen: nat, bytes: seq<seq<byte>>,
                  p: nat, x: nat, slot: Slot, d: seq<byte>)
    requires Kept(slots, mem, hwcur, aCur, aSeen, bytes) && Owned(Bufs(slots), |mem|) && |bytes| < aCur + |slots|
    requires aSeen <= p < |bytes| && x == At(hwcur, p - aCur, |slots|) && slot.bufIdx == slots[x].bufIdx < |mem|
    ensures Kept(slots[x := slot], mem[slot.bufIdx := d], hwcur, aCur, aSeen, bytes[p := d])
    ensures Bufs(slots[x := slot]) == Bufs(slots)
  {
    SameBufs(slots, slots[x := slot]);
    var ss, mm, bb := slots[x := slot], mem[slot.bufIdx := d], bytes[p := d];
    forall a | aSeen <= a < |bb| ensures Holding(ss, mm, At(hwcur, a - aCur, |slots|)) == bb[a] {
      if a != p {
        var y := At(hwcur, a - aCur, |slots|);
        DistAt(hwcur, a - aCur, |slots|);
        DistAt(hwcur, p - aCur, |slots|);
        assert Bufs(slots) + multiset{} == Bufs(slots);
        OwnedApart(slots, multiset{}, |mem|, x, y);
        assert bytes[a] == bb[a];
      }
    }
  }

  lemma StoreMem(l: Loaded, t: nat, slot: Slot, data: seq<byte>)
    returns (mem: seq<seq<byte>>, bytes: seq<seq<byte>>, s': R.System)
    requires Safe(l) && R.Enabled(l.s, R.Store(t, slot)) && StoreOk(l.s.k, l.mem, l.s.writers[t], slot, data)
    ensures s' == R.Step(l.s, R.Store(t, slot)) && l.s.g.bounds[t] + l.s.g.hist[t].used < |l.bytes| == |s'.g.log|
    ensures mem == l.mem[slot.bufIdx := Over(l.mem[slot.bufIdx], data)]
    ensures bytes == l.bytes[l.s.g.bounds[t] + l.s.g.hist[t].used := Over(l.mem[slot.bufIdx], data)]
    ensures Kept(s'.k.slots, mem, s'.k.hwcur, s'.g.aCur, s'.g.aSeen, bytes) == true && Bufs(s'.k.slots) == Bufs(l.s.k.slots)
  {
    StoreParts(l.s, t, slot);
    s' := R.Step(l.s, R.Store(t, slot));
    var k, g, p := l.s.k, l.s.g, l.s.g.bounds[t] + l.s.g.hist[t].used;
    var d := Over(l.mem[slot.bufIdx], data);
    StoreKept(k.slots, l.mem, k.hwcur, g.aCur, g.aSeen, l.bytes, p, l.s.writers[t].j, slot, d);
    mem, bytes := l.mem[slot.bufIdx := d], l.bytes[p := d];
  }

  lemma StoreSafe(l: Loaded, t: nat, slot: Slot, a: Act)
    requires Safe(l) && a.e == R.Store(t, slot) && Enabled(l, a)
    ensures Safe(Do(l, a)) == true
  {
    StoreIs(l, t, slot, a);
    var mem, bytes, s' := StoreMem(l, t, slot, a.data);
    var s1 := R.StepGood(l.s, a.e);
    Together(s1, mem, bytes);
  }

  lemma StoreIs(l: Loaded, t: nat, slot: Slot, a: Act)
    requires R.Good(l.s) && |l.bytes| == |l.s.g.log| && a.e == R.Store(t, slot) && Enabled(l, a)
    ensures l.s.g.bounds[t] + l.s.g.hist[t].used < |l.bytes|
    ensures Do(l, a) == Loaded(R.Step(l.s, a.e), l.mem[slot.bufIdx := Over(l.mem[slot.bufIdx], a.data)],
                               l.bytes[l.s.g.bounds[t] + l.s.g.hist[t].used := Over(l.mem[slot.bufIdx], a.data)])
  {
    StoreParts(l.s, t, slot);
  }

  lemma ReserveKept(slots: seq<Slot>, mem: seq<seq<byte>>, hwcur: nat, aCur: nat, aSeen: nat, bytes: seq<seq<byte>>,
                    more: seq<seq<byte>>)
    requires Kept(slots, mem, hwcur, aCur, aSeen, bytes) && aCur <= |bytes| && |bytes| + |more| <= aCur + |slots|
    requires forall i {:trigger more[i]} :: 0 <= i < |more| ==>
               more[i] == Holding(slots, mem, At(At(hwcur, |bytes| - aCur, |slots|), i, |slots|))
    ensures Kept(slots, mem, hwcur, aCur, aSeen, bytes + more)
  {
    var bb := bytes + more;
    forall x | aSeen <= x < |bb| ensures Holding(slots, mem, At(hwcur, x - aCur, |slots|)) == bb[x] {
      if |bytes| <= x {
        AtAt(hwcur, |bytes| - aCur, x - |bytes|, |slots|);
        assert bb[x] == more[x - |bytes|];
      } else {
        assert bytes[x] == bb[x];
      }
    }
  }

  lemma ReserveSafe(l: Loaded, needed: nat, a: Act)
    requires Safe(l) && a.e == R.Reserve(needed) && Enabled(l, a)
    ensures Safe(Do(l, a))
  {
    var s' := R.StepGood(l.s, a.e);
    var bytes := ReserveMem(l, needed);
    Together(s', l.mem, bytes);
    assert Do(l, a) == Loaded(s', l.mem, bytes);
  }

  lemma ReserveMem(l: Loaded, needed: nat) returns (bytes: seq<seq<byte>>)
    requires Safe(l) && R.Enabled(l.s, R.Reserve(needed))
    ensures var s' := R.Step(l.s, R.Reserve(needed));
            && Granted(l.s.k, needed) <= l.s.k.n && bytes == l.bytes + Next(l.s.k, l.mem, Granted(l.s.k, needed))
            && |bytes| == |s'.g.log| && Bufs(s'.k.slots) == Bufs(l.s.k.slots)
            && Kept(s'.k.slots, l.mem, s'.k.hwcur, s'.g.aCur, s'.g.aSeen, bytes)
  {
    var k, g := l.s.k, l.s.g;
    ReserveShape(k, g, needed);
    assert k.hwlease == g.at[|g.hist|] == At(k.hwcur, |g.log| - g.aCur, k.n);
    bytes := l.bytes + Next(k, l.mem, Granted(k, needed));
    ReserveKept(k.slots, l.mem, k.hwcur, g.aCur, g.aSeen, l.bytes, Next(k, l.mem, Granted(k, needed)));
  }

  /** Slots that differ in lengths and flags only have the same buffers. */
  lemma SameKept(slots: seq<Slot>, slots': seq<Slot>, mem: seq<seq<byte>>, hwcur: nat, aCur: nat, aSeen: nat,
                 bytes: seq<seq<byte>>, c: nat)
    requires Kept(slots, mem, hwcur, aCur, aSeen, bytes) && |slots'| == |slots| && c <= |bytes|
    requires forall i {:trigger slots'[i]} :: 0 <= i < |slots| ==> slots'[i].bufIdx == slots[i].bufIdx
    ensures Kept(slots', mem, hwcur, aCur, aSeen, bytes[..c]) && Bufs(slots') == Bufs(slots)
  {
    SameBufs(slots, slots');
    var bb := bytes[..c];
    forall a | aSeen <= a < c ensures Holding(slots', mem, At(hwcur, a - aCur, |slots|)) == bb[a] {
      assert bytes[a] == bb[a];
    }
  }

  lemma CompletedSame(k: Fields, w: Writer)
    requires Sized(k) && w.leaseIdx < k.n && w.j < k.n && w.howmany <= k.n
    ensures |Completed(k, w).slots| == k.n && Completed(k, w).hwcur == k.hwcur
    ensures forall i {:trigger Completed(k, w).slots[i]} :: 0 <= i < k.n ==> Completed(k, w).slots[i].bufIdx == k.slots[i].bufIdx
  {
  }

  lemma CompleteSafe(l: Loaded, t: nat, a: Act)
    requires Safe(l) && a.e == R.Complete(t) && Enabled(l, a)
    ensures Safe(Do(l, a)) && |Do(l, a).bytes| <= |l.bytes| && Do(l, a).bytes == l.bytes[..|Do(l, a).bytes|]
  {
    var s' := R.StepGood(l.s, a.e);
    CompleteParts(l.s, t);
    SameKept(l.s.k.slots, s'.k.slots, l.mem, l.s.k.hwcur, l.s.g.aCur, l.s.g.aSeen, l.bytes, |s'.g.log|);
    Together(s', l.mem, l.bytes[..|s'.g.log|]);
    assert Do(l, a) == Loaded(s', l.mem, l.bytes[..|s'.g.log|]);
  }

  /** What is known of a completion. */
  lemma CompleteParts(s: R.System, t: nat)
    requires R.Good(s) && R.Enabled(s, R.Complete(t))
    ensures var s' := R.Step(s, R.Complete(t));
            && |s'.k.slots| == |s.k.slots| && s'.k.hwcur == s.k.hwcur && s'.g.aCur == s.g.aCur && s'.g.aSeen == s.g.aSeen
            && |s'.g.log| <= |s.g.log|
            && forall i {:trigger s'.k.slots[i]} :: 0 <= i < |s.k.slots| ==> s'.k.slots[i].bufIdx == s.k.slots[i].bufIdx
  {
    WriterInRange(s.k, s.g, t, s.writers[t]);
    CompletedSame(s.k, s.writers[t]);
  }

  lemma SyncKept(slots: seq<Slot>, slots': seq<Slot>, mem: seq<seq<byte>>, hwcur: nat, aCur: nat, aSeen: nat,
                 bytes: seq<seq<byte>>, head: nat, aCur': nat, aSeen': nat)
    requires Kept(slots, mem, hwcur, aCur, aSeen, bytes) && |slots'| == |slots| && head < |slots|
    requires forall i {:trigger slots'[i]} :: 0 <= i < |slots| ==> slots'[i].bufIdx == slots[i].bufIdx
    requires aSeen <= aSeen' && aCur' == aCur + Dist(hwcur, head, |slots|) <= aSeen'
    ensures Kept(slots', mem, head, aCur', aSeen', bytes) && Bufs(slots') == Bufs(slots)
  {
    SameBufs(slots, slots');
    var n := |slots|;
    forall x | aSeen' <= x < |bytes| ensures Holding(slots', mem, At(head, x - aCur', n)) == bytes[x] {
      AtAt(hwcur, Dist(hwcur, head, n), x - aCur', n);
    }
  }

  /** What is known of an rxsync. */
  lemma SyncParts(s: R.System, head: nat)
    requires R.Good(s) && R.Enabled(s, R.RxSync(head))
    ensures var s', d := R.Step(s, R.RxSync(head)), Dist(s.k.hwcur, head, s.k.n);
            && |s'.k.slots| == |s.k.slots| == s.k.n && s'.k.hwcur == head && s'.g.aCur == s.g.aCur + d
            && s.g.aSeen <= s'.g.aSeen && s.g.aCur + d <= s'.g.aSeen && s'.g.log == s.g.log
            && forall i {:trigger s'.k.slots[i]} :: 0 <= i < s.k.n ==> s'.k.slots[i].bufIdx == s.k.slots[i].bufIdx
  {
    assert s.k.hwtail == s.g.at[s.g.base] == At(s.k.hwcur, s.g.bounds[s.g.base] - s.g.aCur, s.k.n);
    DistAt(s.k.hwcur, s.g.bounds[s.g.base] - s.g.aCur, s.k.n);
  }

  lemma SyncSafe(l: Loaded, head: nat, a: Act)
    requires Safe(l) && a.e == R.RxSync(head) && Enabled(l, a)
    ensures Safe(Do(l, a))
  {
    var s' := R.StepGood(l.s, a.e);
    var k, g := l.s.k, l.s.g;
    SyncParts(l.s, head);
    SyncKept(k.slots, s'.k.slots, l.mem, k.hwcur, g.aCur, g.aSeen, l.bytes, s'.k.hwcur, s'.g.aCur, s'.g.aSeen);
    Together(s', l.mem, l.bytes);
    assert Do(l, a) == Loaded(s', l.mem, l.bytes);
  }

  lemma UserKept(slots: seq<Slot>, slots': seq<Slot>, mem: seq<seq<byte>>, mem': seq<seq<byte>>, hwcur: nat, aCur: nat,
                 aSeen: nat, bytes: seq<seq<byte>>)
    requires Kept(slots, mem, hwcur, aCur, aSeen, bytes) && |slots'| == |slots| && |bytes| < aCur + |slots|
    requires forall i: nat {:trigger Holding(slots', mem', i)} :: i < |slots| && aSeen - aCur <= Dist(hwcur, i, |slots|) ==>
               Holding(slots', mem', i) == Holding(slots, mem, i)
    ensures Kept(slots', mem', hwcur, aCur, aSeen, bytes)
  {
    forall x | aSeen <= x < |bytes| ensures Holding(slots', mem', At(hwcur, x - aCur, |slots|)) == bytes[x] {
      DistAt(hwcur, x - aCur, |slots|);
    }
  }

  lemma UserSafe(l: Loaded, slots: seq<Slot>, a: Act)
    requires Safe(l) && a.e == R.UserWrites(slots) && Enabled(l, a)
    ensures Safe(Do(l, a))
  {
    var s' := R.StepGood(l.s, a.e);
    var k, g := l.s.k, l.s.g;
    DistAt(k.hwcur, g.aSeen - g.aCur, k.n);
    UserKept(k.slots, slots, l.mem, a.mem, k.hwcur, g.aCur, g.aSeen, l.bytes);
  }

  /** Every step keeps buffers different, and what is in those that the user has not been shown. */
  lemma StepSafe(l: Loaded, a: Act)
    requires Safe(l) && Enabled(l, a)
    ensures Safe(Do(l, a)) == true
  {
    match a.e
    case Reserve(needed) => ReserveSafe(l, needed, a);
    case Store(t, slot) => StoreSafe(l, t, slot, a);
    case Complete(t) => CompleteSafe(l, t, a);
    case RxSync(head) => SyncSafe(l, head, a);
    case UserWrites(slots) => UserSafe(l, slots, a);
  }

  /* ---- why buffers have to be different ---- */

  /** Copying data to the buffer of slot x leaves what slot y has alone. */
  ghost predicate Spares(slots: seq<Slot>, mem: seq<seq<byte>>, x: nat, y: nat, data: seq<byte>) {
    x < |slots| && slots[x].bufIdx < |mem| && |data| <= |mem[slots[x].bufIdx]| ==>
      var b := slots[x].bufIdx; Holding(slots, mem[b := Over(mem[b], data)], y) == Holding(slots, mem, y)
  }

  lemma NotSpared(slots: seq<Slot>, mem: seq<seq<byte>>, x: nat, y: nat) returns (data: seq<byte>)
    requires x < |slots| && y < |slots| && slots[x].bufIdx == slots[y].bufIdx < |mem| && mem[slots[x].bufIdx] != []
    ensures !Spares(slots, mem, x, y, data)
  {
    var b := slots[x].bufIdx;
    data := [if mem[b][0] == 0 then 1 else 0];
    assert Over(mem[b], data)[0] != mem[b][0];
  }

  /** A store spares the packet of another slot, whatever the data are, exactly if the two have different buffers. */
  lemma SparesExactly(slots: seq<Slot>, mem: seq<seq<byte>>, x: nat, y: nat)
    requires x < |slots| && y < |slots| && slots[x].bufIdx < |mem| && slots[y].bufIdx < |mem| && mem[slots[x].bufIdx] != []
    ensures (forall data {:trigger Spares(slots, mem, x, y, data)} :: Spares(slots, mem, x, y, data))
            <==> slots[x].bufIdx != slots[y].bufIdx
  {
    if slots[x].bufIdx == slots[y].bufIdx {
      var data := NotSpared(slots, mem, x, y);
    }
  }

  /* ---- runs ---- */

  ghost function Events(acts: seq<Act>): (r: seq<R.Event>)
    ensures |r| == |acts|
  {
    if acts == [] then [] else [acts[0].e] + Events(acts[1..])
  }

  lemma StepIsSafe(l: Loaded, a: Act)
    requires Safe(l) && Enabled(l, a)
    ensures Safe(Do(l, a))
  {
    StepSafe(l, a);
  }

  /** l' is reached from l by these steps, each of them enabled. */
  ghost predicate Run(l: Loaded, acts: seq<Act>, l': Loaded)
    requires Safe(l)
    decreases |acts|
  {
    if acts == [] then l' == l
    else Enabled(l, acts[0]) && (StepIsSafe(l, acts[0]); Run(Do(l, acts[0]), acts[1..], l'))
  }

  lemma {:induction false} RunSafe(l: Loaded, acts: seq<Act>, l': Loaded)
    requires Safe(l) && Run(l, acts, l')
    ensures Safe(l') && R.Run(l.s, Events(acts), l'.s)
    decreases |acts|
  {
    if acts != [] {
      StepSafe(l, acts[0]);
      RunSafe(Do(l, acts[0]), acts[1..], l');
      EventsFirst(acts);
    }
  }

  /** The reader finds in its buffers what was last put there for the positions of the stream. */
  lemma ReaderReads(l: Loaded, i: nat)
    requires Safe(l) && l.s.g.aSeen + i < l.s.g.bounds[l.s.g.base]
    ensures i < l.s.k.n && Holding(l.s.k.slots, l.mem, At(l.s.k.rtail, i, l.s.k.n)) == l.bytes[l.s.g.aSeen + i]
  {
    AtAt(l.s.k.hwcur, l.s.g.aSeen - l.s.g.aCur, i, l.s.k.n);
    assert l.bytes[l.s.g.aSeen + i] == Holding(l.s.k.slots, l.mem, At(l.s.k.hwcur, l.s.g.aSeen + i - l.s.g.aCur, l.s.k.n));
  }

  /** The data that the writer of ticket t copies in these steps. */
  ghost function DataOf(acts: seq<Act>, t: nat): seq<seq<byte>> {
    if acts == [] then [] else DatumOf(acts[0], t) + DataOf(acts[1..], t)
  }

  ghost function DatumOf(a: Act, t: nat): seq<seq<byte>> {
    if a.e.Store? && a.e.t == t then [a.data] else []
  }

  /** The block of ticket t starts at position b with these slots and these data. */
  ghost predicate Wrote(l: Loaded, t: nat, b: nat, ss: seq<Slot>, ds: seq<seq<byte>>) {
    B.Wrote(l.s.g, t, b, ss) && |ds| == |ss| && |l.bytes| == |l.s.g.log| && Begin(l.bytes, b, ds)
  }

  /** The buffers from position b on begin with these data. */
  ghost predicate Begin(bytes: seq<seq<byte>>, b: nat, ds: seq<seq<byte>>) {
    b + |ds| <= |bytes| && forall i {:trigger ds[i]} :: 0 <= i < |ds| ==> ds[i] <= bytes[b + i]
  }

  lemma WroteByStore(l: Loaded, u: nat, slot: Slot, a: Act, t: nat, b: nat, ss: seq<Slot>, ds: seq<seq<byte>>)
    requires Safe(l) && a.e == R.Store(u, slot) && Enabled(l, a) && Wrote(l, t, b, ss, ds)
    requires B.Wrote(Do(l, a).s.g, t, b, ss + B.StoreOf(a.e, t))
    ensures Wrote(Do(l, a), t, b, ss + B.StoreOf(a.e, t), ds + DatumOf(a, t)) == true
  {
    var mem, bytes, s' := StoreMem(l, u, slot, a.data);
    StorePlace(l.s, u, t, b, ss);
    BeginMore(l.bytes, b, ds, l.s.g.bounds[u] + l.s.g.hist[u].used, l.mem[slot.bufIdx], a.data);
    assert Do(l, a).bytes == bytes;
    WroteIs(Do(l, a), t, b, ss + B.StoreOf(a.e, t), ds + DatumOf(a, t));
  }

  lemma WroteIs(l: Loaded, t: nat, b: nat, ss: seq<Slot>, ds: seq<seq<byte>>)
    requires B.Wrote(l.s.g, t, b, ss) && |ds| == |ss| && |l.bytes| == |l.s.g.log| && Begin(l.bytes, b, ds) == true
    ensures Wrote(l, t, b, ss, ds) == true
  {
  }

  lemma BeginMore(bytes: seq<seq<byte>>, b: nat, ds: seq<seq<byte>>, p: nat, was: seq<byte>, data: seq<byte>)
    requires Begin(bytes, b, ds) && p < |bytes| && |data| <= |was|
    ensures p < b || b + |ds| <= p ==> Begin(bytes[p := Over(was, data)], b, ds) == true
    ensures p == b + |ds| ==> Begin(bytes[p := Over(was, data)], b, ds + [data]) == true
  {
  }

  /** A writer stores at the end of what it has written, and nowhere in the block of another. */
  lemma StorePlace(s: R.System, u: nat, t: nat, b: nat, ss: seq<Slot>)
    requires R.Good(s) && u in s.writers && 0 < s.writers[u].howmany && B.Wrote(s.g, t, b, ss)
    ensures u < |s.g.hist| && var p := s.g.bounds[u] + s.g.hist[u].used;
            if u == t then p == b + |ss| else p < b || b + |ss| <= p
  {
    B.Active(s, u);
    if u < t {
      Monotone(s.g.hist, s.g.bounds, u + 1, t);
    } else if t < u {
      Monotone(s.g.hist, s.g.bounds, t + 1, u);
    }
  }

  lemma WroteByOther(l: Loaded, a: Act, t: nat, b: nat, ss: seq<Slot>, ds: seq<seq<byte>>)
    requires Safe(l) && !a.e.Store? && Enabled(l, a) && Wrote(l, t, b, ss, ds)
    requires Safe(Do(l, a)) && B.Wrote(Do(l, a).s.g, t, b, ss)
    ensures Wrote(Do(l, a), t, b, ss, ds) == true
  {
    OthersStay(l, a);
    StayWrote(l.bytes, Do(l, a).bytes, b, ds);
  }

  lemma StayWrote(bytes: seq<seq<byte>>, bytes': seq<seq<byte>>, b: nat, ds: seq<seq<byte>>)
    requires Begin(bytes, b, ds) && b + |ds| <= |bytes'| && (bytes <= bytes' || bytes' <= bytes)
    ensures Begin(bytes', b, ds)
  {
    forall i | 0 <= i < |ds| ensures ds[i] <= bytes'[b + i] {
      assert bytes'[b + i] == bytes[b + i];
    }
  }

  /** Only a store changes the bytes of a position; a completion may drop the last ones. */
  lemma OthersStay(l: Loaded, a: Act)
    requires Safe(l) && !a.e.Store? && Enabled(l, a)
    ensures l.bytes <= Do(l, a).bytes || Do(l, a).bytes <= l.bytes
  {
    if a.e.Complete? {
      CompleteSafe(l, a.e.t, a);
    }
  }

  lemma WroteStep(l: Loaded, a: Act, t: nat, b: nat, ss: seq<Slot>, ds: seq<seq<byte>>)
    requires Safe(l) && Enabled(l, a) && Wrote(l, t, b, ss, ds)
    ensures Wrote(Do(l, a), t, b, ss + B.StoreOf(a.e, t), ds + DatumOf(a, t)) == true
  {
    B.WroteStep(l.s, a.e, t, b, ss);
    StepSafe(l, a);
    assert ss + [] == ss && ds + [] == ds;
    if a.e.Store? {
      WroteByStore(l, a.e.t, a.e.slot, a, t, b, ss, ds);
    } else {
      WroteByOther(l, a, t, b, ss, ds);
    }
  }

  lemma Associate<T>(a: seq<T>, b: seq<T>, c: seq<T>)
    ensures (a + b) + c == a + (b + c)
  {
  }

  lemma EventsFirst(acts: seq<Act>)
    requires acts != []
    ensures Events(acts) != [] && Events(acts)[0] == acts[0].e && Events(acts)[1..] == Events(acts[1..])
  {
  }

  lemma DataFirst(acts: seq<Act>, t: nat, ss: seq<Slot>, ds: seq<seq<byte>>)
    requires acts != []
    ensures (ds + DatumOf(acts[0], t)) + DataOf(acts[1..], t) == ds + DataOf(acts, t)
    ensures (ss + B.StoreOf(acts[0].e, t)) + B.StoresOf(Events(acts[1..]), t) == ss + B.StoresOf(Events(acts), t)
  {
    EventsFirst(acts);
    Associate(ds, DatumOf(acts[0], t), DataOf(acts[1..], t));
    Associate(ss, B.StoreOf(acts[0].e, t), B.StoresOf(Events(acts[1..]), t));
  }

  /** In every run: what a writer stores and copies is kept together, in its order. */
  lemma {:induction false} WroteRun(l: Loaded, acts: seq<Act>, l': Loaded, t: nat, b: nat, ss: seq<Slot>, ds: seq<seq<byte>>)
    requires Safe(l) && Run(l, acts, l') && Wrote(l, t, b, ss, ds)
    ensures Safe(l') && Wrote(l', t, b, ss + B.StoresOf(Events(acts), t), ds + DataOf(acts, t))
    decreases |acts|
  {
    if acts == [] {
      assert ss + [] == ss && ds + [] == ds;
    } else {
      WroteStep(l, acts[0], t, b, ss, ds);
      StepSafe(l, acts[0]);
      DataFirst(acts, t, ss, ds);
      WroteRun(Do(l, acts[0]), acts[1..], l', t, b, ss + B.StoreOf(acts[0].e, t), ds + DatumOf(acts[0], t));
    }
  }

  /** The whole story of one delivery with its bytes: until no writer is active, in any interleaving, what the writer stored
      is in the stream in one piece, and the buffers of its positions begin with what it copied. */
  lemma DeliveredWithBytes(l: Loaded, a: Act, needed: nat, acts: seq<Act>, l': Loaded)
    requires Safe(l) && a.e == R.Reserve(needed) && Enabled(l, a) && Safe(Do(l, a))
    requires Run(Do(l, a), acts, l') && l'.s.writers == map[]
    ensures Safe(l') && |l.s.g.hist| < |l'.s.g.hist|
    ensures var t, b := |l.s.g.hist|, |l.s.g.log|;
            && B.InStream(R.Stream(l'.s.g), b, l'.s.g.bounds[t + 1], B.StoresOf(Events(acts), t))
            && Begin(l'.bytes, b, DataOf(acts, t))
  {
    var t, b, l1 := |l.s.g.hist|, |l.s.g.log|, Do(l, a);
    B.Issued(l.s, needed);
    WroteRun(l1, acts, l', t, b, [], []);
    assert [] + B.StoresOf(Events(acts), t) == B.StoresOf(Events(acts), t) && [] + DataOf(acts, t) == DataOf(acts, t);
    B.AllPublished(l'.s, t, b, B.StoresOf(Events(acts), t));
  }

  /* ---- other parties ---- */

  ghost predicate AllOf(mem: seq<seq<byte>>, size: nat) {
    forall b {:trigger mem[b]} :: 0 <= b < |mem| ==> |mem[b]| == size
  }

  /** No step changes the size of a buffer. */
  lemma SizeStays(l: Loaded, a: Act, size: nat)
    requires Safe(l) && Enabled(l, a) && AllOf(l.mem, size)
    ensures AllOf(Do(l, a).mem, size) == true
  {
  }

  lemma {:induction false} SizesStay(l: Loaded, acts: seq<Act>, t: nat, size: nat)
    requires Safe(l) && Possible(l, acts, t) && AllOf(l.mem, size)
    ensures AllOf(DoAll(l, acts, t).mem, size)
    decreases |acts|
  {
    if acts != [] {
      StepSafe(l, acts[0]);
      SizeStays(l, acts[0], size);
      SizesStay(Do(l, acts[0]), acts[1..], t, size);
    }
  }

  /** A step of the writer that holds ticket t. */
  predicate By(a: Act, t: nat) {
    (a.e.Store? && a.e.t == t) || (a.e.Complete? && a.e.t == t)
  }

  /** Others may take these steps, one after the other. */
  ghost predicate Possible(l: Loaded, acts: seq<Act>, t: nat)
    requires Safe(l)
    decreases |acts|
  {
    acts == [] || (Enabled(l, acts[0]) && !By(acts[0], t) && (StepIsSafe(l, acts[0]); Possible(Do(l, acts[0]), acts[1..], t)))
  }

  ghost function DoAll(l: Loaded, acts: seq<Act>, t: nat): (r: Loaded)
    requires Safe(l) && Possible(l, acts, t)
    ensures Safe(r)
    decreases |acts|
  {
    if acts == [] then l else (StepIsSafe(l, acts[0]); DoAll(Do(l, acts[0]), acts[1..], t))
  }

  /** A writer's local variables are its own. */
  lemma OtherStep(l: Loaded, a: Act, t: nat)
    requires Safe(l) && Enabled(l, a) && !By(a, t) && t in l.s.writers
    ensures t in Do(l, a).s.writers && Do(l, a).s.writers[t] == l.s.writers[t]
    ensures B.StoreOf(a.e, t) == [] && DatumOf(a, t) == []
  {
    assert Holds(l.s.k, l.s.g, t, l.s.writers[t]);
  }

  lemma {:induction false} OtherSteps(l: Loaded, acts: seq<Act>, t: nat)
    requires Safe(l) && Possible(l, acts, t) && t in l.s.writers
    ensures var r := DoAll(l, acts, t); t in r.s.writers && r.s.writers[t] == l.s.writers[t] && Run(l, acts, r)
    ensures B.StoresOf(Events(acts), t) == [] && DataOf(acts, t) == []
    decreases |acts|
  {
    if acts != [] {
      StepSafe(l, acts[0]);
      OtherStep(l, acts[0], t);
      OtherSteps(Do(l, acts[0]), acts[1..], t);
      EventsFirst(acts);
    }
  }

  /* ---- runs, one after the other ---- */

  lemma {:induction false} RunAppend(l: Loaded, as1: seq<Act>, l1: Loaded, as2: seq<Act>, l2: Loaded)
    requires Safe(l) && Run(l, as1, l1) && Safe(l1) && Run(l1, as2, l2)
    ensures Run(l, as1 + as2, l2)
    decreases |as1|
  {
    if as1 == [] {
      assert as1 + as2 == as2;
    } else {
      StepSafe(l, as1[0]);
      RunAppend(Do(l, as1[0]), as1[1..], l1, as2, l2);
      FirstOfBoth(as1, as2);
    }
  }

  lemma FirstOfBoth(as1: seq<Act>, as2: seq<Act>)
    requires as1 != []
    ensures (as1 + as2)[0] == as1[0] && (as1 + as2)[1..] == as1[1..] + as2
  {
  }

  lemma {:induction false} StoresAppend(as1: seq<Act>, as2: seq<Act>, t: nat)
    ensures B.StoresOf(Events(as1 + as2), t) == B.StoresOf(Events(as1), t) + B.StoresOf(Events(as2), t)
    ensures DataOf(as1 + as2, t) == DataOf(as1, t) + DataOf(as2, t)
    decreases |as1|
  {
    if as1 == [] {
      assert as1 + as2 == as2;
    } else {
      var acts := as1 + as2;
      FirstOfBoth(as1, as2);
      StoresAppend(as1[1..], as2, t);
      EventsFirst(as1);
      EventsFirst(acts);
      Associate(B.StoreOf(as1[0].e, t), B.StoresOf(Events(as1[1..]), t), B.StoresOf(Events(as2), t));
      Associate(DatumOf(as1[0], t), DataOf(as1[1..], t), DataOf(as2, t));
    }
  }

  lemma RunOne(l: Loaded, a: Act)
    requires Safe(l) && Enabled(l, a)
    ensures Safe(Do(l, a)) && Run(l, [a], Do(l, a)) && Events([a]) == [a.e]
  {
    StepSafe(l, a);
    OnlyOne(a);
  }

  lemma OnlyOne(a: Act)
    ensures [a][0] == a && [a][1..] == [] && Events([a]) == [a.e]
  {
  }
}
