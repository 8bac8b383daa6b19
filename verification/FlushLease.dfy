/** The switch and the lease protocol together: a delivery of nm_bdg_flush to the ring of a port. */
module FlushLease {
  import opened Ring
  import opened KringModel
  import opened Lease
  import opened LeaseRingImpl
  import opened Bytes
  import opened Buffers
  import opened LeaseBytes
  import R = LeaseRuns
  import B = LeaseBlocks
  import L = Learning
  import F = Flush

  /** The slots and the data as the switch writes them, in whatever buffers. */
  ghost predicate Faces(ss: seq<Slot>, ds: seq<seq<byte>>, out: seq<F.Sent>) {
    && |ss| == |ds| == |out|
    && forall i {:trigger ss[i]} {:trigger out[i]} :: 0 <= i < |ss| ==>
         ss[i].len == out[i].len && ss[i].flags == out[i].flags && ds[i] == out[i].data
  }

  /** The destination as the flush sees it, when the ring is in this state. */
  function Port(k: Fields, size: nat): F.Dest
    requires Sized(k)
  {
    F.Dest(if Space(k) < 0 then 0 else Space(k), size)
  }

  /** What the switch asks for. */
  ghost function Needed(frags: seq<nat>, dec: seq<nat>, q: nat): nat
    requires F.Sized(frags, dec)
  {
    F.Slots(frags, F.Addressed(dec, q, F.BRDQ))
  }

  /** A prefix of the packets takes no more slots than all. */
  lemma PrefixSlots(frags: seq<nat>, ps: seq<nat>, k: nat)
    requires F.Within(frags, ps) && k <= |ps|
    ensures F.Slots(frags, ps[..k]) <= F.Slots(frags, ps)
  {
    assert ps[..|ps|] == ps;
    F.FittingIsLongest(frags, ps, F.Slots(frags, ps), |ps|);
    F.FittingIsLongest(frags, ps, F.Slots(frags, ps), k);
  }

  /** What the switch delivers fits what it is granted. */
  lemma DeliveryFits(k: Fields, size: nat, ft: seq<L.Frag>, frags: seq<nat>, dec: seq<nat>, q: nat)
    requires Sized(k) && F.Buffers(ft, frags) && F.Sized(frags, dec) && q < F.BRDQ
    ensures |F.Received(ft, frags, dec, q, F.BRDQ, Port(k, size))| <= Granted(k, Needed(frags, dec, q))
  {
    var ps, room := F.Addressed(dec, q, F.BRDQ), Port(k, size).room;
    var fit := F.Fitting(frags, ps, room);
    F.AddressedWhole(ft, frags, dec, q, F.BRDQ);
    assert fit == ps[..|fit|];
    F.FittingIsLongest(frags, ps, room, |fit|);
    PrefixSlots(frags, ps, |fit|);
    F.RenderedLength(ft, frags, fit, size);
  }

  /** The stream shows these slots from position b on, with their data in the buffers, and empty packets from there to
      `end`. */
  ghost predicate Arrived(stream: seq<Slot>, bytes: seq<seq<byte>>, b: nat, end: nat, out: seq<F.Sent>) {
    && b + |out| <= end <= |stream| && b + |out| <= |bytes|
    && (forall i {:trigger out[i]} :: 0 <= i < |out| ==>
          stream[b + i].len == out[i].len && stream[b + i].flags == out[i].flags && out[i].data <= bytes[b + i])
    && forall a {:trigger stream[a]} :: b + |out| <= a < end ==> stream[a].len == 0 && stream[a].flags == 0
  }

  lemma ArrivedIf(stream: seq<Slot>, bytes: seq<seq<byte>>, b: nat, end: nat, ss: seq<Slot>, ds: seq<seq<byte>>, out: seq<F.Sent>)
    requires B.InStream(stream, b, end, ss) && Faces(ss, ds, out) && Begin(bytes, b, ds)
    ensures Arrived(stream, bytes, b, end, out)
  {
    forall i | 0 <= i < |out|
      ensures stream[b + i].len == out[i].len && stream[b + i].flags == out[i].flags && out[i].data <= bytes[b + i]
    {
      assert stream[b..b + |ss|][i] == ss[i] && ds[i] == out[i].data;
    }
  }

  lemma ArrivedInRun(l: Loaded, a: Act, needed: nat, acts: seq<Act>, l': Loaded, out: seq<F.Sent>)
    requires Safe(l) && a.e == R.Reserve(needed) && Enabled(l, a) && Safe(Do(l, a))
    requires Run(Do(l, a), acts, l') && l'.s.writers == map[]
    requires Faces(B.StoresOf(Events(acts), |l.s.g.hist|), DataOf(acts, |l.s.g.hist|), out)
    ensures Safe(l') && |l.s.g.hist| < |l'.s.g.hist|
    ensures Arrived(R.Stream(l'.s.g), l'.bytes, |l.s.g.log|, l'.s.g.bounds[|l.s.g.hist| + 1], out)
  {
    var t, b := |l.s.g.hist|, |l.s.g.log|;
    DeliveredWithBytes(l, a, needed, acts, l');
    ArrivedIf(R.Stream(l'.s.g), l'.bytes, b, l'.s.g.bounds[t + 1], B.StoresOf(Events(acts), t), DataOf(acts, t), out);
  }

  /** A writer that reserves what its packets need and stores what the switch delivers to this port: in any interleaving
      with other writers and the reader, the stream of the ring grows by exactly that, in one piece and with its bytes. */
  lemma SwitchedIntoStream(l: Loaded, a: Act, size: nat, ft: seq<L.Frag>, frags: seq<nat>, dec: seq<nat>, q: nat,
                           acts: seq<Act>, l': Loaded, out: seq<F.Sent>)
    requires Safe(l) && F.Buffers(ft, frags) && F.Sized(frags, dec) && q < F.BRDQ
    requires a.e == R.Reserve(Needed(frags, dec, q)) && Enabled(l, a) && Safe(Do(l, a))
    requires Run(Do(l, a), acts, l') && l'.s.writers == map[]
    requires out == F.Received(ft, frags, dec, q, F.BRDQ, Port(l.s.k, size))
    requires Faces(B.StoresOf(Events(acts), |l.s.g.hist|), DataOf(acts, |l.s.g.hist|), out)
    ensures Safe(l') && |R.Stream(l.s.g)| <= |l.s.g.log| && |l.s.g.hist| < |l'.s.g.hist|
    ensures Arrived(R.Stream(l'.s.g), l'.bytes, |l.s.g.log|, l'.s.g.bounds[|l.s.g.hist| + 1], out)
  {
    B.Issued(l.s, Needed(frags, dec, q));
    ArrivedInRun(l, a, Needed(frags, dec, q), acts, l', out);
  }

  /* ---- the code, with other parties running at any time ---- */

  /** The ring and the buffers are in this state; the local variables of all active writers. */
  ghost predicate OnRing(ring: LeaseRing, mem: array<seq<byte>>, l: Loaded, writers: map<nat, Writer>, issued: nat)
    reads ring, ring.kring, ring.slots, ring.leases, mem
  {
    ring.Valid() && Safe(l) && ring.View() == l.s.k && mem[..] == l.mem && writers == l.s.writers && issued == |l.s.g.hist|
  }

  /** What a store changes. */
  lemma StoreDone(l: Loaded, t: nat, slot: Slot, a: Act) returns (l': Loaded)
    requires Safe(l) && a.e == R.Store(t, slot) && Enabled(l, a)
    ensures var w := l.s.writers[t];
            && l' == Do(l, a) && Safe(l') && w.j < l.s.k.n && slot.bufIdx < |l.mem| && |a.data| <= |l.mem[slot.bufIdx]|
            && Sized(l.s.k) && l'.s.k == Stored(l.s.k, w, slot) && 0 < w.howmany
            && l'.mem == l.mem[slot.bufIdx := Over(l.mem[slot.bufIdx], a.data)]
            && l'.s.writers == l.s.writers[t := StoredWriter(l.s.k, w)] && |l'.s.g.hist| == |l.s.g.hist|
  {
    StepSafe(l, a);
    StoreParts(l.s, t, slot);
    l' := Do(l, a);
  }

  method TakeStore(ring: LeaseRing, mem: array<seq<byte>>, t: nat, slot: Slot, data: seq<byte>, writers: map<nat, Writer>,
                   issued: nat, ghost l: Loaded, ghost a: Act)
    returns (writers': map<nat, Writer>)
    requires OnRing(ring, mem, l, writers, issued) && a.e == R.Store(t, slot) && a.data == data && Enabled(l, a)
    modifies ring.slots, mem
    ensures OnRing(ring, mem, Do(l, a), writers', issued)
  {
    ghost var l' := StoreDone(l, t, slot, a);
    writers' := Put(ring, mem, t, slot, data, writers);
  }

  /** A slot and its buffer are written. */
  method Put(ring: LeaseRing, mem: array<seq<byte>>, t: nat, slot: Slot, data: seq<byte>, writers: map<nat, Writer>)
    returns (writers': map<nat, Writer>)
    requires ring.Valid() && t in writers && writers[t].j < ring.n && 0 < writers[t].howmany
    requires slot.bufIdx < mem.Length && |data| <= |mem[slot.bufIdx]|
    modifies ring.slots, mem
    ensures ring.Valid() && ring.View() == Stored(old(ring.View()), writers[t], slot)
    ensures var was := old(mem[..])[slot.bufIdx];
            |data| <= |was| && mem[..] == old(mem[..])[slot.bufIdx := Over(was, data)]
    ensures writers' == writers[t := StoredWriter(old(ring.View()), writers[t])]
  {
    var w := ring.Store(writers[t], slot);
    Copy(mem, slot.bufIdx, data);
    writers' := writers[t := w];
  }

  method Copy(mem: array<seq<byte>>, b: nat, data: seq<byte>)
    requires b < mem.Length && |data| <= |mem[b]|
    modifies mem
    ensures |data| <= |old(mem[..])[b]| && mem[..] == old(mem[..])[b := Over(old(mem[..])[b], data)]
  {
    mem[b] := Over(mem[b], data);
  }

  method TakeReserve(ring: LeaseRing, mem: array<seq<byte>>, needed: nat, writers: map<nat, Writer>, issued: nat,
                     ghost l: Loaded, ghost a: Act)
    returns (writers': map<nat, Writer>)
    requires OnRing(ring, mem, l, writers, issued) && a.e == R.Reserve(needed) && Enabled(l, a)
    modifies ring, ring.leases
    ensures OnRing(ring, mem, Do(l, a), writers', issued + 1)
    ensures issued in writers' && writers'[issued].howmany == Granted(l.s.k, needed)
  {
    StepSafe(l, a);
    var w := ring.Reserve(needed);
    writers' := writers[issued := w];
  }

  lemma CompleteDone(l: Loaded, t: nat, a: Act) returns (l': Loaded)
    requires Safe(l) && a.e == R.Complete(t) && Enabled(l, a)
    ensures var w := l.s.writers[t];
            && l' == Do(l, a) && Safe(l') && w.j < l.s.k.n && w.leaseIdx < l.s.k.n && w.howmany <= l.s.k.n
            && Sized(l.s.k) && l'.s.k == Completed(l.s.k, w) && l'.mem == l.mem
            && l'.s.writers == l.s.writers - {t} && |l'.s.g.hist| == |l.s.g.hist|
  {
    StepSafe(l, a);
    B.Active(l.s, t);
    WriterInRange(l.s.k, l.s.g, t, l.s.writers[t]);
    l' := Do(l, a);
  }

  method TakeComplete(ring: LeaseRing, mem: array<seq<byte>>, t: nat, writers: map<nat, Writer>, issued: nat,
                      ghost l: Loaded, ghost a: Act)
    returns (writers': map<nat, Writer>)
    requires OnRing(ring, mem, l, writers, issued) && a.e == R.Complete(t) && Enabled(l, a)
    modifies ring, ring.kring, ring.slots, ring.leases
    ensures OnRing(ring, mem, Do(l, a), writers', issued)
  {
    ghost var l' := CompleteDone(l, t, a);
    ring.Complete(writers[t]);
    writers' := writers - {t};
  }

  /** The reader's user stores head, and calls rxsync. */
  method TakeSync(ring: LeaseRing, mem: array<seq<byte>>, head: nat, writers: map<nat, Writer>, issued: nat,
                  ghost l: Loaded, ghost a: Act)
    requires OnRing(ring, mem, l, writers, issued) && a.e == R.RxSync(head) && Enabled(l, a)
    modifies ring.kring, ring.slots
    ensures OnRing(ring, mem, Do(l, a), writers, issued) == true
  {
    ghost var l' := SyncDone(l, head, a);
    SyncTo(ring, head);
  }

  lemma SyncDone(l: Loaded, head: nat, a: Act) returns (l': Loaded)
    requires Safe(l) && a.e == R.RxSync(head) && Enabled(l, a)
    ensures l' == Do(l, a) && Safe(l') == true && Sized(l.s.k) && head < l.s.k.n && l'.s.k == Synced(l.s.k, head)
    ensures Dist(l.s.k.hwcur, head, l.s.k.n) <= Dist(l.s.k.hwcur, l.s.k.hwtail, l.s.k.n)
    ensures l'.mem == l.mem && l'.s.writers == l.s.writers && |l'.s.g.hist| == |l.s.g.hist|
  {
    StepSafe(l, a);
    l' := Do(l, a);
  }

  method SyncTo(ring: LeaseRing, head: nat)
    requires ring.Valid() && head < ring.n
    requires Dist(ring.kring.hwcur, head, ring.n) <= Dist(ring.kring.hwcur, ring.kring.hwtail, ring.n)
    modifies ring.kring, ring.slots
    ensures ring.Valid() && ring.View() == Synced(old(ring.View()), head)
  {
    ring.kring.head, ring.kring.cur := head, head;
    var ok := ring.RxSync();
  }

  /** The user writes slots and buffers. */
  method WriteAll(ring: LeaseRing, mem: array<seq<byte>>, slots: seq<Slot>, bytes: seq<seq<byte>>)
    requires ring.Valid() && |slots| == ring.n && |bytes| == mem.Length
    modifies ring.slots, mem
    ensures ring.Valid() && ring.View() == old(ring.View()).(slots := slots) && mem[..] == bytes
  {
    forall i | 0 <= i < ring.slots.Length {
      ring.slots[i] := slots[i];
    }
    forall b | 0 <= b < mem.Length {
      mem[b] := bytes[b];
    }
    assert ring.slots[..] == slots;
  }

  method TakeWrites(ring: LeaseRing, mem: array<seq<byte>>, slots: seq<Slot>, bytes: seq<seq<byte>>, writers: map<nat, Writer>,
                    issued: nat, ghost l: Loaded, ghost a: Act)
    requires OnRing(ring, mem, l, writers, issued) && a.e == R.UserWrites(slots) && a.mem == bytes && Enabled(l, a)
    modifies ring.slots, mem
    ensures OnRing(ring, mem, Do(l, a), writers, issued)
  {
    StepSafe(l, a);
    WriteAll(ring, mem, slots, bytes);
  }

  /** A step of any party. */
  method Take(ring: LeaseRing, mem: array<seq<byte>>, a: Act, writers: map<nat, Writer>, issued: nat, ghost l: Loaded)
    returns (writers': map<nat, Writer>, issued': nat)
    requires OnRing(ring, mem, l, writers, issued) && Enabled(l, a)
    modifies ring, ring.kring, ring.slots, ring.leases, mem
    ensures OnRing(ring, mem, Do(l, a), writers', issued')
  {
    writers', issued' := writers, issued;
    match a.e
    case Reserve(needed) =>
      writers' := TakeReserve(ring, mem, needed, writers, issued, l, a);
      issued' := issued + 1;
    case Store(t, slot) => writers' := TakeStore(ring, mem, t, slot, a.data, writers, issued, l, a);
    case Complete(t) => writers' := TakeComplete(ring, mem, t, writers, issued, l, a);
    case RxSync(head) => TakeSync(ring, mem, head, writers, issued, l, a);
    case UserWrites(slots) => TakeWrites(ring, mem, slots, a.mem, writers, issued, l, a);
  }

  /** Other parties run for a while. */
  method Others(ring: LeaseRing, mem: array<seq<byte>>, acts: seq<Act>, writers: map<nat, Writer>, issued: nat,
                ghost l: Loaded, ghost t: nat)
    returns (writers': map<nat, Writer>, issued': nat)
    requires OnRing(ring, mem, l, writers, issued) && Possible(l, acts, t)
    modifies ring, ring.kring, ring.slots, ring.leases, mem
    ensures OnRing(ring, mem, DoAll(l, acts, t), writers', issued')
    decreases |acts|
  {
    writers', issued' := writers, issued;
    if acts != [] {
      StepSafe(l, acts[0]);
      writers', issued' := Take(ring, mem, acts[0], writers, issued, l);
      writers', issued' := Others(ring, mem, acts[1..], writers', issued', Do(l, acts[0]), t);
    }
  }

  /** The step that stores o for the writer of ticket t. */
  ghost function Own(l: Loaded, t: nat, o: F.Sent): Act
    requires Safe(l) && t in l.s.writers
  {
    var j := l.s.writers[t].j;
    Act(R.Store(t, Slot(if j < |l.s.k.slots| then l.s.k.slots[j].bufIdx else 0, o.len, o.flags)), o.data, [])
  }

  function Round(during: seq<seq<Act>>, i: nat): seq<Act> {
    if i < |during| then during[i] else []
  }

  /** Other parties may do this while the writer of ticket t stores out[i..]: some steps before each store, and some before
      it completes. */
  ghost predicate Playable(l: Loaded, t: nat, out: seq<F.Sent>, i: nat, during: seq<seq<Act>>)
    requires Safe(l)
    decreases |out| - i
  {
    && Possible(l, Round(during, i), t)
    && var l1 := DoAll(l, Round(during, i), t);
       i < |out| && t in l1.s.writers && Enabled(l1, Own(l1, t, out[i])) ==>
         (StepIsSafe(l1, Own(l1, t, out[i])); Playable(Do(l1, Own(l1, t, out[i])), t, out, i + 1, during))
  }

  /** The writer of ticket t, which has howmany slots left, has come from l0 to l, and stored the first i of these. */
  ghost predicate Underway(l0: Loaded, acts: seq<Act>, l: Loaded, t: nat, out: seq<F.Sent>, i: nat, size: nat) {
    && Safe(l0) && Safe(l) && Run(l0, acts, l) && t in l.s.writers && i <= |out| && |out| - i <= l.s.writers[t].howmany
    && Faces(B.StoresOf(Events(acts), t), DataOf(acts, t), out[..i])
    && AllOf(l.mem, size)
  }

  lemma NothingOwn(acts: seq<Act>, more: seq<Act>, t: nat)
    requires B.StoresOf(Events(more), t) == [] && DataOf(more, t) == []
    ensures B.StoresOf(Events(acts + more), t) == B.StoresOf(Events(acts), t) && DataOf(acts + more, t) == DataOf(acts, t)
  {
    StoresAppend(acts, more, t);
    assert B.StoresOf(Events(acts), t) + [] == B.StoresOf(Events(acts), t) && DataOf(acts, t) + [] == DataOf(acts, t);
  }

  /** Other parties do not disturb it. */
  lemma UnderwayOthers(l0: Loaded, acts: seq<Act>, l: Loaded, t: nat, out: seq<F.Sent>, i: nat, size: nat, more: seq<Act>)
    returns (acts': seq<Act>, l': Loaded)
    requires Underway(l0, acts, l, t, out, i, size) && Possible(l, more, t)
    ensures l' == DoAll(l, more, t) && Underway(l0, acts', l', t, out, i, size)
  {
    OtherSteps(l, more, t);
    SizesStay(l, more, t, size);
    l' := DoAll(l, more, t);
    acts' := acts + more;
    RunAppend(l0, acts, l, more, l');
    NothingOwn(acts, more, t);
  }

  /** One more store. */
  lemma UnderwayOwn(l0: Loaded, acts: seq<Act>, l: Loaded, t: nat, out: seq<F.Sent>, i: nat, size: nat)
    returns (acts': seq<Act>, l': Loaded)
    requires Underway(l0, acts, l, t, out, i, size) && i < |out| && |out[i].data| <= size
    ensures Enabled(l, Own(l, t, out[i])) && l' == Do(l, Own(l, t, out[i])) && Underway(l0, acts', l', t, out, i + 1, size)
  {
    var a := Own(l, t, out[i]);
    OwnEnabled(l, t, out[i], size);
    acts', l' := RunMore(l0, acts, l, a);
    StoresAppend(acts, [a], t);
    OwnStores(l, t, out[i]);
    SizeStays(l, a, size);
    var l1 := StoreDone(l, t, a.e.slot, a);
    FacesMore(B.StoresOf(Events(acts), t), DataOf(acts, t), a.e.slot, out, i);
  }

  lemma OwnEnabled(l: Loaded, t: nat, o: F.Sent, size: nat)
    requires Safe(l) && t in l.s.writers && 0 < l.s.writers[t].howmany && |o.data| <= size
    requires AllOf(l.mem, size)
    ensures Enabled(l, Own(l, t, o))
  {
    var w := l.s.writers[t];
    WriterInRange(l.s.k, l.s.g, t, w);
    var b := l.s.k.slots[w.j].bufIdx;
    assert Indices(l.s.k.slots)[w.j] == b && b in Bufs(l.s.k.slots);
    assert Bufs(l.s.k.slots)[b] > 0;
    assert |l.mem[b]| == size;
  }

  lemma OwnStores(l: Loaded, t: nat, o: F.Sent)
    requires Safe(l) && t in l.s.writers
    ensures var a := Own(l, t, o); B.StoresOf(Events([a]), t) == [a.e.slot] && DataOf([a], t) == [o.data]
  {
    var a := Own(l, t, o);
    assert [a][1..] == [] && Events([a]) == [a.e] && [a.e][1..] == [];
  }

  lemma FacesMore(ss: seq<Slot>, ds: seq<seq<byte>>, slot: Slot, out: seq<F.Sent>, i: nat)
    requires i < |out| && Faces(ss, ds, out[..i]) && slot.len == out[i].len && slot.flags == out[i].flags
    ensures Faces(ss + [slot], ds + [out[i].data], out[..i + 1])
  {
  }

  /** The copy loop is at slot i. */
  ghost predicate Copying(ring: LeaseRing, mem: array<seq<byte>>, t: nat, out: seq<F.Sent>, i: nat, size: nat,
                          during: seq<seq<Act>>, writers: map<nat, Writer>, issued: nat, l0: Loaded, acts: seq<Act>, l: Loaded)
    reads ring, ring.kring, ring.slots, ring.leases, mem
  {
    OnRing(ring, mem, l, writers, issued) && Underway(l0, acts, l, t, out, i, size) && Playable(l, t, out, i, during)
  }

  /** One slot of the copy loop; other parties run before it. */
  method StoreNext(ring: LeaseRing, mem: array<seq<byte>>, t: nat, out: seq<F.Sent>, i: nat, size: nat, during: seq<seq<Act>>,
                   writers: map<nat, Writer>, issued: nat, ghost l0: Loaded, ghost acts: seq<Act>, ghost l: Loaded)
    returns (writers': map<nat, Writer>, issued': nat, ghost acts': seq<Act>, ghost l': Loaded)
    requires Copying(ring, mem, t, out, i, size, during, writers, issued, l0, acts, l) && i < |out| && Within(out, size)
    modifies ring, ring.kring, ring.slots, ring.leases, mem
    ensures Copying(ring, mem, t, out, i + 1, size, during, writers', issued', l0, acts', l')
  {
    ghost var acts1, l1 := UnderwayOthers(l0, acts, l, t, out, i, size, Round(during, i));
    writers', issued' := Others(ring, mem, Round(during, i), writers, issued, l, t);
    acts', l' := UnderwayOwn(l0, acts1, l1, t, out, i, size);
    writers' := StoreOne(ring, mem, t, out[i], writers', issued', l1);
  }

  /** The body of the copy loop. */
  method StoreOne(ring: LeaseRing, mem: array<seq<byte>>, t: nat, o: F.Sent, writers: map<nat, Writer>, issued: nat, ghost l: Loaded)
    returns (writers': map<nat, Writer>)
    requires OnRing(ring, mem, l, writers, issued) && t in l.s.writers && Enabled(l, Own(l, t, o))
    modifies ring.slots, mem
    ensures OnRing(ring, mem, Do(l, Own(l, t, o)), writers', issued)
  {
    ghost var a := Own(l, t, o);
    WriterInRange(l.s.k, l.s.g, t, l.s.writers[t]);
    var slot := Slot(ring.slots[writers[t].j].bufIdx, o.len, o.flags);
    writers' := TakeStore(ring, mem, t, slot, o.data, writers, issued, l, a);
  }

  /** The slots of a delivery, one after the other. */
  method StoreLoop(ring: LeaseRing, mem: array<seq<byte>>, t: nat, out: seq<F.Sent>, size: nat, during: seq<seq<Act>>,
                   writers: map<nat, Writer>, issued: nat, ghost l0: Loaded)
    returns (writers': map<nat, Writer>, issued': nat, ghost acts: seq<Act>, ghost l: Loaded)
    requires Copying(ring, mem, t, out, 0, size, during, writers, issued, l0, [], l0) && Within(out, size)
    modifies ring, ring.kring, ring.slots, ring.leases, mem
    ensures Copying(ring, mem, t, out, |out|, size, during, writers', issued', l0, acts, l)
  {
    writers', issued', acts, l := writers, issued, [], l0;
    for i := 0 to |out|
      invariant Copying(ring, mem, t, out, i, size, during, writers', issued', l0, acts, l)
    {
      writers', issued', acts, l := StoreNext(ring, mem, t, out, i, size, during, writers', issued', l0, acts, l);
    }
  }

  /** And what the others do before the writer completes. */
  method StoreAll(ring: LeaseRing, mem: array<seq<byte>>, t: nat, out: seq<F.Sent>, size: nat, during: seq<seq<Act>>,
                  writers: map<nat, Writer>, issued: nat, ghost l0: Loaded)
    returns (writers': map<nat, Writer>, issued': nat, ghost acts: seq<Act>, ghost l: Loaded)
    requires Copying(ring, mem, t, out, 0, size, during, writers, issued, l0, [], l0) && Within(out, size)
    modifies ring, ring.kring, ring.slots, ring.leases, mem
    ensures OnRing(ring, mem, l, writers', issued') && Underway(l0, acts, l, t, out, |out|, size)
  {
    writers', issued', acts, l := StoreLoop(ring, mem, t, out, size, during, writers, issued, l0);
    ghost var acts1, l1 := UnderwayOthers(l0, acts, l, t, out, |out|, size, Round(during, |out|));
    writers', issued' := Others(ring, mem, Round(during, |out|), writers', issued', l, t);
    acts, l := acts1, l1;
  }

  /* ---- one destination of the second pass ---- */

  lemma {:induction false} RenderedFits(ft: seq<L.Frag>, frags: seq<nat>, ps: seq<nat>, size: nat)
    requires F.Whole(ft, frags, ps) && 64 <= size
    ensures Within(F.Rendered(ft, frags, ps, size), size)
  {
    if ps != [] {
      RenderedFits(ft, frags, ps[1..], size);
      PacketFits(ft, ps[0], frags[ps[0]], size);
      BothWithin(F.Packet(ft, ps[0], frags[ps[0]], size), F.Rendered(ft, frags, ps[1..], size), size);
    }
  }

  /** None is longer than a buffer. */
  ghost predicate Within(out: seq<F.Sent>, size: nat) {
    forall i {:trigger out[i]} :: 0 <= i < |out| ==> |out[i].data| <= size
  }

  lemma BothWithin(a: seq<F.Sent>, b: seq<F.Sent>, size: nat)
    requires Within(a, size) && Within(b, size)
    ensures Within(a + b, size)
  {
  }

  lemma PacketFits(ft: seq<L.Frag>, p: nat, cnt: nat, size: nat)
    requires p + cnt <= |ft| && 64 <= size && forall i :: 0 <= i < |ft| ==> 64 <= |ft[i].buf|
    ensures Within(F.Packet(ft, p, cnt, size), size)
  {
    var out := F.Packet(ft, p, cnt, size);
    forall i | 0 <= i < |out| ensures |out[i].data| <= size {
      assert 64 <= |ft[p + i].buf| && out[i] == F.Copied(ft[p + i], cnt, i == cnt - 1, size);
    }
  }

  /** What the copy loop of the switch delivers into the granted slots, and that it fits. */
  lemma WhatIsDelivered(k: Fields, size: nat, ft: seq<L.Frag>, frags: seq<nat>, dec: seq<nat>, q: nat,
                        uni: seq<nat>, brd: seq<nat>, l: nat, lb: nat) returns (goal: seq<F.Sent>)
    requires Sized(k) && F.Buffers(ft, frags) && F.Sized(frags, dec) && q < F.BRDQ && 64 <= size
    requires uni == F.Members(dec, q) && brd == F.Members(dec, F.BRDQ) && F.Counted(l, frags, uni)
    requires F.Counted(lb, frags, brd)
    ensures l + lb == Needed(frags, dec, q) && F.Whole(ft, frags, F.Merge(uni, brd))
    ensures F.Delivered(ft, frags, F.Merge(uni, brd), Granted(k, l + lb), size) == goal
    ensures goal == F.Received(ft, frags, dec, q, F.BRDQ, Port(k, size)) && |goal| <= Granted(k, l + lb)
    ensures Within(goal, size) == true
  {
    goal := F.Received(ft, frags, dec, q, F.BRDQ, Port(k, size));
    F.SlotsAddressed(frags, dec, q, F.BRDQ);
    F.ReceivedByMerging(ft, frags, dec, uni, brd, q, F.BRDQ, Port(k, size), l, lb);
    DeliveryFits(k, size, ft, frags, dec, q);
    ReceivedFits(ft, frags, dec, q, Port(k, size));
  }

  lemma ReceivedFits(ft: seq<L.Frag>, frags: seq<nat>, dec: seq<nat>, q: nat, d: F.Dest)
    requires F.Buffers(ft, frags) && F.Sized(frags, dec) && q < F.BRDQ && 64 <= d.size
    ensures Within(F.Received(ft, frags, dec, q, F.BRDQ, d), d.size)
  {
    var ps := F.Addressed(dec, q, F.BRDQ);
    F.AddressedWhole(ft, frags, dec, q, F.BRDQ);
    RenderedFits(ft, frags, F.Fitting(frags, ps, d.room), d.size);
  }

  method Deliver(sc: F.Scratch, q: nat, ft: seq<L.Frag>, frags: seq<nat>, room: nat, size: nat,
                 ghost dec: seq<nat>, ghost lists: seq<seq<nat>>, ghost goal: seq<F.Sent>) returns (out: seq<F.Sent>)
    requires sc.Lists(frags, dec, lists) == true && q < F.BRDQ && (lists[q] != [] || lists[F.BRDQ] != [])
    requires F.Whole(ft, frags, F.Merge(lists[q], lists[F.BRDQ])) == true
    requires F.Delivered(ft, frags, F.Merge(lists[q], lists[F.BRDQ]), room, size) == goal
    ensures out == goal
  {
    out := sc.Deliver(q, ft, frags, room, size, dec, lists);
  }

  /** The reservation; it does not touch the scratchpad of the flush. */
  method Reserve(ring: LeaseRing, mem: array<seq<byte>>, needed: nat, writers: map<nat, Writer>, issued: nat, ghost l: Loaded,
                 ghost a: Act, ghost sc: F.Scratch, ghost frags: seq<nat>, ghost dec: seq<nat>, ghost lists: seq<seq<nat>>)
    returns (writers': map<nat, Writer>)
    requires ring.leases !in {sc.next, sc.head, sc.tail, sc.len}
    requires OnRing(ring, mem, l, writers, issued) && a.e == R.Reserve(needed) && Enabled(l, a)
    modifies ring, ring.leases
    ensures OnRing(ring, mem, Do(l, a), writers', issued + 1) == true
    ensures issued in writers' && writers'[issued].howmany == Granted(l.s.k, needed)
    ensures sc.Lists(frags, dec, lists) == old(sc.Lists(frags, dec, lists))
  {
    writers' := TakeReserve(ring, mem, needed, writers, issued, l, a);
  }

  /** The reservation for the packets of one destination, and what is to be copied. */
  method ReserveFor(sc: F.Scratch, ring: LeaseRing, mem: array<seq<byte>>, q: nat, ghost size: nat, ghost ft: seq<L.Frag>,
                    ghost frags: seq<nat>, writers: map<nat, Writer>, issued: nat, ghost dec: seq<nat>,
                    ghost lists: seq<seq<nat>>, ghost l: Loaded, ghost a: Act)
    returns (writers': map<nat, Writer>, ghost goal: seq<F.Sent>)
    requires sc.Lists(frags, dec, lists) && F.Sized(frags, dec) && F.Buffers(ft, frags) && q < F.BRDQ && 64 <= size
    requires lists[q] == F.Members(dec, q) && lists[F.BRDQ] == F.Members(dec, F.BRDQ)
    requires OnRing(ring, mem, l, writers, issued) && a.e == R.Reserve(Needed(frags, dec, q)) && Enabled(l, a)
    requires ring.leases !in {sc.next, sc.head, sc.tail, sc.len}
    modifies ring, ring.leases
    ensures sc.Lists(frags, dec, lists) == true && F.Whole(ft, frags, F.Merge(lists[q], lists[F.BRDQ])) == true
    ensures OnRing(ring, mem, Do(l, a), writers', issued + 1) == true && issued in writers'
    ensures goal == F.Received(ft, frags, dec, q, F.BRDQ, Port(l.s.k, size)) && |goal| <= writers'[issued].howmany
    ensures Within(goal, size) == true
    ensures F.Delivered(ft, frags, F.Merge(lists[q], lists[F.BRDQ]), writers'[issued].howmany, size) == goal
  {
    var n, nb := sc.len[q], sc.len[F.BRDQ];
    goal := WhatIsDelivered(l.s.k, size, ft, frags, dec, q, lists[q], lists[F.BRDQ], n, nb);
    writers' := Reserve(ring, mem, n + nb, writers, issued, l, a, sc, frags, dec, lists);
  }

  /** The start of a delivery. */
  lemma UnderwayFirst(l: Loaded, t: nat, out: seq<F.Sent>, size: nat)
    requires Safe(l) && t in l.s.writers && |out| <= l.s.writers[t].howmany && AllOf(l.mem, size)
    ensures Underway(l, [], l, t, out, 0, size) == true
  {
  }

  /** The completion of a delivery. */
  lemma Finished(l0: Loaded, acts: seq<Act>, l: Loaded, t: nat, out: seq<F.Sent>, size: nat, a: Act)
    returns (acts': seq<Act>, l': Loaded)
    requires Underway(l0, acts, l, t, out, |out|, size) && a.e == R.Complete(t)
    ensures Enabled(l, a) && l' == Do(l, a) && Safe(l') && Run(l0, acts', l') && t !in l'.s.writers
    ensures Faces(B.StoresOf(Events(acts'), t), DataOf(acts', t), out)
  {
    Completes(l, t, a);
    acts', l' := RunMore(l0, acts, l, a);
    FacesDone(acts, a, t, out);
  }

  lemma FacesDone(acts: seq<Act>, a: Act, t: nat, out: seq<F.Sent>)
    requires a.e == R.Complete(t) && Faces(B.StoresOf(Events(acts), t), DataOf(acts, t), out[..|out|])
    ensures Faces(B.StoresOf(Events(acts + [a]), t), DataOf(acts + [a], t), out)
  {
    CompletesOnly(a, t);
    NothingOwn(acts, [a], t);
    assert out[..|out|] == out;
  }

  lemma Completes(l: Loaded, t: nat, a: Act)
    requires Safe(l) && t in l.s.writers && a.e == R.Complete(t)
    ensures Enabled(l, a) && t !in Do(l, a).s.writers
  {
  }

  lemma CompletesOnly(a: Act, t: nat)
    requires a.e == R.Complete(t)
    ensures B.StoresOf(Events([a]), t) == [] && DataOf([a], t) == []
  {
    OnlyOne(a);
    assert [a.e][1..] == [];
  }

  /** A run goes on. */
  lemma RunMore(l0: Loaded, acts: seq<Act>, l: Loaded, a: Act) returns (acts': seq<Act>, l': Loaded)
    requires Safe(l0) && Run(l0, acts, l) && Safe(l) && Enabled(l, a)
    ensures acts' == acts + [a] && l' == Do(l, a) && Safe(l') && Run(l0, acts', l')
  {
    RunOne(l, a);
    acts', l' := acts + [a], Do(l, a);
    RunAppend(l0, acts, l, [a], l');
  }

  /** Copy and complete. */
  method CopyAndComplete(ring: LeaseRing, mem: array<seq<byte>>, t: nat, out: seq<F.Sent>, size: nat, during: seq<seq<Act>>,
                         writers: map<nat, Writer>, issued: nat, ghost l0: Loaded)
    returns (writers': map<nat, Writer>, issued': nat, ghost acts: seq<Act>, ghost l: Loaded)
    requires Copying(ring, mem, t, out, 0, size, during, writers, issued, l0, [], l0) && Within(out, size)
    modifies ring, ring.kring, ring.slots, ring.leases, mem
    ensures OnRing(ring, mem, l, writers', issued') == true && Run(l0, acts, l) == true && t !in l.s.writers
    ensures Faces(B.StoresOf(Events(acts), t), DataOf(acts, t), out) == true
  {
    writers', issued', acts, l := StoreAll(ring, mem, t, out, size, during, writers, issued, l0);
    ghost var a := Act(R.Complete(t), [], []);
    ghost var acts1, l1 := Finished(l0, acts, l, t, out, size, a);
    writers' := TakeComplete(ring, mem, t, writers', issued', l, a);
    acts, l := acts1, l1;
  }

  /** One destination of the second pass, with its ring: reserve, copy, complete.  Other writers and the reader run between
      any two of these steps. */
  method ServeRing(sc: F.Scratch, ring: LeaseRing, mem: array<seq<byte>>, q: nat, size: nat, ft: seq<L.Frag>, frags: seq<nat>,
                   during: seq<seq<Act>>, writers: map<nat, Writer>, issued: nat,
                   ghost dec: seq<nat>, ghost lists: seq<seq<nat>>, ghost l: Loaded, ghost a: Act)
    returns (out: seq<F.Sent>, writers': map<nat, Writer>, issued': nat, ghost acts: seq<Act>, ghost l': Loaded)
    requires sc.Lists(frags, dec, lists) && F.Sized(frags, dec) && F.Buffers(ft, frags) && q < F.BRDQ && 64 <= size
    requires lists[q] == F.Members(dec, q) && lists[F.BRDQ] == F.Members(dec, F.BRDQ)
    requires lists[q] != [] || lists[F.BRDQ] != []
    requires OnRing(ring, mem, l, writers, issued) && a.e == R.Reserve(Needed(frags, dec, q)) && Enabled(l, a)
    requires AllOf(l.mem, size)
    requires Safe(Do(l, a))
    requires Playable(Do(l, a), issued, F.Received(ft, frags, dec, q, F.BRDQ, Port(l.s.k, size)), 0, during)
    requires ring.leases !in {sc.next, sc.head, sc.tail, sc.len}
    modifies ring, ring.kring, ring.slots, ring.leases, mem
    ensures out == F.Received(ft, frags, dec, q, F.BRDQ, Port(l.s.k, size))
    ensures OnRing(ring, mem, l', writers', issued') == true && Safe(Do(l, a)) && Run(Do(l, a), acts, l') == true
    ensures issued !in l'.s.writers && Faces(B.StoresOf(Events(acts), issued), DataOf(acts, issued), out) == true
  {
    ghost var goal;
    writers', goal := ReserveFor(sc, ring, mem, q, size, ft, frags, writers, issued, dec, lists, l, a);
    out := Deliver(sc, q, ft, frags, writers'[issued].howmany, size, dec, lists, goal);
    SizeStays(l, a, size);
    UnderwayFirst(Do(l, a), issued, out, size);
    writers', issued', acts, l' := CopyAndComplete(ring, mem, issued, out, size, during, writers', issued + 1, Do(l, a));
  }

  lemma {:induction false} NoStores(acts: seq<Act>, t: nat)
    requires forall i {:trigger acts[i]} :: 0 <= i < |acts| ==> !By(acts[i], t)
    ensures B.StoresOf(Events(acts), t) == [] && DataOf(acts, t) == []
  {
    if acts != [] {
      NoStores(acts[1..], t);
      EventsFirst(acts);
    }
  }

  /** What ServeRing has done for a port arrives there: whatever the others do afterwards until no writer is active, the
      stream of the ring has what the switch sends to the port, in one piece and with its bytes. */
  lemma ServedArrives(l: Loaded, a: Act, size: nat, ft: seq<L.Frag>, frags: seq<nat>, dec: seq<nat>, q: nat,
                      acts: seq<Act>, l1: Loaded, more: seq<Act>, l2: Loaded, out: seq<F.Sent>)
    requires Safe(l) && F.Buffers(ft, frags) && F.Sized(frags, dec) && q < F.BRDQ
    requires a.e == R.Reserve(Needed(frags, dec, q)) && Enabled(l, a) && Safe(Do(l, a)) && Run(Do(l, a), acts, l1)
    requires out == F.Received(ft, frags, dec, q, F.BRDQ, Port(l.s.k, size))
    requires Faces(B.StoresOf(Events(acts), |l.s.g.hist|), DataOf(acts, |l.s.g.hist|), out)
    requires Safe(l1) && Run(l1, more, l2) && l2.s.writers == map[]
    requires forall i {:trigger more[i]} :: 0 <= i < |more| ==> !By(more[i], |l.s.g.hist|)
    ensures Safe(l2) && |R.Stream(l.s.g)| <= |l.s.g.log| && |l.s.g.hist| < |l2.s.g.hist|
    ensures Arrived(R.Stream(l2.s.g), l2.bytes, |l.s.g.log|, l2.s.g.bounds[|l.s.g.hist| + 1], out)
  {
    NoStores(more, |l.s.g.hist|);
    NothingOwn(acts, more, |l.s.g.hist|);
    RunAppend(Do(l, a), acts, l1, more, l2);
    SwitchedIntoStream(l, a, size, ft, frags, dec, q, acts + more, l2, out);
  }
}
