/** GSO segments and the lease protocol: bdg_mismatch_datapath writes as many slots as there are segments, whatever the
    switch was granted. */
module GsoLease {
  import opened Bytes
  import opened Ring
  import opened KringModel
  import opened Lease
  import opened LeaseRingImpl
  import R = LeaseRuns
  import G = Gso

  /** i times nm_next. */
  function Ahead(j: nat, i: nat, n: nat): (r: nat)
    requires j < n
    ensures r < n
  {
    if i == 0 then j else Next(Ahead(j, i - 1, n), n - 1)
  }

  lemma {:induction false} AheadAt(j: nat, i: nat, n: nat)
    requires j < n && i <= n
    ensures Ahead(j, i, n) == At(j, i, n)
  {
    if i > 0 {
      AheadAt(j, i - 1, n);
      NextAt(j, i - 1, n);
    }
  }

  /** The slots after segments of these lengths were stored from index j on. */
  ghost function Emitted(slots: seq<Slot>, j: nat, lens: seq<nat>): (r: seq<Slot>)
    requires j < |slots|
    ensures |r| == |slots|
  {
    if lens == [] then slots
    else
      var k := |lens| - 1;
      var s, x := Emitted(slots, j, lens[..k]), Ahead(j, k, |slots|);
      s[x := Slot(s[x].bufIdx, lens[k], 0)]
  }

  /** As long as the segments do not go round the ring: segment i has its slot, with its length and no flags. */
  lemma {:induction false} EmittedAt(slots: seq<Slot>, j: nat, lens: seq<nat>, x: nat)
    requires j < |slots| && |lens| <= |slots| && x < |slots|
    ensures var d := Dist(j, x, |slots|);
            Emitted(slots, j, lens)[x] == if d < |lens| then Slot(slots[x].bufIdx, lens[d], 0) else slots[x]
  {
    if lens != [] {
      var k := |lens| - 1;
      EmittedAt(slots, j, lens[..k], x);
      AheadAt(j, k, |slots|);
      DistAt(j, k, |slots|);
    }
  }

  /** What is left of the grant; an excess is cut off. */
  function Left(howmany: nat, m: nat): nat {
    if m > howmany then 0 else howmany - m
  }

  /** The segments go to the ring, one after the other, and are counted at the end. */
  method Emit(ring: LeaseRing, w: Writer, out: seq<seq<byte>>) returns (w': Writer)
    requires ring.Valid() && w.j < ring.n
    modifies ring.slots
    ensures ring.Valid() && ring.View() == old(ring.View()).(slots := Emitted(old(ring.slots[..]), w.j, Lengths(out)))
    ensures w' == w.(j := Ahead(w.j, |out|, ring.n), howmany := Left(w.howmany, |out|))
  {
    var j, count := w.j, 0;
    while count < |out|
      invariant count <= |out| && j == Ahead(w.j, count, ring.n)
      invariant ring.slots[..] == Emitted(old(ring.slots[..]), w.j, Lengths(out)[..count])
    {
      assert Lengths(out)[..count + 1][..count] == Lengths(out)[..count];
      ring.slots[j] := Slot(ring.slots[j].bufIdx, |out[count]|, 0);
      j, count := Next(j, ring.n - 1), count + 1;
    }
    assert Lengths(out)[..|out|] == Lengths(out);
    var dstSlots := count;
    if dstSlots > w.howmany {
      dstSlots := w.howmany;
    }
    w' := w.(j := j, howmany := w.howmany - dstSlots);
  }

  ghost function Lengths(out: seq<seq<byte>>): (r: seq<nat>)
    ensures |r| == |out| && forall i {:trigger r[i]} :: 0 <= i < |out| ==> r[i] == |out[i]|
  {
    seq(|out|, i requires 0 <= i < |out| => |out[i]|)
  }

  lemma RunOne(s: R.System, e: R.Event) returns (s': R.System)
    requires R.Good(s) && R.Enabled(s, e)
    ensures s' == R.Step(s, e) && R.Good(s') && R.Run(s, [e], s')
  {
    s' := R.StepGood(s, e);
    assert [e][1..] == [];
  }

  lemma {:induction false} RunAppend(s: R.System, es: seq<R.Event>, s1: R.System, e: R.Event) returns (s': R.System)
    requires R.Good(s) && R.Run(s, es, s1) && R.Good(s1) && R.Enabled(s1, e)
    ensures s' == R.Step(s1, e) && R.Good(s') && R.Run(s, es + [e], s')
    decreases |es|
  {
    if es == [] {
      s' := RunOne(s, e);
    } else {
      var s2 := R.StepGood(s, es[0]);
      s' := RunAppend(s2, es[1..], s1, e);
      TailAppend(es, e);
    }
  }

  lemma TailAppend(es: seq<R.Event>, e: R.Event)
    requires es != []
    ensures (es + [e])[0] == es[0] && (es + [e])[1..] == es[1..] + [e]
  {
  }

  /** The ring and its writer t after these segments. */
  ghost predicate Reached(s: R.System, t: nat, lens: seq<nat>, s': R.System)
    requires R.Good(s) && t in s.writers
  {
    var w := s.writers[t];
    && w.j < s.k.n == |s.k.slots| && s'.k == s.k.(slots := Emitted(s.k.slots, w.j, lens)) && t in s'.writers
    && s'.writers[t] == w.(j := Ahead(w.j, |lens|, s.k.n), howmany := Left(w.howmany, |lens|))
  }

  lemma ReachedMore(s: R.System, t: nat, lens: seq<nat>, s1: R.System, s': R.System, slot: Slot)
    requires R.Good(s) && t in s.writers && lens != [] && Reached(s, t, lens[..|lens| - 1], s1) && t in s1.writers
    requires s1.writers[t].j < |s1.k.slots| && s'.k == s1.k.(slots := s1.k.slots[s1.writers[t].j := slot]) && t in s'.writers
    requires 0 < s1.k.n && 0 < s1.writers[t].howmany && s'.writers[t] == StoredWriter(s1.k, s1.writers[t])
    requires |lens| <= s.writers[t].howmany
    requires slot == Slot(s1.k.slots[s1.writers[t].j].bufIdx, lens[|lens| - 1], 0)
    ensures Reached(s, t, lens, s')
  {
    EmittedMore(s.k.slots, s.writers[t].j, lens);
  }

  /** What a store changes. */
  lemma StoreChanges(s: R.System, t: nat, slot: Slot)
    requires R.Good(s) && R.Enabled(s, R.Store(t, slot))
    ensures var w, s' := s.writers[t], R.Step(s, R.Store(t, slot));
            && w.j < |s.k.slots| && s'.k == s.k.(slots := s.k.slots[w.j := slot]) && t in s'.writers
            && 0 < s.k.n && 0 < w.howmany && s'.writers[t] == StoredWriter(s.k, w)
  {
    WriterInRange(s.k, s.g, t, s.writers[t]);
  }

  lemma EmittedMore(slots: seq<Slot>, j: nat, lens: seq<nat>)
    requires j < |slots| && lens != []
    ensures var k := |lens| - 1;
            var s, x := Emitted(slots, j, lens[..k]), Ahead(j, k, |slots|);
            Emitted(slots, j, lens) == s[x := Slot(s[x].bufIdx, lens[k], 0)] && Ahead(j, |lens|, |slots|) == Next(x, |slots| - 1)
  {
  }

  /** As long as the segments are no more than the granted slots, they are stores of the protocol: the writer may
      complete, and what it wrote is in the stream in one piece. */
  lemma {:induction false} EmitIsRun(s: R.System, t: nat, lens: seq<nat>) returns (es: seq<R.Event>, s': R.System)
    requires R.Good(s) && t in s.writers && |lens| <= s.writers[t].howmany
    ensures R.Good(s') && R.Run(s, es, s') && Reached(s, t, lens, s')
    decreases |lens|
  {
    WriterInRange(s.k, s.g, t, s.writers[t]);
    if lens == [] {
      es, s' := [], s;
    } else {
      var s1;
      es, s1 := EmitIsRun(s, t, lens[..|lens| - 1]);
      var w := s1.writers[t];
      WriterInRange(s1.k, s1.g, t, w);
      var slot := Slot(s1.k.slots[w.j].bufIdx, lens[|lens| - 1], 0);
      StoreChanges(s1, t, slot);
      s' := RunAppend(s, es, s1, R.Store(t, slot));
      es := es + [R.Store(t, slot)];
      ReachedMore(s, t, lens, s1, s', slot);
    }
  }

  /** The position of the next store of a writer. */
  ghost function Position(s: R.System, t: nat): nat
    requires R.Good(s) && t in s.writers
  {
    s.g.bounds[t] + s.g.hist[t].used
  }

  /** Segment i is stored at this index: the one of its position, as long as the ring does not go round. */
  lemma SegmentAt(s: R.System, t: nat, i: nat)
    requires R.Good(s) && t in s.writers && 0 < s.writers[t].howmany
    requires s.g.aCur <= Position(s, t) && Position(s, t) + i <= s.g.aCur + s.k.n
    ensures s.writers[t].j < s.k.n
    ensures Ahead(s.writers[t].j, i, s.k.n) == At(s.k.hwcur, Position(s, t) + i - s.g.aCur, s.k.n)
  {
    WriterInRange(s.k, s.g, t, s.writers[t]);
    AheadAt(s.writers[t].j, i, s.k.n);
    AtAt(s.k.hwcur, Position(s, t) - s.g.aCur, i, s.k.n);
  }

  /** The i-th of the next stores lies in the writer's own block. */
  ghost predicate Own(s: R.System, t: nat, i: nat)
    requires R.Good(s) && t in s.writers
  {
    Position(s, t) + i < s.g.bounds[t + 1]
  }

  lemma OwnExactly(s: R.System, t: nat, i: nat)
    requires R.Good(s) && t in s.writers
    ensures Own(s, t, i) <==> i < s.writers[t].howmany
  {
    assert Holds(s.k, s.g, t, s.writers[t]);
  }

  lemma OwnAll(s: R.System, t: nat, m: nat)
    requires R.Good(s) && t in s.writers
    ensures (forall i: nat {:trigger Own(s, t, i)} :: i < m ==> Own(s, t, i)) <==> m <= s.writers[t].howmany
  {
    forall i: nat ensures Own(s, t, i) <==> i < s.writers[t].howmany {
      OwnExactly(s, t, i);
    }
    if s.writers[t].howmany < m {
      assert !Own(s, t, s.writers[t].howmany);
    }
  }

  /** The segments of a packet stay in the writer's own block exactly if the payload fits the granted slots.  The test of
      the switch, that there are no more fragments than granted slots, is neither needed for that nor enough. */
  lemma WithinLease(s: R.System, t: nat, hdr: seq<byte>, payload: seq<byte>, mfs: nat)
    requires R.Good(s) && t in s.writers && |hdr| < mfs
    ensures (forall i: nat {:trigger Own(s, t, i)} :: i < |G.RawSegments(hdr, payload, mfs)| ==> Own(s, t, i))
            <==> |payload| <= s.writers[t].howmany * (mfs - |hdr|)
  {
    G.SegmentsWithin(hdr, payload, mfs, s.writers[t].howmany);
    OwnAll(s, t, |G.RawSegments(hdr, payload, mfs)|);
  }

  /** The first segment too many goes to the slot where the block ends. */
  lemma FirstBeyond(s: R.System, t: nat)
    requires R.Good(s) && t in s.writers && 0 < s.writers[t].howmany
    ensures var w := s.writers[t];
            && w.j < s.k.n && s.g.aCur <= s.g.bounds[t + 1] < s.g.aCur + s.k.n
            && Position(s, t) + w.howmany == s.g.bounds[t + 1]
            && Ahead(w.j, w.howmany, s.k.n) == At(s.k.hwcur, s.g.bounds[t + 1] - s.g.aCur, s.k.n)
            && Ahead(w.j, w.howmany, s.k.n) == s.g.at[t + 1]
  {
    var w := s.writers[t];
    assert Holds(s.k, s.g, t, w);
    WriterInRange(s.k, s.g, t, w);
    SegmentAt(s, t, w.howmany);
  }

  /** Which is a slot of the writer that reserved next, if that is still active, or the one at hwlease. */
  lemma WhoseSlot(s: R.System, t: nat)
    requires R.Good(s) && t in s.writers
    ensures t + 1 == |s.g.hist| ==> s.g.at[t + 1] == s.k.hwlease
    ensures t + 1 in s.writers ==> s.g.at[t + 1] == s.writers[t + 1].myStart
    ensures t + 1 in s.writers && s.writers[t + 1].howmany > 0 ==> s.g.bounds[t + 1] < s.g.bounds[t + 2]
  {
    if t + 1 in s.writers {
      assert Holds(s.k, s.g, t + 1, s.writers[t + 1]);
    }
  }

  /** In every good state, whatever was granted: a packet of one fragment, which the switch does not refuse, and whose last
      segment is stored beyond the block. */
  lemma FragmentFitsSegmentsDoNot(s: R.System, t: nat, mfs: nat) returns (frags: seq<seq<byte>>)
    requires R.Good(s) && t in s.writers && 0 < s.writers[t].howmany && 54 < mfs
    ensures |frags| == 1 <= s.writers[t].howmany && G.Segmentable(frags, true, mfs)
    ensures var m := |G.RawSegments(G.Header(frags, true, mfs), G.Payload(frags, true, mfs), mfs)|;
            m == s.writers[t].howmany + 1 && Position(s, t) + (m - 1) == s.g.bounds[t + 1]
  {
    frags := G.OneFragmentTooMany(mfs, s.writers[t].howmany);
    FirstBeyond(s, t);
  }

  /** The writer ends where its block ends, after any blanks, exactly if the segments were not too many. */
  lemma EndOfLease(s: R.System, t: nat, m: nat)
    requires R.Good(s) && t in s.writers && 0 < s.writers[t].howmany && m < s.writers[t].howmany + s.k.n && m <= s.k.n
    ensures var w := s.writers[t];
            w.j < s.k.n && w.howmany <= s.k.n
            && (At(Ahead(w.j, m, s.k.n), Left(w.howmany, m), s.k.n) == s.g.at[t + 1] <==> m <= w.howmany)
  {
    var w := s.writers[t];
    WriterInRange(s.k, s.g, t, w);
    FirstBeyond(s, t);
    AheadAt(w.j, m, s.k.n);
    AheadAt(w.j, w.howmany, s.k.n);
    EndIndex(w.j, w.howmany, m, s.k.n);
  }

  lemma EndIndex(j: nat, g: nat, m: nat, n: nat)
    requires j < n && g <= n && m <= n && m < g + n
    ensures At(At(j, m, n), Left(g, m), n) == At(j, g, n) <==> m <= g
  {
  }
}
