/** nm_bdg_preflush: the slots that a port sends are gathered into batches of complete packets, and each batch goes through
    the switch. */
module Preflush {
  import opened Bytes
  import opened Ring
  import opened KringModel
  import opened Buffers
  import opened Learning
  import F = Flush

  const NM_BDG_BATCH: nat := 1024
  const NM_MULTISEG: nat := 64

  /** The entry of the scratchpad for a slot. */
  function Entry(s: Slot, mem: seq<seq<byte>>): Frag
    requires 0 < |mem|
  {
    Frag(mem[BufferOf(s, |mem|)], s.len, s.flags)
  }

  /** Entries for the d slots from index i on. */
  ghost function Entries(slots: seq<Slot>, i: nat, d: nat, n: nat, mem: seq<seq<byte>>): (r: seq<Frag>)
    requires |slots| == n && i < n && d <= n && 0 < |mem|
    ensures |r| == d && forall k {:trigger r[k]} :: 0 <= k < d ==> r[k] == Entry(slots[At(i, k, n)], mem)
  {
    seq(d, k requires 0 <= k < d => Entry(slots[At(i, k, n)], mem))
  }

  /** Each has the bytes of the buffer of its slot, the length and the flags; an index beyond the table is buffer 0. */
  lemma EntrySays(slots: seq<Slot>, i: nat, d: nat, n: nat, mem: seq<seq<byte>>, k: nat)
    requires |slots| == n && i < n && d <= n && 0 < |mem| && k < d
    ensures var f, s := Entries(slots, i, d, n, mem)[k], slots[At(i, k, n)];
            f.len == s.len && f.flags == s.flags && f.buf == if s.bufIdx < |mem| then mem[s.bufIdx] else mem[0]
  {
  }

  /** The last packet is complete, no packet has more fragments than the switch allows for, and buffers are large enough. */
  ghost predicate Sendable(fs: seq<Frag>, hdrLen: nat) {
    && hdrLen <= 12 && (fs != [] ==> !MoreFrag(fs[|fs| - 1]))
    && (forall k {:trigger fs[k]} :: 0 <= k < |fs| ==> 64 <= |fs[k].buf|)
    && forall i: nat {:trigger EndsWithin(fs, i)} :: i + NM_MULTISEG <= |fs| ==> EndsWithin(fs, i)
  }

  ghost predicate EndsWithin(fs: seq<Frag>, i: nat) {
    exists k {:trigger fs[k]} :: i <= k < i + NM_MULTISEG && k < |fs| && !MoreFrag(fs[k])
  }

  /* ---- batches ---- */

  /** These fragments are one packet: all but the last announce another one. */
  ghost predicate OnePacket(pkt: seq<Frag>) {
    && pkt != [] && pkt[|pkt| - 1].flags / 32 % 2 == 0
    && forall j {:trigger pkt[j]} :: 0 <= j < |pkt| - 1 ==> pkt[j].flags / 32 % 2 == 1
  }

  /** From fragment i on, packets are counted one by one. */
  ghost predicate Framed(ft: seq<Frag>, frags: seq<nat>, i: nat)
    requires |frags| == |ft|
    decreases |ft| - i
  {
    || i == |ft|
    || (i < |ft| && 1 <= frags[i] && i + frags[i] <= |ft| && OnePacket(ft[i..i + frags[i]]) && Framed(ft, frags, i + frags[i]))
  }

  lemma {:induction false} FramedMore(ft: seq<Frag>, frags: seq<nat>, i: nat, pkt: seq<Frag>, cnts: seq<nat>)
    requires |frags| == |ft| && i <= |ft| && Framed(ft, frags, i)
    requires |cnts| == |pkt| && OnePacket(pkt) && cnts[0] == |pkt|
    ensures Framed(ft + pkt, frags + cnts, i)
    decreases |ft| - i
  {
    var ft', frags' := ft + pkt, frags + cnts;
    if i == |ft| {
      assert ft'[i..i + |pkt|] == pkt && frags'[i] == |pkt|;
    } else {
      FramedMore(ft, frags, i + frags[i], pkt, cnts);
      assert ft'[i..i + frags[i]] == ft[i..i + frags[i]] && frags'[i] == frags[i];
    }
  }

  lemma {:induction false} ShiftedFramed(ft: seq<Frag>, fr: seq<nat>, ft1: seq<Frag>, fr1: seq<nat>, ft2: seq<Frag>,
                                         fr2: seq<nat>, i: nat)
    requires Joined(ft, fr, ft1, fr1, ft2, fr2) && i <= |ft2| && Framed(ft2, fr2, i)
    ensures Framed(ft, fr, |ft1| + i)
    decreases |ft2| - i
  {
    if i < |ft2| {
      SecondPacket(ft, fr, ft1, fr1, ft2, fr2, i);
      ShiftedFramed(ft, fr, ft1, fr1, ft2, fr2, i + fr2[i]);
    }
  }

  lemma {:induction false} BothFramed(ft: seq<Frag>, fr: seq<nat>, ft1: seq<Frag>, fr1: seq<nat>, ft2: seq<Frag>,
                                      fr2: seq<nat>, i: nat)
    requires Joined(ft, fr, ft1, fr1, ft2, fr2) && i <= |ft1| && Framed(ft1, fr1, i) && Framed(ft2, fr2, 0)
    ensures Framed(ft, fr, i)
    decreases |ft1| - i
  {
    if i == |ft1| {
      ShiftedFramed(ft, fr, ft1, fr1, ft2, fr2, 0);
    } else {
      FirstPacket(ft, fr, ft1, fr1, ft2, fr2, i);
      BothFramed(ft, fr, ft1, fr1, ft2, fr2, i + fr1[i]);
    }
  }

  /** One more packet. */
  lemma {:induction false} BatchMore(ft: seq<Frag>, frags: seq<nat>, h: nat, i: nat, pkt: seq<Frag>, cnts: seq<nat>)
    requires |frags| == |ft| && i <= |ft| && F.Batch(ft, frags, h, i)
    requires |cnts| == |pkt| && WellFormed(pkt, h) && cnts[0] == |pkt|
    ensures F.Batch(ft + pkt, frags + cnts, h, i)
    decreases |ft| - i
  {
    var ft', frags' := ft + pkt, frags + cnts;
    if i == |ft| {
      assert ft'[i..i + |pkt|] == pkt && frags'[i] == |pkt|;
    } else {
      BatchMore(ft, frags, h, i + frags[i], pkt, cnts);
      assert ft'[i..i + frags[i]] == ft[i..i + frags[i]] && frags'[i] == frags[i];
    }
  }

  /** ft is ft1 and ft2, with their counts. */
  ghost predicate Joined(ft: seq<Frag>, fr: seq<nat>, ft1: seq<Frag>, fr1: seq<nat>, ft2: seq<Frag>, fr2: seq<nat>) {
    |fr1| == |ft1| && |fr2| == |ft2| && |fr| == |ft| && ft == ft1 + ft2 && fr == fr1 + fr2
  }

  lemma FirstPacket(ft: seq<Frag>, fr: seq<nat>, ft1: seq<Frag>, fr1: seq<nat>, ft2: seq<Frag>, fr2: seq<nat>, i: nat)
    requires Joined(ft, fr, ft1, fr1, ft2, fr2) && i < |ft1| && i + fr1[i] <= |ft1|
    ensures fr[i] == fr1[i] && i + fr1[i] <= |ft| && ft[i..i + fr1[i]] == ft1[i..i + fr1[i]]
  {
  }

  lemma SecondPacket(ft: seq<Frag>, fr: seq<nat>, ft1: seq<Frag>, fr1: seq<nat>, ft2: seq<Frag>, fr2: seq<nat>, i: nat)
    requires Joined(ft, fr, ft1, fr1, ft2, fr2) && i < |ft2| && i + fr2[i] <= |ft2|
    ensures var k := |ft1| + i; k < |ft| && fr[k] == fr2[i] && k + fr2[i] <= |ft| && ft[k..k + fr2[i]] == ft2[i..i + fr2[i]]
  {
  }

  lemma {:induction false} ShiftedBatch(h: nat, ft: seq<Frag>, fr: seq<nat>, ft1: seq<Frag>, fr1: seq<nat>, ft2: seq<Frag>,
                                        fr2: seq<nat>, i: nat)
    requires Joined(ft, fr, ft1, fr1, ft2, fr2) && i <= |ft2| && F.Batch(ft2, fr2, h, i)
    ensures F.Batch(ft, fr, h, |ft1| + i)
    decreases |ft2| - i
  {
    if i < |ft2| {
      SecondPacket(ft, fr, ft1, fr1, ft2, fr2, i);
      ShiftedBatch(h, ft, fr, ft1, fr1, ft2, fr2, i + fr2[i]);
    }
  }

  /** Packets taken one by one by any rule. */
  ghost function Folded(f: (seq<Seen>, seq<Frag>) -> (seq<Seen>, nat), log: seq<Seen>, ft: seq<Frag>, fr: seq<nat>, i: nat)
    : (seq<Seen>, seq<nat>)
    requires |fr| == |ft|
    decreases if i < |ft| then |ft| - i else 0
  {
    if i < |ft| && 1 <= fr[i] && i + fr[i] <= |ft| then
      var d := f(log, ft[i..i + fr[i]]);
      var rest := Folded(f, d.0, ft, fr, i + fr[i]);
      (rest.0, F.Only(d.1, fr[i]) + rest.1)
    else
      (log, [])
  }

  ghost predicate Cuts(fr: seq<nat>, i: nat)
    decreases |fr| - i
  {
    i == |fr| || (i < |fr| && 1 <= fr[i] && i + fr[i] <= |fr| && Cuts(fr, i + fr[i]))
  }

  /** A batch behind another one is taken as if it were alone. */
  lemma {:induction false} Shifted(f: (seq<Seen>, seq<Frag>) -> (seq<Seen>, nat), log: seq<Seen>, ft: seq<Frag>, fr: seq<nat>,
                                   ft1: seq<Frag>, fr1: seq<nat>, ft2: seq<Frag>, fr2: seq<nat>, i: nat)
    requires Joined(ft, fr, ft1, fr1, ft2, fr2) && i <= |ft2| && Cuts(fr2, i)
    ensures Folded(f, log, ft, fr, |ft1| + i) == Folded(f, log, ft2, fr2, i)
    decreases |ft2| - i
  {
    if i < |ft2| {
      SecondPacket(ft, fr, ft1, fr1, ft2, fr2, i);
      Shifted(f, f(log, ft2[i..i + fr2[i]]).0, ft, fr, ft1, fr1, ft2, fr2, i + fr2[i]);
    }
  }

  lemma {:induction false} BothFolded(f: (seq<Seen>, seq<Frag>) -> (seq<Seen>, nat), log: seq<Seen>, ft: seq<Frag>, fr: seq<nat>,
                                      ft1: seq<Frag>, fr1: seq<nat>, ft2: seq<Frag>, fr2: seq<nat>, i: nat)
    returns (r1: (seq<Seen>, seq<nat>), r2: (seq<Seen>, seq<nat>))
    requires Joined(ft, fr, ft1, fr1, ft2, fr2) && i <= |ft1| && Cuts(fr1, i) && Cuts(fr2, 0)
    ensures r1 == Folded(f, log, ft1, fr1, i) && r2 == Folded(f, r1.0, ft2, fr2, 0)
    ensures Folded(f, log, ft, fr, i) == (r2.0, r1.1 + r2.1)
    decreases |ft1| - i
  {
    if i == |ft1| {
      Shifted(f, log, ft, fr, ft1, fr1, ft2, fr2, 0);
      r1, r2 := (log, []), Folded(f, log, ft2, fr2, 0);
      assert [] + r2.1 == r2.1;
    } else {
      FirstPacket(ft, fr, ft1, fr1, ft2, fr2, i);
      var d := f(log, ft1[i..i + fr1[i]]);
      var rest;
      rest, r2 := BothFolded(f, d.0, ft, fr, ft1, fr1, ft2, fr2, i + fr1[i]);
      r1 := (rest.0, F.Only(d.1, fr1[i]) + rest.1);
      Associate(F.Only(d.1, fr1[i]), rest.1, r2.1);
    }
  }

  /** The rule of the switch. */
  ghost function Rule(c: F.Source): (seq<Seen>, seq<Frag>) -> (seq<Seen>, nat) {
    (log, pkt) => if WellFormed(pkt, c.hdrLen) then F.Decision(c, log, pkt) else (log, F.NOQ)
  }

  lemma {:induction false} SwitchedIsFolded(c: F.Source, log: seq<Seen>, ft: seq<Frag>, fr: seq<nat>, i: nat)
    requires |fr| == |ft| && i <= |ft| && F.Batch(ft, fr, c.hdrLen, i)
    ensures F.Switched(c, log, ft, fr, i) == Folded(Rule(c), log, ft, fr, i) && Cuts(fr, i)
    decreases |ft| - i
  {
    if i < |ft| {
      SwitchedIsFolded(c, F.Decision(c, log, ft[i..i + fr[i]]).0, ft, fr, i + fr[i]);
    }
  }

  lemma {:induction false} BothBatch(h: nat, ft: seq<Frag>, fr: seq<nat>, ft1: seq<Frag>, fr1: seq<nat>, ft2: seq<Frag>,
                                     fr2: seq<nat>, i: nat)
    requires Joined(ft, fr, ft1, fr1, ft2, fr2) && i <= |ft1| && F.Batch(ft1, fr1, h, i) && F.Batch(ft2, fr2, h, 0)
    ensures F.Batch(ft, fr, h, i)
    decreases |ft1| - i
  {
    if i == |ft1| {
      ShiftedBatch(h, ft, fr, ft1, fr1, ft2, fr2, 0);
    } else {
      FirstPacket(ft, fr, ft1, fr1, ft2, fr2, i);
      BothBatch(h, ft, fr, ft1, fr1, ft2, fr2, i + fr1[i]);
    }
  }

  /** Two batches, one after the other, are switched like one: the size of batches makes no difference. */
  lemma TwoBatches(c: F.Source, log: seq<Seen>, ft: seq<Frag>, fr: seq<nat>, ft1: seq<Frag>, fr1: seq<nat>, ft2: seq<Frag>,
                   fr2: seq<nat>)
    returns (r1: (seq<Seen>, seq<nat>), r2: (seq<Seen>, seq<nat>))
    requires Joined(ft, fr, ft1, fr1, ft2, fr2) && F.Batch(ft1, fr1, c.hdrLen, 0) && F.Batch(ft2, fr2, c.hdrLen, 0)
    requires F.Batch(ft, fr, c.hdrLen, 0)
    ensures r1 == F.Switched(c, log, ft1, fr1, 0) && r2 == F.Switched(c, r1.0, ft2, fr2, 0)
    ensures F.Switched(c, log, ft, fr, 0) == (r2.0, r1.1 + r2.1)
  {
    SwitchedIsFolded(c, log, ft1, fr1, 0);
    SwitchedIsFolded(c, F.Switched(c, log, ft1, fr1, 0).0, ft2, fr2, 0);
    SwitchedIsFolded(c, log, ft, fr, 0);
    r1, r2 := BothFolded(Rule(c), log, ft, fr, ft1, fr1, ft2, fr2, 0);
  }

  lemma Associate(a: seq<nat>, b: seq<nat>, c: seq<nat>)
    ensures (a + b) + c == a + (b + c)
  {
  }

  /* ---- the loop ---- */

  /** The entries from lo on, of which the last cnt - 1 belong to a packet that goes on. */
  ghost predicate Gathering(fs: seq<Frag>, lo: nat, ft: seq<Frag>, frags: seq<nat>, cnt: nat, h: nat) {
    && lo + |ft| <= |fs| && ft == fs[lo..lo + |ft|] && |frags| == |ft| && 1 <= cnt <= |ft| + 1
    && F.Batch(ft[..|ft| - (cnt - 1)], frags[..|ft| - (cnt - 1)], h, 0)
    && Framed(ft[..|ft| - (cnt - 1)], frags[..|ft| - (cnt - 1)], 0)
    && forall k {:trigger ft[k]} :: |ft| - (cnt - 1) <= k < |ft| ==> MoreFrag(ft[k])
  }

  /** The packet goes on. */
  lemma GatherMore(fs: seq<Frag>, lo: nat, ft: seq<Frag>, frags: seq<nat>, cnt: nat, h: nat, x: nat)
    requires Gathering(fs, lo, ft, frags, cnt, h) && lo + |ft| < |fs| && MoreFrag(fs[lo + |ft|])
    ensures Gathering(fs, lo, ft + [fs[lo + |ft|]], frags + [x], cnt + 1, h) == true
  {
    Longer(fs, lo, ft);
    SamePrefix(ft, fs[lo + |ft|], frags, x, |ft| - (cnt - 1));
  }

  lemma SamePrefix(ft: seq<Frag>, f: Frag, frags: seq<nat>, x: nat, start: nat)
    requires |frags| == |ft| && start <= |ft|
    ensures (ft + [f])[..start] == ft[..start] && (frags + [x])[..start] == frags[..start]
  {
  }

  /** The packet is complete. */
  lemma GatherLast(fs: seq<Frag>, lo: nat, ft: seq<Frag>, frags: seq<nat>, cnt: nat, h: nat, x: nat)
    requires Gathering(fs, lo, ft, frags, cnt, h) && Sendable(fs, h) && lo + |ft| < |fs| && !MoreFrag(fs[lo + |ft|])
    ensures Gathering(fs, lo, ft + [fs[lo + |ft|]], (frags + [x])[|ft| + 1 - cnt := cnt], 1, h) == true
  {
    var f, start := fs[lo + |ft|], |ft| - (cnt - 1);
    Longer(fs, lo, ft);
    PacketFormed(fs, lo, ft + [f], start, h);
    PacketEnds(ft, start, f);
    Complete(ft, frags, start, f, x, cnt, h);
    Gathered(fs, lo, ft + [f], (frags + [x])[start := cnt], h);
  }

  lemma Gathered(fs: seq<Frag>, lo: nat, ft: seq<Frag>, frags: seq<nat>, h: nat)
    requires lo + |ft| <= |fs| && ft == fs[lo..lo + |ft|] && |frags| == |ft|
    requires F.Batch(ft[..|ft|], frags[..|ft|], h, 0) && Framed(ft[..|ft|], frags[..|ft|], 0)
    ensures Gathering(fs, lo, ft, frags, 1, h) == true
  {
  }

  lemma PacketEnds(ft: seq<Frag>, start: nat, f: Frag)
    requires start <= |ft| && !MoreFrag(f) && forall k {:trigger ft[k]} :: start <= k < |ft| ==> MoreFrag(ft[k])
    ensures OnePacket((ft + [f])[start..])
  {
    var pkt := (ft + [f])[start..];
    assert forall j {:trigger pkt[j]} :: 0 <= j < |pkt| - 1 ==> pkt[j] == ft[start + j];
  }

  lemma Longer(fs: seq<Frag>, lo: nat, ft: seq<Frag>)
    requires lo + |ft| < |fs| && ft == fs[lo..lo + |ft|]
    ensures ft + [fs[lo + |ft|]] == fs[lo..lo + |ft| + 1]
  {
  }

  /** The last packet joins the batch. */
  lemma Complete(ft: seq<Frag>, frags: seq<nat>, start: nat, f: Frag, x: nat, cnt: nat, h: nat)
    requires |frags| == |ft| && start <= |ft| && F.Batch(ft[..start], frags[..start], h, 0) && cnt == |ft| + 1 - start
    requires WellFormed((ft + [f])[start..], h) && Framed(ft[..start], frags[..start], 0) && OnePacket((ft + [f])[start..])
    ensures var ft', frags' := ft + [f], (frags + [x])[start := cnt];
            F.Batch(ft'[..|ft'|], frags'[..|ft'|], h, 0) && Framed(ft'[..|ft'|], frags'[..|ft'|], 0)
  {
    var ft', frags' := ft + [f], (frags + [x])[start := cnt];
    FramedMore(ft[..start], frags[..start], 0, ft'[start..], frags'[start..]);
    BatchMore(ft[..start], frags[..start], h, 0, ft'[start..], frags'[start..]);
    Whole(ft, frags, start, f, x, cnt);
  }

  lemma Whole(ft: seq<Frag>, frags: seq<nat>, start: nat, f: Frag, x: nat, cnt: nat)
    requires |frags| == |ft| && start <= |ft|
    ensures var ft', frags' := ft + [f], (frags + [x])[start := cnt];
            && ft[..start] + ft'[start..] == ft' == ft'[..|ft'|] && frags[..start] + frags'[start..] == frags' == frags'[..|ft'|]
  {
  }

  /** A packet that goes on has fewer fragments than allowed. */
  lemma Short(fs: seq<Frag>, lo: nat, ft: seq<Frag>, cnt: nat, h: nat)
    requires Sendable(fs, h) && lo + |ft| < |fs| && ft == fs[lo..lo + |ft|] && 1 <= cnt <= |ft| + 1
    requires forall k {:trigger ft[k]} :: |ft| - (cnt - 1) <= k < |ft| ==> MoreFrag(ft[k])
    ensures cnt <= NM_MULTISEG
  {
    var i: nat := lo + |ft| - (cnt - 1);
    forall k | i <= k < lo + |ft| ensures MoreFrag(fs[k]) {
      assert ft[k - lo] == fs[k];
    }
    if i + NM_MULTISEG <= |fs| {
      assert EndsWithin(fs, i);
    }
  }

  lemma PacketFormed(fs: seq<Frag>, lo: nat, ft: seq<Frag>, start: nat, h: nat)
    requires Sendable(fs, h) && lo + |ft| <= |fs| && ft == fs[lo..lo + |ft|] && start < |ft| && !MoreFrag(ft[|ft| - 1])
    ensures WellFormed(ft[start..], h)
  {
    var pkt := ft[start..];
    forall f | f in pkt ensures 64 <= |f.buf| {
      var k :| 0 <= k < |pkt| && pkt[k] == f;
      assert f == fs[lo + start + k];
    }
  }

  /** The links of the first k entries are clear. */
  ghost predicate Clear(next: seq<nat>, k: nat) {
    |next| == F.FT_NULL && k <= |next| && forall i {:trigger next[i]} :: 0 <= i < k ==> next[i] == F.FT_NULL
  }

  /** The body of the loop, up to the test of the batch size. */
  method GatherOne(sc: F.Scratch, s: Slot, mem: seq<seq<byte>>, ft: seq<Frag>, frags: seq<nat>, cnt: nat,
                   ghost fs: seq<Frag>, ghost lo: nat, ghost h: nat)
    returns (ft': seq<Frag>, frags': seq<nat>, cnt': nat)
    requires Gathering(fs, lo, ft, frags, cnt, h) && Sendable(fs, h) && lo + |ft| < |fs|
    requires 0 < |mem| && fs[lo + |ft|] == Entry(s, mem)
    requires Clear(sc.next[..], |ft|) && |ft| - (cnt - 1) < NM_BDG_BATCH
    modifies sc.next
    ensures Gathering(fs, lo, ft', frags', cnt', h) == true && |ft'| == |ft| + 1 && Clear(sc.next[..], |ft'|)
    ensures cnt' == if MoreFrag(fs[lo + |ft|]) then cnt + 1 else 1
  {
    Short(fs, lo, ft, cnt, h);
    var f := Entry(s, mem);
    ft', frags' := ft + [f], frags + [0];
    sc.next[|ft|] := F.FT_NULL;
    if MoreFrag(f) {
      GatherMore(fs, lo, ft, frags, cnt, h, 0);
      cnt' := cnt + 1;
    } else {
      GatherLast(fs, lo, ft, frags, cnt, h, 0);
      frags' := frags'[|ft'| - cnt := cnt];
      cnt' := 1;
    }
  }

  /** The loop has reached j, and a packet that goes on is the last one. */
  ghost predicate Turning(slots: seq<Slot>, hwcur: nat, j: nat, fs: seq<Frag>, lo: nat, ft: seq<Frag>, frags: seq<nat>, cnt: nat,
                          h: nat)
  {
    && hwcur < |slots| && lo + |ft| <= |fs| < |slots| && j == At(hwcur, lo + |ft|, |slots|)
    && Gathering(fs, lo, ft, frags, cnt, h) && (ft != [] ==> (cnt == 1 <==> !MoreFrag(ft[|ft| - 1])))
  }

  /** One turn of the loop. */
  method Turn(sc: F.Scratch, slots: seq<Slot>, hwcur: nat, j: nat, end: nat, mem: seq<seq<byte>>, ft: seq<Frag>, frags: seq<nat>,
              cnt: nat, ghost fs: seq<Frag>, ghost lo: nat, ghost h: nat)
    returns (j': nat, ft': seq<Frag>, frags': seq<nat>, cnt': nat)
    requires hwcur < |slots| && end < |slots| && 0 < |mem| && j != end && j < |slots|
    requires fs == Entries(slots, hwcur, Dist(hwcur, end, |slots|), |slots|, mem) && Sendable(fs, h)
    requires Turning(slots, hwcur, j, fs, lo, ft, frags, cnt, h) && Clear(sc.next[..], |ft|)
    requires |ft| - (cnt - 1) < NM_BDG_BATCH
    modifies sc.next
    ensures Turning(slots, hwcur, j', fs, lo, ft', frags', cnt', h) == true && |frags'| == |ft'| == |ft| + 1 && j' < |slots|
    ensures Clear(sc.next[..], |ft'|) == true && (cnt' == cnt + 1 || cnt' == 1) && lo + |ft'| <= |fs|
  {
    Ahead(hwcur, end, lo + |ft|, |slots|);
    ft', frags', cnt' := GatherOne(sc, slots[j], mem, ft, frags, cnt, fs, lo, h);
    NextAt(hwcur, lo + |ft|, |slots|);
    j' := Next(j, |slots| - 1);
    Turned(slots, hwcur, j', fs, lo, ft', frags', cnt', h);
  }

  lemma Turned(slots: seq<Slot>, hwcur: nat, j: nat, fs: seq<Frag>, lo: nat, ft: seq<Frag>, frags: seq<nat>, cnt: nat, h: nat)
    requires hwcur < |slots| && lo + |ft| <= |fs| < |slots| && j == At(hwcur, lo + |ft|, |slots|) && ft != []
    requires Gathering(fs, lo, ft, frags, cnt, h) && (cnt == 1 <==> !MoreFrag(fs[lo + |ft| - 1]))
    ensures Turning(slots, hwcur, j, fs, lo, ft, frags, cnt, h) == true
  {
    assert ft[|ft| - 1] == fs[lo + |ft| - 1];
  }

  /** The loop, up to the next flush: complete packets, at least a batch of fragments or all there are. */
  method Gather(sc: F.Scratch, slots: seq<Slot>, hwcur: nat, j: nat, end: nat, mem: seq<seq<byte>>, batch: nat,
                ghost fs: seq<Frag>, ghost lo: nat, ghost h: nat)
    returns (j': nat, ft: seq<Frag>, frags: seq<nat>)
    requires hwcur < |slots| && end < |slots| && 0 < |mem| && 0 < batch <= NM_BDG_BATCH && sc.next.Length == F.FT_NULL
    requires fs == Entries(slots, hwcur, Dist(hwcur, end, |slots|), |slots|, mem) && Sendable(fs, h)
    requires lo < |fs| && j == At(hwcur, lo, |slots|)
    modifies sc.next
    ensures 0 < |ft| && lo + |ft| <= |fs| && j' == At(hwcur, lo + |ft|, |slots|) && ft == fs[lo..lo + |ft|]
    ensures |frags| == |ft|
    ensures F.Batch(ft, frags, h, 0) && Clear(sc.next[..], |ft|) && (|ft| >= batch || lo + |ft| == |fs|) && Framed(ft, frags, 0)
  {
    var cnt;
    j', ft, frags, cnt := GatherLoop(sc, slots, hwcur, j, end, mem, batch, fs, lo, h);
    GatherDone(slots, hwcur, j', end, mem, fs, lo, ft, frags, cnt, h);
  }

  method GatherLoop(sc: F.Scratch, slots: seq<Slot>, hwcur: nat, j: nat, end: nat, mem: seq<seq<byte>>, batch: nat,
                    ghost fs: seq<Frag>, ghost lo: nat, ghost h: nat)
    returns (j': nat, ft: seq<Frag>, frags: seq<nat>, cnt: nat)
    requires hwcur < |slots| && end < |slots| && 0 < |mem| && 0 < batch <= NM_BDG_BATCH && sc.next.Length == F.FT_NULL
    requires fs == Entries(slots, hwcur, Dist(hwcur, end, |slots|), |slots|, mem) && Sendable(fs, h)
    requires lo < |fs| && j == At(hwcur, lo, |slots|)
    modifies sc.next
    ensures Turning(slots, hwcur, j', fs, lo, ft, frags, cnt, h) == true && |frags| == |ft| && lo + |ft| <= |fs|
    ensures Clear(sc.next[..], |ft|) == true && (j' == end || (cnt == 1 && |ft| >= batch))
  {
    j', ft, frags, cnt := j, [], [], 1;
    while j' != end
      invariant j' < |slots| && Turning(slots, hwcur, j', fs, lo, ft, frags, cnt, h) == true && lo + |ft| <= |fs| && |frags| == |ft|
      invariant Clear(sc.next[..], |ft|) == true && |ft| - (cnt - 1) < batch
      decreases |fs| - |ft|
    {
      j', ft, frags, cnt := Turn(sc, slots, hwcur, j', end, mem, ft, frags, cnt, fs, lo, h);
      if cnt == 1 && |ft| >= batch { break; }
    }
  }

  /** Where the loop ends. */
  lemma GatherDone(slots: seq<Slot>, hwcur: nat, j: nat, end: nat, mem: seq<seq<byte>>, fs: seq<Frag>, lo: nat, ft: seq<Frag>,
                   frags: seq<nat>, cnt: nat, h: nat)
    requires hwcur < |slots| && end < |slots| && 0 < |mem| && lo < |fs| && |frags| == |ft| && lo + |ft| <= |fs|
    requires fs == Entries(slots, hwcur, Dist(hwcur, end, |slots|), |slots|, mem) && Sendable(fs, h)
    requires Turning(slots, hwcur, j, fs, lo, ft, frags, cnt, h) && (j == end || cnt == 1)
    ensures F.Batch(ft, frags, h, 0) == true && (j == end ==> lo + |ft| == |fs|) && Framed(ft, frags, 0) == true
    ensures ft == fs[lo..lo + |ft|] && j == At(hwcur, lo + |ft|, |slots|)
  {
    Ahead(hwcur, end, lo + |ft|, |slots|);
    if j == end {
      LastIsWhole(fs, lo, ft, h);
    }
    GatheredAll(fs, lo, ft, frags, h);
  }

  lemma LastIsWhole(fs: seq<Frag>, lo: nat, ft: seq<Frag>, h: nat)
    requires Sendable(fs, h) && lo + |ft| == |fs| && ft != [] && ft == fs[lo..lo + |ft|]
    ensures !MoreFrag(ft[|ft| - 1])
  {
    assert ft[|ft| - 1] == fs[|fs| - 1];
  }

  lemma GatheredAll(fs: seq<Frag>, lo: nat, ft: seq<Frag>, frags: seq<nat>, h: nat)
    requires Gathering(fs, lo, ft, frags, 1, h)
    ensures |frags| == |ft| && F.Batch(ft, frags, h, 0) == true && Framed(ft, frags, 0) == true
  {
    assert ft[..|ft|] == ft && frags[..|ft|] == frags;
  }

  /** The loop has not reached the end before all slots are gathered. */
  lemma Ahead(hwcur: nat, end: nat, k: nat, n: nat)
    requires hwcur < n && end < n && k <= Dist(hwcur, end, n)
    ensures At(hwcur, k, n) == end <==> k == Dist(hwcur, end, n)
  {
    DistAt(hwcur, k, n);
  }

  /* ---- all batches ---- */

  /** A batch that went through the switch: its entries, the decisions, and what each port received. */
  datatype Part = Part(ft: seq<Frag>, frags: seq<nat>, dec: seq<nat>, out: map<nat, seq<F.Sent>>)

  /** Each port has received what the switch sends to it, as far as there was room. */
  ghost predicate Served(p: Part, c: F.Source, dests: map<nat, F.Dest>) {
    && F.Buffers(p.ft, p.frags) && F.Sized(p.frags, p.dec)
    && (forall q: nat :: q in p.out <==> q in dests && F.IsPort(c, c.active, q) && F.Addressed(p.dec, q, F.BRDQ) != [])
    && (forall q: nat :: q in p.out ==> q < F.BRDQ && p.out[q] == F.Received(p.ft, p.frags, p.dec, q, F.BRDQ, dests[q]))
  }

  /** The batches together. */
  ghost function FtOf(parts: seq<Part>): seq<Frag> {
    if parts == [] then [] else FtOf(parts[..|parts| - 1]) + parts[|parts| - 1].ft
  }

  ghost function FragsOf(parts: seq<Part>): seq<nat> {
    if parts == [] then [] else FragsOf(parts[..|parts| - 1]) + parts[|parts| - 1].frags
  }

  ghost function DecOf(parts: seq<Part>): seq<nat> {
    if parts == [] then [] else DecOf(parts[..|parts| - 1]) + parts[|parts| - 1].dec
  }

  /** The switch has decided on these batches as on one. */
  ghost predicate Decided(c: F.Source, log0: seq<Seen>, log: seq<Seen>, parts: seq<Part>) {
    && |FragsOf(parts)| == |FtOf(parts)| && F.Batch(FtOf(parts), FragsOf(parts), c.hdrLen, 0)
    && Framed(FtOf(parts), FragsOf(parts), 0)
    && (log, DecOf(parts)) == F.Switched(c, log0, FtOf(parts), FragsOf(parts), 0)
  }

  /** The entries up to k have gone through the switch in these batches. */
  ghost predicate Sent(c: F.Source, log0: seq<Seen>, log: seq<Seen>, fs: seq<Frag>, k: nat, parts: seq<Part>) {
    k <= |fs| && FtOf(parts) == fs[..k] && Decided(c, log0, log, parts)
  }

  lemma SentMore(c: F.Source, log0: seq<Seen>, log: seq<Seen>, fs: seq<Frag>, k: nat, parts: seq<Part>, p: Part, log': seq<Seen>)
    requires Sent(c, log0, log, fs, k, parts) && k + |p.ft| <= |fs| && p.ft == fs[k..k + |p.ft|] && |p.frags| == |p.ft|
    requires F.Batch(p.ft, p.frags, c.hdrLen, 0) && (log', p.dec) == F.Switched(c, log, p.ft, p.frags, 0)
    requires Framed(p.ft, p.frags, 0)
    ensures Sent(c, log0, log', fs, k + |p.ft|, parts + [p]) == true
  {
    DecidedMore(c, log0, log, parts, p, log');
    PrefixMore(fs, k, parts, p);
  }

  lemma PrefixMore(fs: seq<Frag>, k: nat, parts: seq<Part>, p: Part)
    requires k + |p.ft| <= |fs| && p.ft == fs[k..k + |p.ft|] && FtOf(parts) == fs[..k]
    ensures FtOf(parts + [p]) == fs[..k + |p.ft|]
  {
    OneMorePart(parts, p);
    Prefix(fs, k, p.ft);
  }

  lemma DecidedMore(c: F.Source, log0: seq<Seen>, log: seq<Seen>, parts: seq<Part>, p: Part, log': seq<Seen>)
    requires Decided(c, log0, log, parts) && |p.frags| == |p.ft|
    requires F.Batch(p.ft, p.frags, c.hdrLen, 0) && (log', p.dec) == F.Switched(c, log, p.ft, p.frags, 0)
    requires Framed(p.ft, p.frags, 0)
    ensures Decided(c, log0, log', parts + [p]) == true
  {
    var ft, fr := FtOf(parts), FragsOf(parts);
    SentBoth(c, log0, log, ft, fr, DecOf(parts), p.ft, p.frags, log', p.dec);
    BothFramed(ft + p.ft, fr + p.frags, ft, fr, p.ft, p.frags, 0);
    OneMorePart(parts, p);
  }

  lemma OneMorePart(parts: seq<Part>, p: Part)
    ensures FtOf(parts + [p]) == FtOf(parts) + p.ft && FragsOf(parts + [p]) == FragsOf(parts) + p.frags
    ensures DecOf(parts + [p]) == DecOf(parts) + p.dec
  {
    assert (parts + [p])[..|parts|] == parts;
  }

  lemma Prefix(fs: seq<Frag>, k: nat, ft: seq<Frag>)
    requires k + |ft| <= |fs| && ft == fs[k..k + |ft|]
    ensures fs[..k] + ft == fs[..k + |ft|]
  {
  }

  lemma SentBoth(c: F.Source, log0: seq<Seen>, log: seq<Seen>, ft1: seq<Frag>, fr1: seq<nat>, d1: seq<nat>,
                 ft2: seq<Frag>, fr2: seq<nat>, log': seq<Seen>, d2: seq<nat>)
    requires |fr1| == |ft1| && |fr2| == |ft2| && F.Batch(ft1, fr1, c.hdrLen, 0) && F.Batch(ft2, fr2, c.hdrLen, 0)
    requires (log, d1) == F.Switched(c, log0, ft1, fr1, 0) && (log', d2) == F.Switched(c, log, ft2, fr2, 0)
    ensures F.Batch(ft1 + ft2, fr1 + fr2, c.hdrLen, 0)
    ensures (log', d1 + d2) == F.Switched(c, log0, ft1 + ft2, fr1 + fr2, 0)
  {
    BothBatch(c.hdrLen, ft1 + ft2, fr1 + fr2, ft1, fr1, ft2, fr2, 0);
    var r1, r2 := TwoBatches(c, log0, ft1 + ft2, fr1 + fr2, ft1, fr1, ft2, fr2);
  }

  /** One batch through the switch. */
  method FlushOne(sc: F.Scratch, b: Bridge, c: F.Source, ft: seq<Frag>, frags: seq<nat>, dests: map<nat, F.Dest>)
    returns (out: map<nat, seq<F.Sent>>, ghost dec: seq<nat>)
    requires b.Valid() && F.Ports(c) && c.hash == b.hash && F.Buffers(ft, frags) && F.Batch(ft, frags, c.hdrLen, 0)
    requires sc.Empty() && Clear(sc.next[..], |ft|)
    modifies sc.next, sc.head, sc.tail, sc.len, b, b.ht
    ensures b.Valid() && sc.Empty() && (b.log, dec) == F.Switched(c, old(b.log), ft, frags, 0)
    ensures Served(Part(ft, frags, dec, out), c, dests)
  {
    assert forall i :: 0 <= i < |ft| ==> sc.next[i] == sc.next[..][i];
    out, dec := sc.Flush(b, c, ft, frags, dests);
  }

  lemma LargeBuffers(fs: seq<Frag>, lo: nat, ft: seq<Frag>, frags: seq<nat>, h: nat)
    requires Sendable(fs, h) && lo + |ft| <= |fs| && ft == fs[lo..lo + |ft|] && |frags| == |ft|
    ensures F.Buffers(ft, frags)
  {
    forall i | 0 <= i < |ft| ensures 64 <= |ft[i].buf| {
      assert ft[i] == fs[lo + i];
    }
  }

  /** nm_bdg_preflush for slots that end with a complete packet: whatever the size of batches, the switch decides as if it
      took packets one by one, and each batch is delivered to the ports that have room at that time. */
  method Preflush(sc: F.Scratch, b: Bridge, c: F.Source, slots: seq<Slot>, hwcur: nat, end: nat, mem: seq<seq<byte>>, batch: nat,
                  dests: nat -> map<nat, F.Dest>)
    returns (j: nat, ghost parts: seq<Part>)
    requires hwcur < |slots| && end < |slots| && 0 < |mem| && 0 < batch <= NM_BDG_BATCH && sc.Empty()
    requires b.Valid() && F.Ports(c) && c.hash == b.hash
    requires Sendable(Entries(slots, hwcur, Dist(hwcur, end, |slots|), |slots|, mem), c.hdrLen)
    modifies sc.next, sc.head, sc.tail, sc.len, b, b.ht
    ensures j == end && b.Valid() && sc.Empty()
    ensures Sent(c, old(b.log), b.log, Entries(slots, hwcur, Dist(hwcur, end, |slots|), |slots|, mem),
                 Dist(hwcur, end, |slots|), parts)
    ensures AllServed(parts, c, dests)
    ensures Forwarded(c, old(b.log), b.log, Entries(slots, hwcur, Dist(hwcur, end, |slots|), |slots|, mem), parts)
  {
    ghost var fs := Entries(slots, hwcur, Dist(hwcur, end, |slots|), |slots|, mem);
    ghost var log0 := b.log;
    j, parts := hwcur, [];
    ghost var k := 0;
    var i := 0;
    SentNone(c, log0, fs);
    while j != end
      invariant k <= |fs| && j == At(hwcur, k, |slots|) && b.Valid() && sc.Empty() && i == |parts|
      invariant Sent(c, log0, b.log, fs, k, parts) && AllServed(parts, c, dests)
      decreases |fs| - k
    {
      Ahead(hwcur, end, k, |slots|);
      ghost var part;
      j, part := SendOne(sc, b, c, slots, hwcur, j, end, mem, batch, dests(i), fs, k, log0, parts);
      AllServedMore(parts, c, dests, part);
      k, parts, i := k + |part.ft|, parts + [part], i + 1;
    }
    Ahead(hwcur, end, k, |slots|);
    AllForwarded(c, log0, b.log, fs, parts);
  }

  /** Every packet is on the lists of those that it is for, each with what was learned from the packets before it. */
  ghost predicate Forwarded(c: F.Source, log0: seq<Seen>, log: seq<Seen>, fs: seq<Frag>, parts: seq<Part>) {
    && |FragsOf(parts)| == |DecOf(parts)| == |fs| && F.Batch(fs, FragsOf(parts), c.hdrLen, 0) && Framed(fs, FragsOf(parts), 0)
    && F.Forwards(c, log0, log, fs, FragsOf(parts), DecOf(parts), 0)
  }

  lemma AllForwarded(c: F.Source, log0: seq<Seen>, log: seq<Seen>, fs: seq<Frag>, parts: seq<Part>)
    requires Sent(c, log0, log, fs, |fs|, parts) && F.Ports(c)
    ensures Forwarded(c, log0, log, fs, parts) == true
  {
    assert fs[..|fs|] == fs;
    F.Begin(c, log0, fs, FragsOf(parts), 0);
    F.SwitchForwards(c, log0, fs, FragsOf(parts), 0, [], (log, DecOf(parts)));
  }

  ghost predicate AllServed(parts: seq<Part>, c: F.Source, dests: nat -> map<nat, F.Dest>) {
    forall k {:trigger parts[k]} :: 0 <= k < |parts| ==> Served(parts[k], c, dests(k))
  }

  lemma AllServedMore(parts: seq<Part>, c: F.Source, dests: nat -> map<nat, F.Dest>, p: Part)
    requires AllServed(parts, c, dests) && Served(p, c, dests(|parts|))
    ensures AllServed(parts + [p], c, dests)
  {
  }

  lemma SentNone(c: F.Source, log: seq<Seen>, fs: seq<Frag>)
    ensures Sent(c, log, log, fs, 0, [])
  {
    assert fs[..0] == [];
  }

  /** One more batch. */
  method SendOne(sc: F.Scratch, b: Bridge, c: F.Source, slots: seq<Slot>, hwcur: nat, j: nat, end: nat, mem: seq<seq<byte>>,
                 batch: nat, dests: map<nat, F.Dest>, ghost fs: seq<Frag>, ghost lo: nat, ghost log0: seq<Seen>,
                 ghost parts: seq<Part>)
    returns (j': nat, ghost p: Part)
    requires hwcur < |slots| && end < |slots| && 0 < |mem| && 0 < batch <= NM_BDG_BATCH && sc.Empty()
    requires b.Valid() && F.Ports(c) && c.hash == b.hash
    requires fs == Entries(slots, hwcur, Dist(hwcur, end, |slots|), |slots|, mem) && Sendable(fs, c.hdrLen)
    requires lo < |fs| && j == At(hwcur, lo, |slots|) && Sent(c, log0, b.log, fs, lo, parts)
    modifies sc.next, sc.head, sc.tail, sc.len, b, b.ht
    ensures b.Valid() && sc.Empty() && Served(p, c, dests)
    ensures 0 < |p.ft| && lo + |p.ft| <= |fs| && j' == At(hwcur, lo + |p.ft|, |slots|)
    ensures Sent(c, log0, b.log, fs, lo + |p.ft|, parts + [p])
  {
    ghost var log := b.log;
    j', p := Batch(sc, b, c, slots, hwcur, j, end, mem, batch, dests, fs, lo);
    SentMore(c, log0, log, fs, lo, parts, p, b.log);
  }

  /** One batch. */
  method Batch(sc: F.Scratch, b: Bridge, c: F.Source, slots: seq<Slot>, hwcur: nat, j: nat, end: nat, mem: seq<seq<byte>>,
               batch: nat, dests: map<nat, F.Dest>, ghost fs: seq<Frag>, ghost lo: nat)
    returns (j': nat, ghost p: Part)
    requires hwcur < |slots| && end < |slots| && 0 < |mem| && 0 < batch <= NM_BDG_BATCH && sc.Empty()
    requires b.Valid() && F.Ports(c) && c.hash == b.hash
    requires fs == Entries(slots, hwcur, Dist(hwcur, end, |slots|), |slots|, mem) && Sendable(fs, c.hdrLen)
    requires lo < |fs| && j == At(hwcur, lo, |slots|)
    modifies sc.next, sc.head, sc.tail, sc.len, b, b.ht
    ensures b.Valid() && sc.Empty() && Served(p, c, dests)
    ensures 0 < |p.ft| && lo + |p.ft| <= |fs| && j' == At(hwcur, lo + |p.ft|, |slots|)
    ensures p.ft == fs[lo..lo + |p.ft|] && |p.frags| == |p.ft| && F.Batch(p.ft, p.frags, c.hdrLen, 0)
    ensures Framed(p.ft, p.frags, 0)
    ensures (b.log, p.dec) == F.Switched(c, old(b.log), p.ft, p.frags, 0)
  {
    var ft, frags;
    j', ft, frags := Gather(sc, slots, hwcur, j, end, mem, batch, fs, lo, c.hdrLen);
    LargeBuffers(fs, lo, ft, frags, c.hdrLen);
    var out;
    ghost var dec;
    out, dec := FlushOne(sc, b, c, ft, frags, dests);
    p := Part(ft, frags, dec, out);
  }
}
