/** The receive ring of the ixgbe driver, with the NIC as a third party that runs at any time.

    The NIC fills descriptors from RDH up to RDT, excluded, and sets their DD bit.  A sync imports
    descriptors with DD set and returns those that the user has released. */
module IxgbeRx {
  import opened Ring
  import opened KringModel
  import opened Fates

  /** The NIC ring, counted up from next_to_clean: received frames up to RDH, descriptors without DD up to
      and including RDT, and then those of the u slots that the user holds. */
  ghost predicate Layout(ntc: nat, rdh: nat, rdt: nat, u: nat, dd: seq<bool>, n: nat) {
    && ntc < n && rdh < n && rdt < n && u < n && |dd| == n
    && Dist(ntc, rdt, n) == n - 1 - u && Dist(ntc, rdh, n) <= n - 1 - u
    && (forall j {:trigger dd[j]} :: 0 <= j < n && Dist(ntc, j, n) < Dist(ntc, rdh, n) ==> dd[j])
    && (forall j {:trigger dd[j]} :: 0 <= j < n && Dist(ntc, rdh, n) <= Dist(ntc, j, n) <= n - 1 - u ==> !dd[j])
  }

  /** Frames received and not yet imported carry the lengths that came from the wire, in order. */
  ghost predicate Carried(ntc: nat, rdh: nat, dlen: seq<nat>, pending: seq<nat>, n: nat) {
    && ntc < n && rdh < n && |dlen| == n && |pending| == Dist(ntc, rdh, n)
    && forall j {:trigger dlen[j]} :: 0 <= j < n && Dist(ntc, j, n) < |pending| ==> dlen[j] == pending[Dist(ntc, j, n)]
  }

  /** All descriptors that the NIC may use, or has used, hold the buffer of their slot. */
  ghost predicate Loaded(ntc: nat, u: nat, dbuf: seq<nat>, slots: seq<Slot>, hwofs: nat, n: nat) {
    && ntc < n && hwofs < n && |dbuf| == |slots| == n
    && forall j {:trigger dbuf[j]} :: 0 <= j < n && Dist(ntc, j, n) + u < n ==> dbuf[j] == slots[N2k(j, hwofs, n)].bufIdx
  }

  lemma LayoutStep(ntc: nat, rdh: nat, rdt: nat, u: nat, dd: seq<bool>, n: nat)
    requires Layout(ntc, rdh, rdt, u, dd, n) && rdh != rdt
    ensures Dist(ntc, Next(rdh, n - 1), n) == Dist(ntc, rdh, n) + 1
    ensures Layout(ntc, Next(rdh, n - 1), rdt, u, dd[rdh := true], n)
  {
  }

  lemma CarriedStep(ntc: nat, rdh: nat, dlen: seq<nat>, pending: seq<nat>, n: nat, len: nat)
    requires Carried(ntc, rdh, dlen, pending, n) && |pending| < n - 1
    ensures Carried(ntc, Next(rdh, n - 1), dlen[rdh := len], pending + [len], n)
  {
  }

  /** A ring that starts at 0 with DD clear and u slots in the hands of the user. */
  lemma Restarted(rdt: nat, u: nat, dd: seq<bool>, dlen: seq<nat>, dbuf: seq<nat>, slots: seq<Slot>, hwofs: nat, n: nat)
    requires u < n && rdt == n - 1 - u && |dd| == |dlen| == |dbuf| == |slots| == n && hwofs < n
    requires forall j {:trigger dd[j]} :: 0 <= j < n ==> !dd[j]
    requires forall j {:trigger dbuf[j]} :: 0 <= j < n ==> dbuf[j] == slots[N2k(j, hwofs, n)].bufIdx
    ensures Layout(0, 0, rdt, u, dd, n) && Carried(0, 0, dlen, [], n)
    ensures Loaded(0, u, dbuf, slots, hwofs, n)
  {
  }

  /** A descriptor with DD that is reached from next_to_clean holds the next frame from the wire. */
  lemma Reach(ntc: nat, rdh: nat, rdt: nat, u: nat, dd: seq<bool>, dlen: seq<nat>, pending: seq<nat>, n: nat,
              x: nat, hwofs: nat)
    requires Layout(ntc, rdh, rdt, u, dd, n) && Carried(ntc, rdh, dlen, pending, n)
    requires x < n && Dist(ntc, x, n) <= Dist(ntc, rdh, n) && dd[x] && hwofs < n
    ensures Dist(ntc, Next(x, n - 1), n) == Dist(ntc, x, n) + 1 <= Dist(ntc, rdh, n)
    ensures dlen[x] == pending[Dist(ntc, x, n)]
    ensures N2k(Next(x, n - 1), hwofs, n) == Next(N2k(x, hwofs, n), n - 1)
    ensures Dist(N2k(ntc, hwofs, n), N2k(x, hwofs, n), n) == Dist(ntc, x, n)
  {
  }

  /** A descriptor without DD that is reached from next_to_clean comes after all received frames. */
  lemma Drained(ntc: nat, rdh: nat, rdt: nat, u: nat, dd: seq<bool>, dlen: seq<nat>, pending: seq<nat>, n: nat,
                x: nat, frames: seq<nat>)
    requires Layout(ntc, rdh, rdt, u, dd, n) && Carried(ntc, rdh, dlen, pending, n)
    requires x < n && !dd[x] && |frames| == Dist(ntc, x, n) && frames <= pending
    ensures frames == pending
  {
  }

  /** The slots from hwtail on have taken these frames; buffers and other slots are as before. */
  ghost predicate Filled(was: seq<Slot>, slots: seq<Slot>, hwtail: nat, frames: seq<nat>, flags: nat, n: nat) {
    && hwtail < n && |was| == |slots| == n
    && forall s {:trigger slots[s]} :: 0 <= s < n ==>
         var d := Dist(hwtail, s, n);
         slots[s] == if d < |frames| then Slot(was[s].bufIdx, frames[d], flags) else was[s]
  }

  lemma Fill(was: seq<Slot>, slots: seq<Slot>, hwtail: nat, frames: seq<nat>, flags: nat, n: nat, x: nat, len: nat)
    requires Filled(was, slots, hwtail, frames, flags, n) && x < n && Dist(hwtail, x, n) == |frames|
    ensures Filled(was, slots[x := Slot(slots[x].bufIdx, len, flags)], hwtail, frames + [len], flags, n)
  {
  }

  /** Importing the frames before x. */
  lemma Advance(ntc: nat, rdh: nat, rdt: nat, u: nat, dd: seq<bool>, dlen: seq<nat>, pending: seq<nat>,
                dbuf: seq<nat>, slots: seq<Slot>, hwofs: nat, n: nat, x: nat)
    requires Layout(ntc, rdh, rdt, u, dd, n) && Carried(ntc, rdh, dlen, pending, n)
    requires Loaded(ntc, u, dbuf, slots, hwofs, n)
    requires x < n && Dist(ntc, x, n) <= Dist(ntc, rdh, n)
    ensures Layout(x, rdh, rdt, u + Dist(ntc, x, n), dd, n)
    ensures Carried(x, rdh, dlen, pending[Dist(ntc, x, n)..], n)
    ensures Loaded(x, u + Dist(ntc, x, n), dbuf, slots, hwofs, n)
  {
  }

  /** The r descriptors from c on hold the buffers of their slots and have DD clear. */
  ghost predicate Ready(c: nat, r: nat, dd: seq<bool>, dbuf: seq<nat>, slots: seq<Slot>, hwofs: nat, n: nat) {
    && c < n && hwofs < n && |dd| == |dbuf| == |slots| == n
    && (forall j {:trigger dd[j]} :: 0 <= j < n && Dist(c, j, n) < r ==> !dd[j])
    && (forall j {:trigger dbuf[j]} :: 0 <= j < n && Dist(c, j, n) < r ==> dbuf[j] == slots[N2k(j, hwofs, n)].bufIdx)
  }

  /** Where the descriptors of the user's slots lie, counting from next_to_clean. */
  lemma UserRegion(hwcur: nat, hwtail: nat, ntc: nat, hwofs: nat, n: nat, s: nat)
    requires hwcur < n && hwtail < n && ntc < n && hwofs < n && s < n && hwtail == N2k(ntc, hwofs, n)
    ensures var c, u := K2n(hwcur, hwofs, n), Dist(hwcur, hwtail, n);
            && Dist(c, ntc, n) == u
            && Dist(c, K2n(s, hwofs, n), n) == Dist(hwcur, s, n)
            && N2k(K2n(s, hwofs, n), hwofs, n) == s
  {
  }

  lemma RearmKeeps(ntc: nat, rdh: nat, rdt: nat, u: nat, dd: seq<bool>, dbuf: seq<nat>, slots: seq<Slot>,
                   slots': seq<Slot>, hwofs: nat, n: nat, c: nat, r: nat, x: nat)
    requires Layout(ntc, rdh, rdt, u, dd, n) && Loaded(ntc, u, dbuf, slots, hwofs, n)
    requires Ready(c, r, dd, dbuf, slots, hwofs, n) && Dist(c, ntc, n) == u && x < n && Dist(c, x, n) == r < u
    requires |slots'| == n && forall s :: 0 <= s < n ==> slots'[s].bufIdx == slots[s].bufIdx
    ensures Layout(ntc, rdh, rdt, u, dd[x := false], n)
    ensures Loaded(ntc, u, dbuf[x := slots'[N2k(x, hwofs, n)].bufIdx], slots', hwofs, n)
    ensures Ready(c, r + 1, dd[x := false], dbuf[x := slots'[N2k(x, hwofs, n)].bufIdx], slots', hwofs, n)
  {
  }

  lemma ReadyKept(ntc: nat, u: nat, c: nat, r: nat, dd: seq<bool>, dd': seq<bool>, dbuf: seq<nat>, slots: seq<Slot>,
                  hwofs: nat, n: nat)
    requires Ready(c, r, dd, dbuf, slots, hwofs, n) && ntc < n && Dist(c, ntc, n) == u && r <= u && |dd'| == n
    requires forall j {:trigger dd'[j]} :: 0 <= j < n && n <= Dist(ntc, j, n) + u ==> dd'[j] == dd[j]
    ensures Ready(c, r, dd', dbuf, slots, hwofs, n)
  {
  }

  /** Moving RDT before x, the first descriptor that is not returned. */
  lemma ReleaseKeeps(ntc: nat, rdh: nat, rdt: nat, u: nat, dd: seq<bool>, dbuf: seq<nat>, slots: seq<Slot>,
                     hwofs: nat, n: nat, c: nat, x: nat)
    requires Layout(ntc, rdh, rdt, u, dd, n) && Loaded(ntc, u, dbuf, slots, hwofs, n)
    requires c < n && x < n && Dist(c, x, n) <= Dist(c, ntc, n) == u
    requires Ready(c, Dist(c, x, n), dd, dbuf, slots, hwofs, n)
    ensures Layout(ntc, rdh, Prev(x, n - 1), u - Dist(c, x, n), dd, n)
    ensures Loaded(ntc, u - Dist(c, x, n), dbuf, slots, hwofs, n)
    ensures Dist(x, ntc, n) == u - Dist(c, x, n)
  {
  }

  /** d frames of the wire, from number i on. */
  ghost function Frames(wire: nat -> nat, i: nat, d: nat): (r: seq<nat>)
    ensures |r| == d
  {
    seq(d, k requires 0 <= k < d => wire(i + k))
  }

  lemma FramesDrop(wire: nat -> nat, i: nat, d: nat, c: nat)
    requires c <= d
    ensures Frames(wire, i, d)[c..] == Frames(wire, i + c, d - c) && Frames(wire, i, d)[..c] == Frames(wire, i, c)
  {
  }

  lemma FramesMore(wire: nat -> nat, i: nat, d: nat)
    ensures Frames(wire, i, d) + [wire(i + d)] == Frames(wire, i, d + 1)
  {
  }

  lemma OrderAfter(hwcur: nat, head: nat, cur: nat, hwtail: nat, hwtail': nat, n: nat)
    requires hwcur < n && head < n && hwtail < n && hwtail' < n
    requires Dist(hwcur, hwtail, n) <= Dist(hwcur, hwtail', n)
    ensures cur < n && InOrder(hwcur, head, cur, hwtail, n) ==> InOrder(head, head, cur, hwtail', n)
  {
  }

  /** The first r slots from hwcur have buffers of the pool other than buffer 0. */
  ghost predicate Usable(slots: seq<Slot>, hwcur: nat, r: nat, total: nat, n: nat) {
    && hwcur < n && |slots| == n
    && forall s {:trigger slots[s]} :: 0 <= s < n && Dist(hwcur, s, n) < r ==> 0 < slots[s].bufIdx < total
  }

  /** The first r slots from hwcur may have lost NS_BUF_CHANGED; nothing else has changed. */
  ghost predicate Cleaned(was: seq<Slot>, slots: seq<Slot>, hwcur: nat, r: nat, n: nat) {
    && hwcur < n && |was| == |slots| == n
    && forall s {:trigger slots[s]} :: 0 <= s < n ==>
         slots[s] == if Dist(hwcur, s, n) < r then was[s].(flags := was[s].flags - was[s].flags % 2) else was[s]
  }

  lemma CleanOne(was: seq<Slot>, slots: seq<Slot>, hwcur: nat, r: nat, n: nat, x: nat)
    requires Cleaned(was, slots, hwcur, r, n) && x < n && Dist(hwcur, x, n) == r
    ensures slots[x] == was[x]
    ensures Cleaned(was, slots[x := was[x].(flags := was[x].flags - was[x].flags % 2)], hwcur, r + 1, n)
  {
  }

  /** The test of one more slot. */
  lemma UsableOne(was: seq<Slot>, slots: seq<Slot>, hwcur: nat, r: nat, all: nat, total: nat, n: nat, x: nat)
    requires Cleaned(was, slots, hwcur, r, n)
    requires Usable(was, hwcur, r, total, n) && x < n && Dist(hwcur, x, n) == r < all
    ensures 0 < slots[x].bufIdx < total ==> Usable(was, hwcur, r + 1, total, n) == true
    ensures !(0 < slots[x].bufIdx < total) ==> Usable(was, hwcur, all, total, n) == false
  {
  }

  /** The slots from hwtail on have taken these frames, the first r slots from hwcur have lost NS_BUF_CHANGED, and nothing
      else has changed. */
  ghost predicate Exchanged(was: seq<Slot>, slots: seq<Slot>, hwcur: nat, r: nat, hwtail: nat, frames: seq<nat>, flags: nat, n: nat) {
    && hwcur < n && hwtail < n && |was| == |slots| == n
    && forall s {:trigger slots[s]} :: 0 <= s < n ==>
         slots[s] == if Dist(hwtail, s, n) < |frames| then Slot(was[s].bufIdx, frames[Dist(hwtail, s, n)], flags)
                     else if Dist(hwcur, s, n) < r then was[s].(flags := was[s].flags - was[s].flags % 2)
                     else was[s]
  }

  /** Importing does not touch what is released, and releasing does not touch what is imported. */
  lemma ImportThenRelease(was: seq<Slot>, mid: seq<Slot>, slots: seq<Slot>, hwcur: nat, r: nat, hwtail: nat,
                          frames: seq<nat>, flags: nat, n: nat)
    requires Filled(was, mid, hwtail, frames, flags, n) && Cleaned(mid, slots, hwcur, r, n)
    requires r <= Dist(hwcur, hwtail, n) && Dist(hwcur, hwtail, n) + |frames| < n
    ensures Exchanged(was, slots, hwcur, r, hwtail, frames, flags, n)
  {
    forall s | 0 <= s < n
      ensures slots[s] == if Dist(hwtail, s, n) < |frames| then Slot(was[s].bufIdx, frames[Dist(hwtail, s, n)], flags)
                          else if Dist(hwcur, s, n) < r then was[s].(flags := was[s].flags - was[s].flags % 2)
                          else was[s]
    {
      DistAdd(hwcur, hwtail, s, n);
    }
  }

  lemma ExchangedNone(was: seq<Slot>, hwcur: nat, hwtail: nat, flags: nat, n: nat)
    requires hwcur < n && hwtail < n && |was| == n
    ensures Exchanged(was, was, hwcur, 0, hwtail, [], flags, n)
  {
  }

  lemma UsableAfter(was: seq<Slot>, mid: seq<Slot>, hwcur: nat, r: nat, total: nat, hwtail: nat, frames: seq<nat>,
                    flags: nat, n: nat)
    requires Filled(was, mid, hwtail, frames, flags, n) && hwcur < n
    ensures Usable(mid, hwcur, r, total, n) == Usable(was, hwcur, r, total, n)
  {
    if Usable(mid, hwcur, r, total, n) {
      forall s | 0 <= s < n && Dist(hwcur, s, n) < r ensures 0 < was[s].bufIdx < total {
        assert mid[s].bufIdx == was[s].bufIdx;
      }
    }
  }

  /** What can happen to the ring: a frame arrives, the user stores indices or writes a slot, a sync, a reset. */
  datatype Event =
    | Arrives
    | Moves(head: nat, cur: nat)
    | Writes(i: nat, slot: Slot)
    | Syncs(force: bool, carrier: bool, slotFlags: nat, total: nat)
    | Resets

  /** The ring as the run of events sees it: slots and indices, frames taken, and what became of those that are not
      pending. */
  datatype Summary = Summary(slots: seq<Slot>, hwcur: nat, hwtail: nat, head: nat, cur: nat, taken: nat, fate: seq<bool>)

  /** The user's indices would be accepted. */
  predicate Good(a: Summary, n: nat) {
    && a.hwcur < n && a.hwtail < n && a.head < n
    && (if a.cur < n then InOrder(a.hwcur, a.head, a.cur, a.hwtail, n) else a.hwtail < a.hwcur <= a.head)
  }

  /** The NIC owns a descriptor. */
  predicate HasRoom(a: Summary, n: nat) {
    a.hwcur < n && a.hwtail < n && |a.fate| <= a.taken && Dist(a.hwcur, a.hwtail, n) + (a.taken - |a.fate|) < n - 1
  }

  predicate Holds(a: Summary, i: nat, n: nat) {
    a.hwcur < n && a.hwtail < n && i < n && |a.slots| == n && Dist(a.hwcur, i, n) < Dist(a.hwcur, a.hwtail, n)
  }

  /** A sync with good indices: the frames that are there, when asked for, and maybe some that come meanwhile go to the
      slots after hwtail, in order; the released slots go back to the NIC, all of them or up to a bad buffer. */
  ghost predicate SyncFollows(wire: nat -> nat, a: Summary, e: Event, b: Summary, n: nat, r: nat)
    requires e.Syncs?
  {
    && Good(a, n) && |a.fate| <= a.taken <= b.taken && |a.fate| <= |b.fate| <= |a.fate| + n
    && var d := |b.fate| - |a.fate|;
       && b.fate == a.fate + Times(true, d) && (if e.force then a.taken <= |b.fate| else d == 0)
       && b.hwtail == At(a.hwtail, d, n) && b.head == a.head && b.cur == a.cur && r <= Dist(a.hwcur, a.head, n)
       && Exchanged(a.slots, b.slots, a.hwcur, r, a.hwtail, Frames(wire, |a.fate|, d), e.slotFlags, n)
       && if Usable(a.slots, a.hwcur, Dist(a.hwcur, a.head, n), e.total, n)
          then r == Dist(a.hwcur, a.head, n) && b.hwcur == a.head else b.hwcur == a.hwcur
  }

  /** What an event does. */
  ghost predicate Follows(wire: nat -> nat, a: Summary, e: Event, b: Summary, n: nat) {
    && |a.fate| <= a.taken
    && match e
       case Arrives => b == a.(taken := if HasRoom(a, n) then a.taken + 1 else a.taken)
       case Moves(h, c) => b == a.(head := h, cur := c)
       case Writes(i, s) => b == if Holds(a, i, n) then a.(slots := a.slots[i := s]) else a
       case Syncs(_, carrier, _, _) =>
         if carrier && Good(a, n) then exists r {:trigger SyncFollows(wire, a, e, b, n, r)} :: SyncFollows(wire, a, e, b, n, r)
         else b == a
       case Resets => b == a.(fate := a.fate + Times(false, a.taken - |a.fate|))
  }

  /** The events that happened, up to a refused sync. */
  ghost predicate Trace(wire: nat -> nat, trace: seq<Summary>, script: seq<Event>, n: nat) {
    && 0 < |trace| <= |script| + 1
    && forall j {:trigger script[j]} :: 0 <= j < |trace| - 1 ==> Follows(wire, trace[j], script[j], trace[j + 1], n)
  }

  lemma TraceMore(wire: nat -> nat, trace: seq<Summary>, script: seq<Event>, n: nat, b: Summary)
    requires Trace(wire, trace, script, n) && |trace| <= |script|
    requires Follows(wire, trace[|trace| - 1], script[|trace| - 1], b, n)
    ensures Trace(wire, trace + [b], script, n) == true
  {
  }

  /** Without a reset an event imports, or does nothing to fates. */
  lemma OnlyImports(wire: nat -> nat, a: Summary, e: Event, b: Summary, n: nat)
    requires Follows(wire, a, e, b, n) && e != Resets
    ensures |a.fate| <= |b.fate| && b.fate == a.fate + Times(true, |b.fate| - |a.fate|)
  {
    assert a.fate + Times(true, 0) == a.fate;
  }

  /** Without a reset every frame that is no longer pending was imported. */
  lemma {:induction false} NothingMissed(wire: nat -> nat, trace: seq<Summary>, script: seq<Event>, n: nat, i: nat)
    requires Trace(wire, trace, script, n) && Resets !in script && i < |trace|
    ensures |trace[0].fate| <= |trace[i].fate|
    ensures trace[i].fate == trace[0].fate + Times(true, |trace[i].fate| - |trace[0].fate|)
  {
    if i > 0 {
      NothingMissed(wire, trace, script, n, i - 1);
      assert Follows(wire, trace[i - 1], script[i - 1], trace[i], n) && script[i - 1] in script;
      OnlyImports(wire, trace[i - 1], script[i - 1], trace[i], n);
    }
  }

  /** All that the user got, when so many frames have been taken. */
  ghost function Got(wire: nat -> nat, taken: nat, fate: seq<bool>): seq<nat>
    requires |fate| <= taken
  {
    Selected(Frames(wire, 0, taken), fate)
  }

  lemma GotMore(wire: nat -> nat, taken: nat, fate: seq<bool>, taken': nat, d: nat)
    requires |fate| <= taken <= taken' && |fate| + d <= taken'
    ensures Got(wire, taken', fate + Times(true, d)) == Got(wire, taken, fate) + Frames(wire, |fate|, d)
  {
    var a, b := Frames(wire, 0, taken), Frames(wire, 0, taken');
    FramesDrop(wire, 0, taken', taken);
    SelectedSame(a, b, fate);
    SelectedMore(b, fate, d);
    FramesDrop(wire, 0, taken', |fate|);
    FramesDrop(wire, |fate|, taken' - |fate|, d);
    assert b[|fate|..|fate| + d] == b[|fate|..][..d];
  }

  class RxRing {
    const n: nat
    const k: Kring
    const slots: array<Slot>
    var hwofs: nat
    /** rxr->next_to_clean */
    var ntc: nat
    /** The NIC: registers, and for each descriptor its DD bit, length and buffer. */
    var rdh: nat
    var rdt: nat
    const dd: array<bool>
    const dlen: array<nat>
    const dbuf: array<nat>
    /** The lengths of the frames that the NIC takes from the wire, in order, and how many it has taken. */
    const wire: nat -> nat
    var taken: nat
    /** Frames taken and not yet imported. */
    ghost var pending: seq<nat>
    /** What became of the frames before these: imported, or lost in a reset. */
    ghost var fate: seq<bool>

    ghost predicate Shape() {
      && k.n == n == slots.Length == dd.Length == dlen.Length == dbuf.Length && 2 <= n && dlen != dbuf
    }

    /** Slots that the user holds. */
    ghost function Held(): nat
      reads k`hwcur, k`hwtail
      requires k.hwcur < n && k.hwtail < n
    {
      Dist(k.hwcur, k.hwtail, n)
    }

    ghost predicate Valid()
      reads this, k`hwcur, k`hwtail, slots, dd, dlen, dbuf
    {
      && Shape() && hwofs < n && k.hwcur < n && k.hwtail < n
      && Layout(ntc, rdh, rdt, Held(), dd[..], n)
      && k.hwtail == N2k(ntc, hwofs, n)
      && Carried(ntc, rdh, dlen[..], pending, n)
      && Loaded(ntc, Held(), dbuf[..], slots[..], hwofs, n)
      && taken == |fate| + |pending| && pending == Frames(wire, |fate|, |pending|)
    }

    /** A ring with these buffers, right after the NIC has been configured for the first time. */
    constructor (bufs: seq<nat>, frames: nat -> nat)
      requires 2 <= |bufs|
      ensures Valid() && n == |bufs| && wire == frames && taken == 0 && fresh(k) && fresh(slots) && fresh(dd)
      ensures fresh(dlen) && fresh(dbuf)
    {
      n := |bufs|;
      k := new Kring.Rx(|bufs|);
      slots := new Slot[|bufs|](i requires 0 <= i < |bufs| => Slot(bufs[i], 0, 0));
      dd := new bool[|bufs|](_ => false);
      dlen := new nat[|bufs|](_ => 0);
      dbuf := new nat[|bufs|](i requires 0 <= i < |bufs| => bufs[i]);
      hwofs, ntc, rdh, rdt := 0, 0, 0, |bufs| - 1;
      wire, taken, pending, fate := frames, 0, [], [];
    }

    /** A new value for a slot, in the same buffer. */
    method SetSlot(i: nat, s: Slot)
      requires Valid() && i < n && s.bufIdx == slots[i].bufIdx
      modifies slots
      ensures Valid() == true && slots[..] == old(slots[..])[i := s]
    {
      slots[i] := s;
    }

    /** The NIC fills the descriptor at RDH. */
    method StoreFrame(len: nat)
      requires Shape() && rdh < n
      modifies dd, dlen
      ensures dd[..] == old(dd[..])[rdh := true] && dlen[..] == old(dlen[..])[rdh := len] && dbuf[..] == old(dbuf[..])
    {
      dlen[rdh] := len;
      dd[rdh] := true;
    }

    /** The NIC stores the next frame, if it owns a descriptor. */
    method Receive()
      requires Valid()
      modifies this`rdh, this`taken, this`pending, dd, dlen
      ensures Valid() == true && old(pending) <= pending
      ensures |pending| == |old(pending)| + if old(rdh) == rdt then 0 else 1
      ensures Dist(ntc, old(rdh), n) <= Dist(ntc, rdh, n)
      ensures forall j {:trigger dd[j]} :: 0 <= j < n && n <= Dist(ntc, j, n) + Held() ==> dd[j] == old(dd[j])
    {
      if rdh == rdt { return; }
      var len := wire(taken);
      LayoutStep(ntc, rdh, rdt, Held(), dd[..], n);
      CarriedStep(ntc, rdh, dlen[..], pending, n, len);
      FramesMore(wire, |fate|, |pending|);
      StoreFrame(len);
      pending := pending + [len];
      taken := taken + 1;
      rdh := Next(rdh, n - 1);
    }

    /** The NIC runs for a while. */
    method Nic()
      requires Valid()
      modifies this`rdh, this`taken, this`pending, dd, dlen
      ensures Valid() && old(pending) <= pending
      ensures forall j {:trigger dd[j]} :: 0 <= j < n && n <= Dist(ntc, j, n) + Held() ==> dd[j] == old(dd[j])
    {
      var steps: nat := *;
      while steps > 0
        invariant Valid() && old(pending) <= pending
        invariant forall j {:trigger dd[j]} :: 0 <= j < n && n <= Dist(ntc, j, n) + Held() ==> dd[j] == old(dd[j])
      {
        Receive();
        steps := steps - 1;
      }
    }

    /** The import loop has reached nicI in the NIC ring and nmI in the netmap ring. */
    ghost predicate Importing(nicI: nat, nmI: nat, frames: seq<nat>, was: seq<Slot>, slotFlags: nat)
      reads this`hwofs, this`ntc, this`pending, k`hwtail, slots
      requires Shape() && hwofs < n && ntc < n
    {
      && nicI < n && nmI == N2k(nicI, hwofs, n) && |frames| == Dist(ntc, nicI, n) && frames <= pending
      && Filled(was, slots[..], k.hwtail, frames, slotFlags, n)
    }

    /** The body of the import loop. */
    method TakeOne(nicI: nat, nmI: nat, slotFlags: nat, ghost frames: seq<nat>, ghost was: seq<Slot>)
      returns (nicI': nat, nmI': nat, ghost frames': seq<nat>)
      requires Valid() && Importing(nicI, nmI, frames, was, slotFlags) && dd[nicI]
      modifies slots
      ensures Valid() == true && Importing(nicI', nmI', frames', was, slotFlags) == true && |frames'| == |frames| + 1
    {
      Reach(ntc, rdh, rdt, Held(), dd[..], dlen[..], pending, n, nicI, hwofs);
      Fill(was, slots[..], k.hwtail, frames, slotFlags, n, nmI, dlen[nicI]);
      frames' := frames + [dlen[nicI]];
      SetSlot(nmI, Slot(slots[nmI].bufIdx, dlen[nicI], slotFlags));
      nmI', nicI' := Next(nmI, n - 1), Next(nicI, n - 1);
    }

    /** One turn of the import loop, and what the NIC does until the next test. */
    method ImportOne(nicI: nat, nmI: nat, slotFlags: nat, ghost frames: seq<nat>, ghost was: seq<Slot>)
      returns (nicI': nat, nmI': nat, ghost frames': seq<nat>)
      requires Valid() && Importing(nicI, nmI, frames, was, slotFlags) && dd[nicI]
      modifies this`rdh, this`taken, this`pending, dd, dlen, slots
      ensures Valid() && old(pending) <= pending
      ensures Importing(nicI', nmI', frames', was, slotFlags) && |frames'| == |frames| + 1
    {
      nicI', nmI', frames' := TakeOne(nicI, nmI, slotFlags, frames, was);
      Nic();
    }

    /** The import loop: stops at a descriptor without DD, whatever the NIC does in the meantime. */
    method ImportLoop(slotFlags: nat) returns (nicI: nat, nmI: nat, ghost frames: seq<nat>)
      requires Valid()
      modifies this`rdh, this`taken, this`pending, dd, dlen, slots
      ensures Valid() && old(pending) <= pending
      ensures Importing(nicI, nmI, frames, old(slots[..]), slotFlags) && frames == pending
    {
      nicI, nmI, frames := ntc, N2k(ntc, hwofs, n), [];
      Nic();
      while dd[nicI]
        invariant Valid() && old(pending) <= pending
        invariant Importing(nicI, nmI, frames, old(slots[..]), slotFlags)
        decreases n - |frames|
      {
        nicI, nmI, frames := ImportOne(nicI, nmI, slotFlags, frames, old(slots[..]));
      }
      Drained(ntc, rdh, rdt, Held(), dd[..], dlen[..], pending, n, nicI, frames);
    }

    /** The new hwtail and next_to_clean. */
    method Publish(nicI: nat, nmI: nat)
      requires Valid() && nicI < n && nmI == N2k(nicI, hwofs, n) && Dist(ntc, nicI, n) <= |pending|
      modifies this`ntc, this`pending, this`fate, k`hwtail
      ensures Valid() == true && k.hwtail == nmI && pending == old(pending)[Dist(old(ntc), nicI, n)..]
      ensures fate == old(fate) + Times(true, Dist(old(ntc), nicI, n))
      ensures Held() == old(Held()) + Dist(old(ntc), nicI, n)
      ensures Dist(old(k.hwtail), k.hwtail, n) == Dist(old(ntc), nicI, n)
    {
      ghost var d, l, b, s, u := dd[..], dlen[..], dbuf[..], slots[..], Held();
      Advance(ntc, rdh, rdt, u, d, l, pending, b, s, hwofs, n, nicI);
      SameDistance(ntc, nicI, hwofs, n);
      DistAdd(k.hwcur, k.hwtail, nmI, n);
      FramesDrop(wire, |fate|, |pending|, Dist(ntc, nicI, n));
      fate := fate + Times(true, Dist(ntc, nicI, n));
      pending := pending[Dist(ntc, nicI, n)..];
      ntc, k.hwtail := nicI, nmI;
      assert d == dd[..] && l == dlen[..] && b == dbuf[..] && s == slots[..];
    }

    /** First part of the sync: the user gets all received frames, in order, in the slots after hwtail. */
    method Import(slotFlags: nat) returns (ghost frames: seq<nat>)
      requires Valid()
      modifies this`ntc, this`rdh, this`taken, this`pending, this`fate, k`hwtail, dd, dlen, slots
      ensures Valid() && old(taken) <= taken && pending == []
      ensures frames == Frames(wire, |old(fate)|, |frames|) && fate == old(fate) + Times(true, |frames|)
      ensures Held() == old(Held()) + |frames| && Dist(old(k.hwtail), k.hwtail, n) == |frames|
      ensures Filled(old(slots[..]), slots[..], old(k.hwtail), frames, slotFlags, n)
    {
      var nicI, nmI;
      nicI, nmI, frames := ImportLoop(slotFlags);
      if nicI != ntc {
        Publish(nicI, nmI);
      }
    }

    /** The descriptors of the first r slots from hwcur are ready for the NIC again. */
    ghost predicate Returned(r: nat)
      reads this`hwofs, k`hwcur, slots, dd, dbuf
      requires Shape() && hwofs < n && k.hwcur < n
    {
      Ready(K2n(k.hwcur, hwofs, n), r, dd[..], dbuf[..], slots[..], hwofs, n)
    }

    /** Make the descriptor of a released slot ready. */
    method Rearm(nicI: nat, nmI: nat, ghost r: nat, ghost was: seq<Slot>)
      requires Valid() && r < Held() && nmI == At(k.hwcur, r, n) && nicI == K2n(nmI, hwofs, n) && Returned(r)
      requires Cleaned(was, slots[..], k.hwcur, r, n)
      modifies slots, dd, dbuf
      ensures Valid() && Returned(r + 1) && Cleaned(was, slots[..], k.hwcur, r + 1, n)
    {
      CleanOne(was, slots[..], k.hwcur, r, n, nmI);
      ghost var d, b, s := dd[..], dbuf[..], slots[..];
      if slots[nmI].flags % 2 == 1 { // NS_BUF_CHANGED
        slots[nmI] := slots[nmI].(flags := slots[nmI].flags - 1);
      }
      dd[nicI] := false;
      dbuf[nicI] := slots[nmI].bufIdx;
      UserRegion(k.hwcur, k.hwtail, ntc, hwofs, n, nmI);
      RearmKeeps(ntc, rdh, rdt, Held(), d, b, s, slots[..], hwofs, n, K2n(k.hwcur, hwofs, n), r, nicI);
      assert slots[..] == s[nmI := was[nmI].(flags := was[nmI].flags - was[nmI].flags % 2)];
      assert dd[..] == d[nicI := false] && dbuf[..] == b[nicI := slots[nmI].bufIdx];
    }

    /** The body of the second loop, and what the NIC does until the next one. */
    method Recycle(nicI: nat, nmI: nat, ghost r: nat, ghost was: seq<Slot>)
      requires Valid() && r < Held() && nmI == At(k.hwcur, r, n) && nicI == K2n(nmI, hwofs, n) && Returned(r)
      requires Cleaned(was, slots[..], k.hwcur, r, n)
      modifies this`rdh, this`taken, this`pending, slots, dd, dlen, dbuf
      ensures Valid() == true && old(pending) <= pending
      ensures Returned(r + 1) && Cleaned(was, slots[..], k.hwcur, r + 1, n) == true
    {
      Rearm(nicI, nmI, r, was);
      ghost var d := dd[..];
      Nic();
      UserRegion(k.hwcur, k.hwtail, ntc, hwofs, n, nmI);
      ReadyKept(ntc, Held(), K2n(k.hwcur, hwofs, n), r + 1, d, dd[..], dbuf[..], slots[..], hwofs, n);
    }

    /** The second loop has prepared r slots, all with good buffers, and has reached nicI and nmI. */
    ghost predicate Recycling(nicI: nat, nmI: nat, r: nat, was: seq<Slot>, total: nat)
      reads this`hwofs, k`hwcur, slots, dd, dbuf
      requires Shape() && hwofs < n && k.hwcur < n
    {
      && r < n && nmI == At(k.hwcur, r, n) && nicI == K2n(nmI, hwofs, n) && Returned(r)
      && Cleaned(was, slots[..], k.hwcur, r, n) && Usable(was, k.hwcur, r, total, n)
    }

    /** One turn of the second loop. */
    method RecycleNext(nicI: nat, nmI: nat, total: nat, ghost r: nat, ghost all: nat, ghost was: seq<Slot>)
      returns (ok: bool, nicI': nat, nmI': nat)
      requires Valid() && Recycling(nicI, nmI, r, was, total) && r < all <= Held()
      modifies this`rdh, this`taken, this`pending, slots, dd, dlen, dbuf
      ensures Valid() == true && old(pending) <= pending
      ensures !ok ==> unchanged(slots) && Usable(was, k.hwcur, all, total, n) == false
      ensures ok ==> Recycling(nicI', nmI', r + 1, was, total) == true
    {
      DistAt(k.hwcur, r, n);
      UsableOne(was, slots[..], k.hwcur, r, all, total, n, nmI);
      if slots[nmI].bufIdx == 0 || slots[nmI].bufIdx >= total {
        return false, nicI, nmI;
      }
      Recycle(nicI, nmI, r, was);
      StepBoth(k.hwcur, nmI, hwofs, n);
      ok, nmI', nicI' := true, Next(nmI, n - 1), Next(nicI, n - 1);
    }

    /** The second loop: prepare the descriptors of released slots up to head, unless one has a bad buffer. */
    method RecycleLoop(head: nat, total: nat) returns (ok: bool, nicI: nat, ghost r: nat)
      requires Valid() && head < n && Dist(k.hwcur, head, n) <= Held()
      modifies this`rdh, this`taken, this`pending, slots, dd, dlen, dbuf
      ensures Valid() == true && old(pending) <= pending
      ensures ok == Usable(old(slots[..]), k.hwcur, Dist(k.hwcur, head, n), total, n)
      ensures ok ==> r == Dist(k.hwcur, head, n) && Returned(r) && nicI == K2n(head, hwofs, n)
      ensures r <= Dist(k.hwcur, head, n) && Cleaned(old(slots[..]), slots[..], k.hwcur, r, n) == true
    {
      var nmI: nat := k.hwcur;
      nicI := K2n(nmI, hwofs, n);
      r := 0;
      ghost var was, all := slots[..], Dist(k.hwcur, head, n);
      while nmI != head
        invariant Valid() == true && Recycling(nicI, nmI, r, was, total) == true && r <= all && old(pending) <= pending
        decreases all - r
      {
        ok, nicI, nmI := RecycleNext(nicI, nmI, total, r, all, was);
        if !ok { return; }
        r := r + 1;
      }
      ok := true;
    }

    /** The new hwcur and RDT: one descriptor is always left between RDT and the user's slots. */
    method Return(head: nat, nicI: nat)
      requires Valid() && head < n && Dist(k.hwcur, head, n) <= Held()
      requires Returned(Dist(k.hwcur, head, n)) && nicI == K2n(head, hwofs, n)
      modifies this`rdt, k`hwcur
      ensures Valid() && k.hwcur == head
    {
      ghost var d, l, b, s := dd[..], dlen[..], dbuf[..], slots[..];
      UserRegion(k.hwcur, k.hwtail, ntc, hwofs, n, head);
      ReleaseKeeps(ntc, rdh, rdt, Held(), d, b, s, hwofs, n, K2n(k.hwcur, hwofs, n), nicI);
      DistAdd(k.hwcur, head, k.hwtail, n);
      k.hwcur := head;
      rdt := Prev(nicI, n - 1);
      assert d == dd[..] && l == dlen[..] && b == dbuf[..] && s == slots[..];
    }

    /** Second part of the sync: give released slots back to the NIC. */
    method Release(head: nat, total: nat) returns (ok: bool, ghost r: nat)
      requires Valid() && head < n && Dist(k.hwcur, head, n) <= Held()
      modifies this`rdh, this`rdt, this`taken, this`pending, k`hwcur, slots, dd, dlen, dbuf
      ensures Valid() && old(pending) <= pending
      ensures ok == Usable(old(slots[..]), old(k.hwcur), Dist(old(k.hwcur), head, n), total, n)
      ensures k.hwcur == if ok then head else old(k.hwcur)
      ensures r <= Dist(old(k.hwcur), head, n) && Cleaned(old(slots[..]), slots[..], old(k.hwcur), r, n)
      ensures ok ==> r == Dist(old(k.hwcur), head, n)
    {
      r := 0;
      if k.hwcur == head { return true, r; }
      var nicI;
      ok, nicI, r := RecycleLoop(head, total);
      if ok {
        Return(head, nicI);
      }
    }

    /** The first part is done only when asked for. */
    method MayImport(force: bool, slotFlags: nat) returns (ghost frames: seq<nat>)
      requires Valid()
      modifies this`ntc, this`rdh, this`taken, this`pending, this`fate, k`hwtail, dd, dlen, slots
      ensures Valid() && old(taken) <= taken
      ensures frames == Frames(wire, |old(fate)|, |frames|) && fate == old(fate) + Times(true, |frames|)
      ensures if force then old(taken) <= |fate| else frames == []
      ensures Held() == old(Held()) + |frames|
      ensures Filled(old(slots[..]), slots[..], old(k.hwtail), frames, slotFlags, n)
    {
      frames := [];
      if force {
        frames := Import(slotFlags);
      }
    }

    /** Both parts of the sync, for an accepted head. */
    method Exchange(head: nat, force: bool, slotFlags: nat, total: nat)
      returns (ok: bool, ghost frames: seq<nat>, ghost r: nat)
      requires Valid() && head < n && Dist(k.hwcur, head, n) <= Held()
      modifies this`ntc, this`rdh, this`rdt, this`taken, this`pending, this`fate, k`hwcur, k`hwtail
      modifies slots, dd, dlen, dbuf
      ensures Valid() == true && old(taken) <= taken
      ensures frames == Frames(wire, |old(fate)|, |frames|) && fate == old(fate) + Times(true, |frames|)
      ensures if force then old(taken) <= |fate| else frames == []
      ensures ok == Usable(old(slots[..]), old(k.hwcur), Dist(old(k.hwcur), head, n), total, n)
      ensures k.hwcur == if ok then head else old(k.hwcur)
      ensures Dist(old(k.hwcur), k.hwtail, n) == old(Held()) + |frames|
      ensures r <= Dist(old(k.hwcur), head, n) && (ok ==> r == Dist(old(k.hwcur), head, n))
      ensures Exchanged(old(slots[..]), slots[..], old(k.hwcur), r, old(k.hwtail), frames, slotFlags, n) == true
    {
      frames := MayImport(force, slotFlags);
      ghost var mid, c := slots[..], k.hwcur;
      UsableAfter(old(slots[..]), mid, c, Dist(c, head, n), total, old(k.hwtail), frames, slotFlags, n);
      ok, r := Release(head, total);
      ImportThenRelease(old(slots[..]), mid, slots[..], c, r, old(k.hwtail), frames, slotFlags, n);
    }

    /** The indices and all released buffers are good. */
    ghost predicate Accepts(total: nat)
      reads k, slots
      requires Shape()
    {
      k.RxAccepts() && Usable(slots[..], k.hwcur, Dist(k.hwcur, k.head, n), total, n)
    }

    /** ixgbe_netmap_rxsync: fails when the user's indices or one of the released buffers are bad.  Without a carrier
        it does nothing. */
    method RxSync(force: bool, carrier: bool, slotFlags: nat, total: nat)
      returns (ok: bool, ghost frames: seq<nat>, ghost r: nat)
      requires Valid()
      modifies this`ntc, this`rdh, this`rdt, this`taken, this`pending, this`fate, k`hwcur, k`hwtail, k`rhead, k`rcur, k`rtail, k`tail
      modifies slots, dd, dlen, dbuf
      ensures Valid() == true && old(taken) <= taken
      ensures frames == Frames(wire, |old(fate)|, |frames|) && fate == old(fate) + Times(true, |frames|)
      ensures ok <==> !carrier || old(Accepts(total))
      ensures if carrier && force && old(k.RxAccepts()) then old(taken) <= |fate| else frames == []
      ensures Dist(old(k.hwcur), k.hwtail, n) == old(Held()) + |frames|
      ensures Exchanged(old(slots[..]), slots[..], old(k.hwcur), r, old(k.hwtail), frames, slotFlags, n) == true
      ensures if carrier && old(k.RxAccepts()) then k.head < n && r <= Dist(old(k.hwcur), k.head, n) && (ok ==> r == Dist(old(k.hwcur), k.head, n))
              else r == 0 && taken == old(taken)
      ensures k.hwcur == if ok && carrier then k.head else old(k.hwcur)
      ensures ok && carrier ==> k.rtail == k.tail == k.hwtail && (k.cur < n ==> k.Ordered())
    {
      frames, r := [], 0;
      ExchangedNone(slots[..], k.hwcur, k.hwtail, slotFlags, n);
      var head := k.RxSyncPrologue();
      if !carrier { return true, frames, r; }
      if head > n - 1 { return false, frames, r; }
      ok, frames, r := Proceed(head, force, slotFlags, total);
    }

    /** The sync after the prologue has accepted head. */
    method Proceed(head: nat, force: bool, slotFlags: nat, total: nat)
      returns (ok: bool, ghost frames: seq<nat>, ghost r: nat)
      requires Valid() && head < n && Dist(k.hwcur, head, n) <= Held() && k.RxAccepts() && k.head == head
      modifies this`ntc, this`rdh, this`rdt, this`taken, this`pending, this`fate, k`hwcur, k`hwtail, k`rhead, k`rcur, k`rtail, k`tail
      modifies slots, dd, dlen, dbuf
      ensures Valid() == true && old(taken) <= taken
      ensures frames == Frames(wire, |old(fate)|, |frames|) && fate == old(fate) + Times(true, |frames|)
      ensures if force then old(taken) <= |fate| else frames == []
      ensures ok == Usable(old(slots[..]), old(k.hwcur), Dist(old(k.hwcur), head, n), total, n)
      ensures k.hwcur == if ok then head else old(k.hwcur)
      ensures Dist(old(k.hwcur), k.hwtail, n) == old(Held()) + |frames|
      ensures r <= Dist(old(k.hwcur), head, n) && (ok ==> r == Dist(old(k.hwcur), head, n))
      ensures Exchanged(old(slots[..]), slots[..], old(k.hwcur), r, old(k.hwtail), frames, slotFlags, n) == true
      ensures ok ==> k.rtail == k.tail == k.hwtail && (k.cur < n ==> k.Ordered())
    {
      ghost var c, t := k.hwcur, k.hwtail;
      ok, frames, r := Exchange(head, force, slotFlags, total);
      if ok {
        OrderAfter(c, head, k.cur, t, k.hwtail, n);
        k.RxSyncFinalize();
      }
    }

    /** The user stores new indices. */
    method MoveHead(h: nat, c: nat)
      requires Valid()
      modifies k`head, k`cur
      ensures Valid() && k.head == h && k.cur == c
    {
      k.head, k.cur := h, c;
    }

    /** The user writes one of the slots it holds: another buffer, say. */
    method WriteSlot(i: nat, s: Slot)
      requires Valid() && i < n && Dist(k.hwcur, i, n) < Held()
      modifies slots
      ensures Valid() && slots[..] == old(slots[..])[i := s]
    {
      slots[i] := s;
      UserRegion(k.hwcur, k.hwtail, ntc, hwofs, n, i);
    }

    /** The loop of ixgbe_netmap_configure_rx_ring. */
    method LoadBuffers()
      requires Shape() && hwofs < n
      modifies dbuf
      ensures forall j {:trigger dbuf[j]} :: 0 <= j < n ==> dbuf[j] == slots[N2k(j, hwofs, n)].bufIdx
    {
      for i := 0 to n
        invariant forall j {:trigger dbuf[j]} :: 0 <= j < i ==> dbuf[j] == slots[N2k(j, hwofs, n)].bufIdx
      {
        dbuf[i] := slots[N2k(i, hwofs, n)].bufIdx;
      }
    }

    /** Reinitialisation of the NIC: the driver restarts its ring at 0 with DD clear everywhere, netmap_reset
        moves the offset, and ixgbe_netmap_configure_rx_ring loads the buffers and sets RDT. */
    method Reset()
      requires Valid()
      modifies this, dd, dbuf
      ensures Valid() && hwofs == k.hwtail && ntc == rdh == 0 && rdt == n - 1 - Held()
      ensures taken == old(taken) && pending == [] && fate == old(fate) + Times(false, |old(pending)|)
    {
      fate := fate + Times(false, |pending|);
      ntc, rdh, pending := 0, 0, [];
      forall i | 0 <= i < n {
        dd[i] := false;
      }
      hwofs := k.hwtail;
      var space := k.hwtail - k.hwcur;
      if space < 0 {
        space := space + n;
      }
      LoadBuffers();
      rdt := n - 1 - space;
      Restarted(rdt, space, dd[..], dlen[..], dbuf[..], slots[..], hwofs, n);
    }

    /** RDT is just before the descriptor of hwcur, and the import loop cannot pass it. */
    lemma TailBeforeHwcur()
      requires Valid()
      ensures rdt == Prev(K2n(k.hwcur, hwofs, n), n - 1) && !dd[rdt]
    {
      UserRegion(k.hwcur, k.hwtail, ntc, hwofs, n, k.hwcur);
      assert !dd[..][rdt];
    }

    /** A descriptor that the NIC may fill belongs to a slot that the user does not hold, and points to its buffer. */
    lemma NicOwnsNoUserSlot(j: nat)
      requires Valid() && j < n && Dist(rdh, j, n) < Dist(rdh, rdt, n)
      ensures Held() <= Dist(k.hwcur, N2k(j, hwofs, n), n)
      ensures dbuf[j] == slots[N2k(j, hwofs, n)].bufIdx
    {
      UserRegion(k.hwcur, k.hwtail, ntc, hwofs, n, N2k(j, hwofs, n));
      assert dbuf[..][j] == dbuf[j];
    }

    /** The ring as the run of events sees it. */
    ghost function Abs(): Summary
      reads this`taken, this`fate, k, slots
    {
      Summary(slots[..], k.hwcur, k.hwtail, k.head, k.cur, taken, fate)
    }

    method HappenArrives()
      requires Valid()
      modifies this`rdh, this`taken, this`pending, dd, dlen
      ensures Valid() && Follows(wire, old(Abs()), Arrives, Abs(), n)
    {
      Receive();
    }

    method HappenSync(e: Event) returns (ok: bool)
      requires Valid() && e.Syncs?
      modifies this`ntc, this`rdh, this`rdt, this`taken, this`pending, this`fate, k`hwcur, k`hwtail, k`rhead, k`rcur, k`rtail, k`tail
      modifies slots, dd, dlen, dbuf
      ensures Valid() && Follows(wire, old(Abs()), e, Abs(), n)
      ensures ok <==> e.carrier ==> old(Accepts(e.total))
    {
      ghost var a := Abs();
      ghost var frames, r;
      ok, frames, r := RxSync(e.force, e.carrier, e.slotFlags, e.total);
      SyncDone(wire, a, e, Abs(), n, frames, r);
    }

    method HappenOther(e: Event)
      requires Valid() && (e.Moves? || e.Writes? || e.Resets?)
      modifies this, k`head, k`cur, slots, dd, dbuf
      ensures Valid() && Follows(wire, old(Abs()), e, Abs(), n)
    {
      match e
      case Moves(h, c) => MoveHead(h, c);
      case Writes(x, s) =>
        if x < n && Dist(k.hwcur, x, n) < Dist(k.hwcur, k.hwtail, n) { WriteSlot(x, s); }
      case Resets => Reset();
    }

    /** One event of a run. */
    method Happen(e: Event) returns (ok: bool)
      requires Valid()
      modifies this, k, slots, dd, dlen, dbuf
      ensures Valid() == true && Follows(wire, old(Abs()), e, Abs(), n) == true
      ensures ok <==> (e.Syncs? && e.carrier ==> old(Accepts(e.total)))
    {
      ok := true;
      if e.Arrives? {
        HappenArrives();
      } else if e.Syncs? {
        ok := HappenSync(e);
      } else {
        HappenOther(e);
      }
    }

    /** Every run, up to the first refused sync, of a user that writes only slots it holds: the ring stays as it should be,
        each event does what it should, and without a reset the user gets the frames of the wire one by one, and misses
        none. */
    method Run(script: seq<Event>) returns (refused: bool, ghost trace: seq<Summary>)
      requires Valid()
      modifies this, k, slots, dd, dlen, dbuf
      ensures Valid() == true && (!refused ==> |trace| == |script| + 1)
      ensures Trace(wire, trace, script, n) == true && trace[0] == old(Abs()) && trace[|trace| - 1] == Abs()
      ensures Resets !in script ==>
                |old(fate)| <= |fate| <= taken && old(taken) <= taken && |old(fate)| <= old(taken)
                && Got(wire, taken, fate) == Got(wire, old(taken), old(fate)) + Frames(wire, |old(fate)|, |fate| - |old(fate)|)
    {
      ghost var start := Abs();
      trace := [start];
      refused := false;
      for i := 0 to |script|
        invariant Valid() == true && |trace| == i + 1 && trace[0] == start && trace[i] == Abs() && start.taken <= taken
        invariant Trace(wire, trace, script, n) == true
      {
        var ok := Happen(script[i]);
        TraceMore(wire, trace, script, n, Abs());
        TakenGrows(wire, trace[i], script[i], Abs(), n);
        trace := trace + [Abs()];
        if !ok {
          refused := true;
          break;
        }
      }
      if Resets !in script {
        NothingMissed(wire, trace, script, n, |trace| - 1);
        GotMore(wire, start.taken, start.fate, taken, |fate| - |start.fate|);
      }
    }
  }

  lemma TakenGrows(wire: nat -> nat, a: Summary, e: Event, b: Summary, n: nat)
    requires Follows(wire, a, e, b, n)
    ensures a.taken <= b.taken
  {
  }

  /** What a sync says about the summaries before and after. */
  lemma SyncDone(wire: nat -> nat, a: Summary, e: Event, b: Summary, n: nat, frames: seq<nat>, r: nat)
    requires e.Syncs? && |a.fate| <= a.taken <= b.taken && frames == Frames(wire, |a.fate|, |frames|)
    requires b.fate == a.fate + Times(true, |frames|) && b.head == a.head && b.cur == a.cur
    requires a.hwcur < n && a.hwtail < n && b.hwtail < n
    requires Dist(a.hwcur, b.hwtail, n) == Dist(a.hwcur, a.hwtail, n) + |frames|
    requires if e.carrier && e.force && Good(a, n) then a.taken <= |b.fate| else frames == []
    requires Exchanged(a.slots, b.slots, a.hwcur, r, a.hwtail, frames, e.slotFlags, n)
    requires e.carrier && Good(a, n) ==> r <= Dist(a.hwcur, a.head, n)
    requires e.carrier && Good(a, n) ==>
               if Usable(a.slots, a.hwcur, Dist(a.hwcur, a.head, n), e.total, n)
               then r == Dist(a.hwcur, a.head, n) && b.hwcur == a.head else b.hwcur == a.hwcur
    requires !(e.carrier && Good(a, n)) ==> r == 0 && b.taken == a.taken && b.hwcur == a.hwcur
    ensures Follows(wire, a, e, b, n)
  {
    AtAt(a.hwcur, Dist(a.hwcur, a.hwtail, n), |frames|, n);
    if e.carrier && Good(a, n) {
      assert SyncFollows(wire, a, e, b, n, r);
    } else {
      assert b.slots == a.slots && a.fate + Times(true, 0) == a.fate;
    }
  }
}
