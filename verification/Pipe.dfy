/** netmap pipes: the transmit ring of one end feeds the receive ring of the other by swapping slots.

    The two ends share no lock: while a txsync of the sender swaps slots, the receiver may run its own rxsync, write
    slots and release them, at any point. */
module Pipe {
  import opened Ring
  import opened KringModel
  import opened Buffers

  /** The d slots from index i on. */
  ghost function Seg(slots: seq<Slot>, i: nat, d: nat, n: nat): (r: seq<Slot>)
    requires |slots| == n && i < n && d <= n
    ensures |r| == d && forall k {:trigger r[k]} :: 0 <= k < d ==> r[k] == slots[At(i, k, n)]
  {
    seq(d, k requires 0 <= k < d => slots[At(i, k, n)])
  }

  lemma SegSplit(slots: seq<Slot>, i: nat, a: nat, b: nat, n: nat)
    requires |slots| == n && i < n && a + b <= n
    ensures Seg(slots, i, a + b, n) == Seg(slots, i, a, n) + Seg(slots, At(i, a, n), b, n)
  {
  }

  /** Slots outside a segment do not matter to it. */
  lemma SegKept(slots: seq<Slot>, slots': seq<Slot>, i: nat, d: nat, n: nat)
    requires |slots| == |slots'| == n && i < n && d <= n
    requires forall x {:trigger slots'[x]} :: 0 <= x < n && Dist(i, x, n) < d ==> slots'[x] == slots[x]
    ensures Seg(slots', i, d, n) == Seg(slots, i, d, n)
  {
    forall k | 0 <= k < d ensures Seg(slots', i, d, n)[k] == Seg(slots, i, d, n)[k] {
      if k < n { DistAt(i, k, n); }
    }
  }

  /* ---- the receiving end ---- */

  /** The receive ring; all slots that were moved to it and those that its user was shown, each as it was at that time;
      the buffers that its user has put in and taken out. */
  datatype Rx = Rx(n: nat, hwcur: nat, hwtail: nat, rhead: nat, rtail: nat, head: nat, cur: nat, slots: seq<Slot>,
                   sent: seq<Slot>, delivered: seq<Slot>, given: multiset<nat>, taken: multiset<nat>)

  predicate RxRange(v: Rx) {
    |v.slots| == v.n && v.hwcur < v.n && v.hwtail < v.n && v.rhead < v.n && v.rtail < v.n && v.head < v.n && v.cur < v.n
  }

  /** The user stays within what it was shown; what was sent is what was shown, and what waits from rtail to hwtail. */
  ghost predicate RxOk(v: Rx) {
    && 2 <= v.n && RxRange(v)
    && Dist(v.hwcur, v.rhead, v.n) <= Dist(v.hwcur, v.head, v.n) <= Dist(v.hwcur, v.cur, v.n) <= Dist(v.hwcur, v.rtail, v.n)
    && Dist(v.hwcur, v.rtail, v.n) <= Dist(v.hwcur, v.hwtail, v.n)
    && v.sent == v.delivered + Seg(v.slots, v.rtail, Dist(v.rtail, v.hwtail, v.n), v.n)
  }

  /** What the receiver can do: its user rewrites a slot or releases slots; the two steps of an rxsync. */
  datatype RxStep =
    | Writes(i: nat, slot: Slot)
    | Releases(head: nat, cur: nat)
    | Recovers
    | Shows

  predicate MayWrite(v: Rx, i: nat)
    requires RxRange(v)
  {
    i < v.n && Dist(v.hwcur, i, v.n) < Dist(v.hwcur, v.rtail, v.n)
  }

  predicate MayRelease(v: Rx, head: nat, cur: nat)
    requires RxRange(v)
  {
    && head < v.n && cur < v.n
    && Dist(v.hwcur, v.rhead, v.n) <= Dist(v.hwcur, head, v.n) <= Dist(v.hwcur, cur, v.n) <= Dist(v.hwcur, v.rtail, v.n)
  }

  ghost function Rewritten(v: Rx, i: nat, s: Slot): Rx
    requires i < |v.slots|
  {
    v.(slots := v.slots[i := s], given := v.given + multiset{s.bufIdx}, taken := v.taken + multiset{v.slots[i].bufIdx})
  }

  /** The receiver after one step; users respect the ownership of slots. */
  ghost function After(v: Rx, e: RxStep): (r: Rx)
    requires RxRange(v)
    ensures RxRange(r) && r.n == v.n && r.hwtail == v.hwtail && r.sent == v.sent
  {
    match e
    case Writes(i, s) => if MayWrite(v, i) then Rewritten(v, i, s) else v
    case Releases(h, c) => if MayRelease(v, h, c) then v.(head := h, cur := c) else v
    case Recovers => v.(hwcur := v.rhead)
    case Shows => v.(rtail := v.hwtail, rhead := v.head, delivered := v.sent)
  }

  ghost function AfterAll(v: Rx, steps: seq<RxStep>): (r: Rx)
    requires RxRange(v)
    ensures RxRange(r) && r.n == v.n && r.hwtail == v.hwtail && r.sent == v.sent
  {
    if steps == [] then v else After(AfterAll(v, steps[..|steps| - 1]), steps[|steps| - 1])
  }

  /** Slots that are neither the user's nor waiting. */
  predicate Free(v: Rx, x: nat)
    requires RxRange(v) && x < v.n
  {
    Dist(v.hwtail, x, v.n) < v.n - Dist(v.hwcur, v.hwtail, v.n)
  }

  /** A slot that the receiver may write is not waiting, and not free. */
  lemma ReceiverSlot(hwcur: nat, rtail: nat, hwtail: nat, i: nat, nr: nat)
    requires hwcur < nr && rtail < nr && hwtail < nr && i < nr
    requires Dist(hwcur, i, nr) < Dist(hwcur, rtail, nr) <= Dist(hwcur, hwtail, nr)
    ensures Dist(rtail, hwtail, nr) <= Dist(rtail, i, nr) && nr - Dist(hwcur, hwtail, nr) <= Dist(hwtail, i, nr)
  {
    DistAdd(hwcur, i, rtail, nr);
    DistAdd(hwcur, i, hwtail, nr);
    DistAdd(hwcur, rtail, hwtail, nr);
  }

  lemma RewriteOk(v: Rx, i: nat, s: Slot)
    requires RxOk(v) && MayWrite(v, i)
    ensures RxOk(Rewritten(v, i, s)) && !Free(v, i)
  {
    ReceiverSlot(v.hwcur, v.rtail, v.hwtail, i, v.n);
    SegKept(v.slots, v.slots[i := s], v.rtail, Dist(v.rtail, v.hwtail, v.n), v.n);
  }

  lemma RecoverOk(v: Rx)
    requires RxOk(v)
    ensures RxOk(v.(hwcur := v.rhead)) && Dist(v.rhead, v.hwtail, v.n) <= Dist(v.hwcur, v.hwtail, v.n)
  {
    DistAdd(v.hwcur, v.rhead, v.hwtail, v.n);
    DistAdd(v.hwcur, v.rhead, v.rtail, v.n);
    DistAdd(v.hwcur, v.rhead, v.head, v.n);
    DistAdd(v.hwcur, v.rhead, v.cur, v.n);
  }

  lemma ShowOk(v: Rx)
    requires RxOk(v)
    ensures RxOk(v.(rtail := v.hwtail, rhead := v.head, delivered := v.sent))
  {
    assert v.sent + Seg(v.slots, v.hwtail, 0, v.n) == v.sent;
  }

  /** v' has come from v: more was shown, and no free slot was touched or lost. */
  ghost predicate Onward(v: Rx, v': Rx)
    requires RxRange(v)
  {
    && RxRange(v') && v'.n == v.n && v'.hwtail == v.hwtail && v'.sent == v.sent && v.delivered <= v'.delivered
    && Dist(v'.hwcur, v.hwtail, v.n) <= Dist(v.hwcur, v.hwtail, v.n)
    && forall x {:trigger v'.slots[x]} :: 0 <= x < v.n && Free(v, x) ==> v'.slots[x] == v.slots[x]
  }

  lemma OnwardAgain(v: Rx, v1: Rx, v2: Rx)
    requires RxRange(v) && Onward(v, v1) && Onward(v1, v2)
    ensures Onward(v, v2)
  {
    forall x | 0 <= x < v.n && Free(v, x) ensures v2.slots[x] == v.slots[x] {
      assert v1.slots[x] == v.slots[x] && Free(v1, x);
    }
  }

  /** Every step of the receiver keeps its ring in order. */
  lemma StepOk(v: Rx, e: RxStep)
    requires RxOk(v)
    ensures RxOk(After(v, e)) && Onward(v, After(v, e))
  {
    match e
    case Writes(i, s) => if MayWrite(v, i) { RewriteOk(v, i, s); }
    case Releases(_, _) =>
    case Recovers => RecoverOk(v);
    case Shows => ShowOk(v);
  }

  lemma {:induction false} StepsOk(v: Rx, steps: seq<RxStep>)
    requires RxOk(v)
    ensures RxOk(AfterAll(v, steps)) && Onward(v, AfterAll(v, steps))
  {
    if steps != [] {
      var v1 := AfterAll(v, steps[..|steps| - 1]);
      StepsOk(v, steps[..|steps| - 1]);
      StepOk(v1, steps[|steps| - 1]);
      OnwardAgain(v, v1, After(v1, steps[|steps| - 1]));
    }
  }

  /* ---- the sending end ---- */

  /** The transmit ring; all slots that its user has submitted, each as it was at that time; the buffers that its user
      has put in and taken out. */
  datatype Tx = Tx(n: nat, hwcur: nat, hwtail: nat, rhead: nat, rtail: nat, slots: seq<Slot>, submitted: seq<Slot>,
                   given: multiset<nat>, taken: multiset<nat>)

  predicate TxRange(t: Tx) {
    |t.slots| == t.n && t.hwcur < t.n && t.hwtail < t.n && t.rhead < t.n && t.rtail < t.n
  }

  /** What was submitted is what was sent, and what waits in the transmit ring from hwcur to rhead. */
  ghost predicate TxOk(t: Tx, sent: seq<Slot>) {
    && 2 <= t.n && TxRange(t) && t.rtail == t.hwtail && Dist(t.hwcur, t.rhead, t.n) <= Dist(t.hwcur, t.rtail, t.n)
    && t.submitted == sent + Seg(t.slots, t.hwcur, Dist(t.hwcur, t.rhead, t.n), t.n)
  }

  /** How many slots a txsync moves: the new ones, as far as the receive ring has room. */
  function Moving(t: Tx, v: Rx): nat
    requires TxRange(t) && RxRange(v)
  {
    var new', room := Dist(t.hwcur, t.rhead, t.n), v.n - 1 - Dist(v.hwcur, v.hwtail, v.n);
    if room < new' then room else new'
  }

  /** Room for m slots in both rings. */
  ghost predicate Fits(t: Tx, v: Rx, m: nat) {
    TxRange(t) && RxRange(v) && m < t.n && m + Dist(v.hwcur, v.hwtail, v.n) <= v.n - 1
  }

  /** The receive ring with the first c of the new slots in its free ones. */
  ghost function Laid(v: Rx, t: Tx, c: nat): (r: Rx)
    requires TxRange(t) && RxRange(v) && c <= t.n
    ensures RxRange(r)
  {
    v.(slots := seq(v.n, x requires 0 <= x < v.n =>
         var d := Dist(v.hwtail, x, v.n); if d < c then t.slots[At(t.hwcur, d, t.n)] else v.slots[x]))
  }

  /** And the transmit ring with the free ones in their place. */
  ghost function Swapped(t: Tx, v: Rx, c: nat): (r: seq<Slot>)
    requires TxRange(t) && RxRange(v) && c <= v.n
    ensures |r| == t.n
  {
    seq(t.n, x requires 0 <= x < t.n =>
      var d := Dist(t.hwcur, x, t.n); if d < c then v.slots[At(v.hwtail, d, v.n)] else t.slots[x])
  }

  /** One more exchange. */
  lemma SwapOne(t: Tx, v: Rx, c: nat, j: nat, k: nat)
    requires Fits(t, v, c + 1) && j == At(v.hwtail, c, v.n) && k == At(t.hwcur, c, t.n)
    ensures Laid(v, t, c).slots[j] == v.slots[j] && Swapped(t, v, c)[k] == t.slots[k]
    ensures Swapped(t, v, c + 1) == Swapped(t, v, c)[k := v.slots[j]]
    ensures Laid(v, t, c + 1).slots == Laid(v, t, c).slots[j := t.slots[k]]
  {
    DistAt(v.hwtail, c, v.n);
    DistAt(t.hwcur, c, t.n);
  }

  lemma SwapNone(t: Tx, v: Rx)
    requires TxRange(t) && RxRange(v)
    ensures Swapped(t, v, 0) == t.slots && Laid(v, t, 0) == v
  {
    assert Laid(v, t, 0).slots == v.slots;
  }

  /** How many slots both rings have and the buffers in them, when c slots have been exchanged. */
  ghost function Both(t: Tx, v: Rx, c: nat): (nat, multiset<nat>)
    requires TxRange(t) && RxRange(v) && c <= t.n && c <= v.n
  {
    (t.n + v.n, Bufs(Swapped(t, v, c)) + Bufs(Laid(v, t, c).slots))
  }

  lemma SwapOneConserves(t: Tx, v: Rx, c: nat, m: nat)
    requires Fits(t, v, m) && c < m
    ensures Both(t, v, c + 1) == Both(t, v, c)
  {
    var j, k := At(v.hwtail, c, v.n), At(t.hwcur, c, t.n);
    SwapOne(t, v, c, j, k);
    ExchangeConserves(Swapped(t, v, c), Laid(v, t, c).slots, k, j, v.slots[j], t.slots[k]);
  }

  lemma {:induction false} BothStay(t: Tx, v: Rx, c: nat, m: nat)
    requires Fits(t, v, m) && c <= m
    ensures Both(t, v, c) == Both(t, v, 0)
  {
    if c > 0 {
      BothStay(t, v, c - 1, m);
      SwapOneConserves(t, v, c - 1, m);
    }
  }

  /** The exchange loses no buffer and doubles none. */
  lemma SwapConserves(t: Tx, v: Rx, m: nat)
    requires Fits(t, v, m)
    ensures Bufs(Swapped(t, v, m)) + Bufs(Laid(v, t, m).slots) == Bufs(t.slots) + Bufs(v.slots)
  {
    BothStay(t, v, m, m);
    SwapNone(t, v);
  }

  /** A receiver that runs while slots are exchanged does what it would have done before. */
  lemma LaidStep(v: Rx, t: Tx, c: nat, e: RxStep)
    requires RxOk(v) && Fits(t, v, c)
    ensures After(Laid(v, t, c), e) == Laid(After(v, e), t, c)
  {
    if e.Writes? && MayWrite(v, e.i) {
      RewriteOk(v, e.i, e.slot);
      assert Laid(v, t, c).slots[e.i := e.slot] == Laid(After(v, e), t, c).slots;
    }
  }

  lemma {:induction false} LaidSteps(v: Rx, t: Tx, c: nat, steps: seq<RxStep>)
    requires RxOk(v) && Fits(t, v, c)
    ensures AfterAll(Laid(v, t, c), steps) == Laid(AfterAll(v, steps), t, c)
  {
    if steps != [] {
      var some := steps[..|steps| - 1];
      LaidSteps(v, t, c, some);
      StepsOk(v, some);
      LaidStep(AfterAll(v, some), t, c, steps[|steps| - 1]);
    }
  }

  /** And the sender gets the same slots. */
  lemma SwappedSame(t: Tx, v: Rx, v': Rx, c: nat)
    requires Fits(t, v, c) && Onward(v, v')
    ensures Fits(t, v', c) && Swapped(t, v', c) == Swapped(t, v, c)
  {
    var a, b := Swapped(t, v, c), Swapped(t, v', c);
    forall x | 0 <= x < t.n ensures b[x] == a[x] {
      var d := Dist(t.hwcur, x, t.n);
      if d < c {
        DistAt(v.hwtail, d, v.n);
        assert Free(v, At(v.hwtail, d, v.n));
      }
    }
  }

  /* ---- a txsync ---- */

  /** What the receiver does in round i of an exchange. */
  function Round(during: seq<seq<RxStep>>, i: nat): seq<RxStep> {
    if i < |during| then during[i] else []
  }

  ghost function AfterRounds(v: Rx, during: seq<seq<RxStep>>, m: nat): (r: Rx)
    requires RxRange(v)
    ensures RxRange(r) && r.n == v.n && r.hwtail == v.hwtail && r.sent == v.sent
  {
    if m == 0 then v else AfterAll(AfterRounds(v, during, m - 1), Round(during, m - 1))
  }

  lemma {:induction false} RoundsOk(v: Rx, during: seq<seq<RxStep>>, m: nat)
    requires RxOk(v)
    ensures RxOk(AfterRounds(v, during, m)) == true && Onward(v, AfterRounds(v, during, m)) == true
  {
    if m > 0 {
      var v1 := AfterRounds(v, during, m - 1);
      RoundsOk(v, during, m - 1);
      StepsOk(v1, Round(during, m - 1));
      OnwardAgain(v, v1, AfterAll(v1, Round(during, m - 1)));
    }
  }

  /** The transmit ring after m slots have gone. */
  ghost function Drained(t: Tx, v: Rx, m: nat): (r: Tx)
    requires TxRange(t) && RxRange(v) && m <= t.n && m <= v.n
    ensures TxRange(r)
  {
    if m == 0 then t.(rtail := t.hwtail)
    else
      var k := At(t.hwcur, m, t.n);
      t.(slots := Swapped(t, v, m), hwcur := k, hwtail := Prev(k, t.n - 1), rtail := Prev(k, t.n - 1))
  }

  /** The receive ring after m slots have come, of a receiver that is in state v. */
  ghost function Supplied(v: Rx, t: Tx, m: nat): (r: Rx)
    requires TxRange(t) && RxRange(v) && m <= t.n && m <= v.n
    ensures RxRange(r)
  {
    Laid(v, t, m).(hwtail := At(v.hwtail, m, v.n), sent := v.sent + Seg(t.slots, t.hwcur, m, t.n))
  }

  lemma DrainRest(t: Tx, v: Rx, m: nat, d: nat)
    requires Fits(t, v, m) && m + d <= t.n
    ensures Seg(Swapped(t, v, m), At(t.hwcur, m, t.n), d, t.n) == Seg(t.slots, At(t.hwcur, m, t.n), d, t.n)
  {
    var k := At(t.hwcur, m, t.n);
    var s, s0 := Seg(Swapped(t, v, m), k, d, t.n), Seg(t.slots, k, d, t.n);
    forall i | 0 <= i < d ensures s[i] == s0[i] {
      AtAt(t.hwcur, m, i, t.n);
      DistAt(t.hwcur, m + i, t.n);
    }
  }

  lemma DrainOrder(hwcur: nat, m: nat, p: nat, n: nat)
    requires hwcur < n && m <= p < n
    ensures Dist(At(hwcur, m, n), At(hwcur, p, n), n) == p - m
    ensures p - m <= Dist(At(hwcur, m, n), Prev(At(hwcur, m, n), n - 1), n)
  {
    DistBetween(hwcur, m, p, n);
  }

  /** The sender keeps the rest. */
  lemma DrainOk(t: Tx, v: Rx, m: nat)
    requires TxOk(t, v.sent) && Fits(t, v, m) && m <= Dist(t.hwcur, t.rhead, t.n)
    ensures TxOk(Drained(t, v, m), v.sent + Seg(t.slots, t.hwcur, m, t.n)) == true
  {
    if m == 0 {
      assert v.sent + Seg(t.slots, t.hwcur, 0, t.n) == v.sent;
    } else {
      var p, k := Dist(t.hwcur, t.rhead, t.n), At(t.hwcur, m, t.n);
      SegSplit(t.slots, t.hwcur, m, p - m, t.n);
      DrainRest(t, v, m, p - m);
      DrainOrder(t.hwcur, m, p, t.n);
      Associate(v.sent, Seg(t.slots, t.hwcur, m, t.n), Seg(t.slots, k, p - m, t.n));
    }
  }

  lemma SupplyOrder(hwcur: nat, rtail: nat, hwtail: nat, m: nat, n: nat)
    requires hwcur < n && rtail < n && hwtail < n && Dist(hwcur, rtail, n) <= Dist(hwcur, hwtail, n)
    requires Dist(hwcur, hwtail, n) + m <= n - 1
    ensures Dist(hwcur, At(hwtail, m, n), n) == Dist(hwcur, hwtail, n) + m
    ensures Dist(rtail, At(hwtail, m, n), n) == Dist(rtail, hwtail, n) + m
  {
    DistAdd(hwcur, rtail, hwtail, n);
    AtAt(hwcur, Dist(hwcur, hwtail, n), m, n);
    DistAt(hwcur, Dist(hwcur, hwtail, n) + m, n);
    AtAt(rtail, Dist(rtail, hwtail, n), m, n);
    DistAt(rtail, Dist(rtail, hwtail, n) + m, n);
  }

  /** The receiver gets them. */
  lemma SupplyOk(v: Rx, t: Tx, m: nat)
    requires RxOk(v) && Fits(t, v, m)
    ensures RxOk(Supplied(v, t, m))
  {
    var w, laid := Dist(v.rtail, v.hwtail, v.n), Laid(v, t, m).slots;
    SupplyOrder(v.hwcur, v.rtail, v.hwtail, m, v.n);
    SupplyWaiting(v, t, m);
    SegSplit(laid, v.rtail, w, m, v.n);
    Associate(v.delivered, Seg(v.slots, v.rtail, w, v.n), Seg(t.slots, t.hwcur, m, t.n));
  }

  lemma Associate(a: seq<Slot>, b: seq<Slot>, c: seq<Slot>)
    ensures a + (b + c) == (a + b) + c
  {
  }

  /** What waits stays, and what is new comes after it. */
  lemma SupplyWaiting(v: Rx, t: Tx, m: nat)
    requires RxOk(v) && Fits(t, v, m)
    ensures var laid, w := Laid(v, t, m).slots, Dist(v.rtail, v.hwtail, v.n);
            && Seg(laid, v.rtail, w, v.n) == Seg(v.slots, v.rtail, w, v.n)
            && Seg(laid, v.hwtail, m, v.n) == Seg(t.slots, t.hwcur, m, t.n)
  {
    var laid, w, n := Laid(v, t, m).slots, Dist(v.rtail, v.hwtail, v.n), v.n;
    DistAdd(v.hwcur, v.rtail, v.hwtail, n);
    forall x | 0 <= x < n && Dist(v.rtail, x, n) < w ensures laid[x] == v.slots[x] {
      DistAdd(v.rtail, x, v.hwtail, n);
    }
    SegKept(v.slots, laid, v.rtail, w, n);
    var a, b := Seg(laid, v.hwtail, m, n), Seg(t.slots, t.hwcur, m, t.n);
    forall i | 0 <= i < m ensures a[i] == b[i] {
      DistAt(v.hwtail, i, n);
    }
  }

  /* ---- the books ---- */

  /** Buffers in the ring and taken out are those before and put in. */
  ghost predicate Account(v: Rx, r: Rx) {
    Bufs(r.slots) + r.taken + v.given == Bufs(v.slots) + v.taken + r.given
  }

  lemma RewriteBooks(v: Rx, i: nat, s: Slot)
    requires i < |v.slots|
    ensures var r := Rewritten(v, i, s); Account(v, r)
  {
    StoreBalances(v.slots, i, s);
  }

  lemma {:induction false} StepsBooks(v: Rx, steps: seq<RxStep>)
    requires RxRange(v)
    ensures Account(v, AfterAll(v, steps))
  {
    if steps != [] {
      var v1, e := AfterAll(v, steps[..|steps| - 1]), steps[|steps| - 1];
      StepsBooks(v, steps[..|steps| - 1]);
      if e.Writes? && MayWrite(v1, e.i) {
        RewriteBooks(v1, e.i, e.slot);
        Chain(v, v1, After(v1, e));
      }
    }
  }

  lemma Chain(v: Rx, v1: Rx, v2: Rx)
    requires Account(v, v1) && Account(v1, v2)
    ensures Account(v, v2)
  {
    var a, a1, a2 := Bufs(v.slots), Bufs(v1.slots), Bufs(v2.slots);
    forall x ensures (a2 + v2.taken + v.given)[x] == (a + v.taken + v2.given)[x] {
      assert (a1 + v1.taken + v.given)[x] == (a + v.taken + v1.given)[x];
      assert (a2 + v2.taken + v1.given)[x] == (a1 + v1.taken + v2.given)[x];
    }
  }

  lemma {:induction false} RoundsBooks(v: Rx, during: seq<seq<RxStep>>, m: nat)
    requires RxRange(v)
    ensures Account(v, AfterRounds(v, during, m))
  {
    if m == 0 {
      NoBooks(v);
    } else {
      var v1 := AfterRounds(v, during, m - 1);
      RoundsBooks(v, during, m - 1);
      StepsBooks(v1, Round(during, m - 1));
      Chain(v, v1, AfterAll(v1, Round(during, m - 1)));
    }
  }

  lemma NoBooks(v: Rx)
    ensures Account(v, v)
  {
  }

  /* ---- runs ---- */

  /** Both ends of a pipe, and all buffers that they had at the start. */
  datatype State = State(t: Tx, v: Rx, initial: multiset<nat>)

  /** What can happen to a pipe.  A send comes with what the receiver does while it runs. */
  datatype Event =
    | SenderWrites(i: nat, slot: Slot)
    | Sends(head: nat, cur: nat, during: seq<seq<RxStep>>)
    | Receiver(step: RxStep)

  /** A bounded FIFO: what was shown, what waits in the receive ring and what waits in the transmit ring.  No buffer is
      lost or doubled: those in the two rings are those at the start, and what the users have put in and taken out. */
  ghost predicate Ok(s: State) {
    && TxOk(s.t, s.v.sent) && RxOk(s.v)
    && Bufs(s.t.slots) + Bufs(s.v.slots) + s.t.taken + s.v.taken == s.initial + s.t.given + s.v.given
  }

  predicate MayFill(t: Tx, i: nat)
    requires TxRange(t)
  {
    i < t.n && Dist(t.hwcur, t.rhead, t.n) <= Dist(t.hwcur, i, t.n) < Dist(t.hwcur, t.rtail, t.n)
  }

  ghost function Stored(t: Tx, i: nat, s: Slot): Tx
    requires i < |t.slots|
  {
    t.(slots := t.slots[i := s], given := t.given + multiset{s.bufIdx}, taken := t.taken + multiset{t.slots[i].bufIdx})
  }

  /** The indices that the sending user has stored are accepted. */
  predicate Accepts(t: Tx, head: nat, cur: nat)
    requires TxRange(t)
  {
    head < t.n && if cur < t.n then InOrder(t.rhead, head, cur, t.rtail, t.n) else t.rtail < t.rhead <= head
  }

  ghost function Submits(t: Tx, head: nat): (r: Tx)
    requires TxRange(t) && head < t.n
    ensures TxRange(r)
  {
    t.(rhead := head, submitted := t.submitted + Seg(t.slots, t.rhead, Dist(t.rhead, head, t.n), t.n))
  }

  /** A txsync with the receiver running all the time: moves as many new slots as fit, oldest first. */
  ghost function Transfer(s: State, during: seq<seq<RxStep>>): (r: State)
    requires TxRange(s.t) && RxRange(s.v)
    ensures TxRange(r.t) && RxRange(r.v)
  {
    var m := Moving(s.t, s.v);
    if m == 0 then s.(t := Drained(s.t, s.v, 0))
    else s.(t := Drained(s.t, s.v, m), v := Supplied(AfterRounds(s.v, during, m + 1), s.t, m))
  }

  predicate Refuses(s: State, e: Event)
    requires TxRange(s.t)
  {
    e.Sends? && !Accepts(s.t, e.head, e.cur)
  }

  ghost function Happened(s: State, e: Event): (r: State)
    requires TxRange(s.t) && RxRange(s.v) && !Refuses(s, e)
    ensures TxRange(r.t) && RxRange(r.v)
  {
    match e
    case SenderWrites(i, sl) => if MayFill(s.t, i) then s.(t := Stored(s.t, i, sl)) else s
    case Sends(h, c, during) => Transfer(s.(t := Submits(s.t, h)), during)
    case Receiver(step) => s.(v := After(s.v, step))
  }

  /** More was submitted, sent and shown, in order. */
  ghost predicate Grows(s: State, s': State) {
    && s.t.submitted <= s'.t.submitted && s.v.sent <= s'.v.sent && s.v.delivered <= s'.v.delivered
    && s'.initial == s.initial
  }

  lemma StoreOk(s: State, i: nat, sl: Slot)
    requires Ok(s) && MayFill(s.t, i)
    ensures Ok(s.(t := Stored(s.t, i, sl)))
  {
    SegKept(s.t.slots, s.t.slots[i := sl], s.t.hwcur, Dist(s.t.hwcur, s.t.rhead, s.t.n), s.t.n);
    StoreBooks(s.t, s.v, i, sl, s.initial);
  }

  lemma StoreBooks(t: Tx, v: Rx, i: nat, sl: Slot, initial: multiset<nat>)
    requires i < |t.slots| && Bufs(t.slots) + Bufs(v.slots) + t.taken + v.taken == initial + t.given + v.given
    ensures var t' := Stored(t, i, sl);
            Bufs(t'.slots) + Bufs(v.slots) + t'.taken + v.taken == initial + t'.given + v.given
  {
    StoreBalances(t.slots, i, sl);
    var a, b, r := Bufs(t.slots), Bufs(v.slots), Stored(t, i, sl);
    forall x ensures (Bufs(r.slots) + b + r.taken + v.taken)[x] == (initial + r.given + v.given)[x] {
      assert (a + b + t.taken + v.taken)[x] == (initial + t.given + v.given)[x];
    }
  }

  lemma HeadInOrder(hwcur: nat, rhead: nat, rtail: nat, head: nat, cur: nat, n: nat)
    requires hwcur < n && rhead < n && rtail < n && head < n && Dist(hwcur, rhead, n) <= Dist(hwcur, rtail, n)
    requires if cur < n then InOrder(rhead, head, cur, rtail, n) else rtail < rhead <= head
    ensures Dist(hwcur, rhead, n) <= Dist(hwcur, head, n) <= Dist(hwcur, rtail, n)
  {
  }

  /** New slots up to head join the queue. */
  lemma SubmitOk(s: State, head: nat, cur: nat)
    requires Ok(s) && Accepts(s.t, head, cur)
    ensures Ok(s.(t := Submits(s.t, head)))
  {
    var t := s.t;
    HeadInOrder(t.hwcur, t.rhead, t.rtail, head, cur, t.n);
    DistAdd(t.hwcur, t.rhead, head, t.n);
    SegSplit(t.slots, t.hwcur, Dist(t.hwcur, t.rhead, t.n), Dist(t.rhead, head, t.n), t.n);
    Associate(s.v.sent, Seg(t.slots, t.hwcur, Dist(t.hwcur, t.rhead, t.n), t.n),
              Seg(t.slots, t.rhead, Dist(t.rhead, head, t.n), t.n));
  }

  /** The exchange keeps the books, whatever the receiver does meanwhile. */
  lemma TransferBooks(t: Tx, v: Rx, w: Rx, m: nat, initial: multiset<nat>)
    requires Fits(t, v, m) && Onward(v, w)
    requires Account(v, w)
    requires Bufs(t.slots) + Bufs(v.slots) + t.taken + v.taken == initial + t.given + v.given
    ensures Bufs(Swapped(t, v, m)) + Bufs(Laid(w, t, m).slots) + t.taken + w.taken == initial + t.given + w.given
  {
    SwappedSame(t, v, w, m);
    SwapConserves(t, w, m);
    var a, b := Bufs(Swapped(t, v, m)), Bufs(Laid(w, t, m).slots);
    forall x ensures (a + b + t.taken + w.taken)[x] == (initial + t.given + w.given)[x] {
      assert (a + b)[x] == (Bufs(t.slots) + Bufs(w.slots))[x];
      assert (Bufs(w.slots) + w.taken + v.given)[x] == (Bufs(v.slots) + v.taken + w.given)[x];
      assert (Bufs(t.slots) + Bufs(v.slots) + t.taken + v.taken)[x] == (initial + t.given + v.given)[x];
    }
  }

  lemma TransferOk(s: State, during: seq<seq<RxStep>>)
    requires Ok(s)
    ensures Ok(Transfer(s, during)) == true && Grows(s, Transfer(s, during))
  {
    var m := Moving(s.t, s.v);
    DrainOk(s.t, s.v, m);
    if m == 0 {
      assert s.v.sent + Seg(s.t.slots, s.t.hwcur, 0, s.t.n) == s.v.sent;
    } else {
      var w := AfterRounds(s.v, during, m + 1);
      RoundsOk(s.v, during, m + 1);
      RoundsBooks(s.v, during, m + 1);
      SupplyOk(w, s.t, m);
      TransferBooks(s.t, s.v, w, m, s.initial);
    }
  }

  /** A send stores only into free slots of the receive ring: all others are as the receiver itself leaves them. */
  lemma OnlyFreeTouched(s: State, during: seq<seq<RxStep>>, x: nat)
    requires Ok(s) && x < s.v.n && Dist(s.v.hwcur, x, s.v.n) < Dist(s.v.hwcur, s.v.hwtail, s.v.n)
    ensures var m := Moving(s.t, s.v);
            Transfer(s, during).v.slots[x] == (if m == 0 then s.v else AfterRounds(s.v, during, m + 1)).slots[x]
  {
    DistAdd(s.v.hwcur, x, s.v.hwtail, s.v.n);
  }

  /** From s to r, the oldest `moved` of the submitted slots have gone, oldest first: all of them, or as many as the receive
      ring had room for.  Then the sender has all other slots of its ring. */
  ghost predicate MovesAllThatFit(s: State, r: State, moved: nat) {
    && TxRange(s.t) && RxRange(s.v) && TxRange(r.t) && RxRange(r.v) && r.t.n == s.t.n && r.v.n == s.v.n
    && r.t.rhead == s.t.rhead && (r.t.hwcur == r.t.rhead || Dist(s.v.hwcur, r.v.hwtail, s.v.n) == s.v.n - 1)
    && moved <= Dist(s.t.hwcur, s.t.rhead, s.t.n) && r.v.sent == s.v.sent + Seg(s.t.slots, s.t.hwcur, moved, s.t.n)
    && Dist(s.t.hwcur, r.t.hwcur, s.t.n) == moved == Dist(s.v.hwtail, r.v.hwtail, s.v.n)
    && r.t.rtail == r.t.hwtail && (0 < moved ==> Dist(r.t.hwcur, r.t.hwtail, s.t.n) == s.t.n - 1)
  }

  lemma TransferMoves(s: State, during: seq<seq<RxStep>>)
    requires Ok(s)
    ensures MovesAllThatFit(s, Transfer(s, during), Moving(s.t, s.v))
  {
    var m := Moving(s.t, s.v);
    DistAt(s.t.hwcur, m, s.t.n);
    DistAt(s.v.hwtail, m, s.v.n);
    SupplyOrder(s.v.hwcur, s.v.hwtail, s.v.hwtail, m, s.v.n);
    assert s.v.sent + Seg(s.t.slots, s.t.hwcur, 0, s.t.n) == s.v.sent;
  }

  lemma ReceiveOk(s: State, step: RxStep)
    requires Ok(s)
    ensures Ok(s.(v := After(s.v, step))) && Grows(s, s.(v := After(s.v, step)))
  {
    var v, w := s.v, After(s.v, step);
    StepOk(v, step);
    assert [step][..0] == [] && AfterAll(v, [step]) == w;
    StepsBooks(v, [step]);
    forall x ensures (Bufs(s.t.slots) + Bufs(w.slots) + s.t.taken + w.taken)[x] == (s.initial + s.t.given + w.given)[x] {
      assert (Bufs(w.slots) + w.taken + v.given)[x] == (Bufs(v.slots) + v.taken + w.given)[x];
      assert (Bufs(s.t.slots) + Bufs(v.slots) + s.t.taken + v.taken)[x] == (s.initial + s.t.given + v.given)[x];
    }
  }

  /** Every event keeps the order of slots and the books. */
  lemma HappenedOk(s: State, e: Event)
    requires Ok(s) && !Refuses(s, e)
    ensures Ok(Happened(s, e)) && Grows(s, Happened(s, e))
  {
    match e
    case SenderWrites(i, sl) => if MayFill(s.t, i) { StoreOk(s, i, sl); }
    case Sends(h, c, during) =>
      SubmitOk(s, h, c);
      TransferOk(s.(t := Submits(s.t, h)), during);
    case Receiver(step) => ReceiveOk(s, step);
  }

  /** A run, up to a refused send. */
  ghost function Played(s: State, script: seq<Event>): (r: (State, bool))
    requires TxRange(s.t) && RxRange(s.v)
    ensures TxRange(r.0.t) && RxRange(r.0.v)
  {
    if script == [] then (s, false)
    else
      var r, e := Played(s, script[..|script| - 1]), script[|script| - 1];
      if r.1 || Refuses(r.0, e) then (r.0, true) else (Happened(r.0, e), false)
  }

  /** The receiver is shown a prefix of what was submitted, and the rest fits the two rings. */
  lemma InOrderAndBounded(s: State)
    requires Ok(s)
    ensures s.v.delivered <= s.v.sent <= s.t.submitted
    ensures |s.v.sent| - |s.v.delivered| <= s.v.n - 1 && |s.t.submitted| - |s.v.sent| <= s.t.n - 1
  {
  }

  /** Every run of two users that respect the ownership of slots: slots come through in order, each once, and no buffer is
      lost or doubled. */
  lemma {:induction false} RunOk(s: State, script: seq<Event>)
    requires Ok(s)
    ensures Ok(Played(s, script).0) && Grows(s, Played(s, script).0)
  {
    if script != [] {
      var r, e := Played(s, script[..|script| - 1]), script[|script| - 1];
      RunOk(s, script[..|script| - 1]);
      if !r.1 && !Refuses(r.0, e) {
        HappenedOk(r.0, e);
      }
    }
  }

  /** The two rings have the buffers of the start exactly if the users have put in what they took out. */
  lemma SameBuffers(s: State)
    requires Ok(s)
    ensures Bufs(s.t.slots) + Bufs(s.v.slots) == s.initial <==> s.t.given + s.v.given == s.t.taken + s.v.taken
  {
    var a, b := Bufs(s.t.slots), Bufs(s.v.slots);
    if a + b == s.initial {
      forall x ensures (s.t.given + s.v.given)[x] == (s.t.taken + s.v.taken)[x] {
        assert (a + b)[x] == s.initial[x];
        assert (a + b + s.t.taken + s.v.taken)[x] == (s.initial + s.t.given + s.v.given)[x];
      }
    }
    if s.t.given + s.v.given == s.t.taken + s.v.taken {
      forall x ensures (a + b)[x] == s.initial[x] {
        assert (s.t.given + s.v.given)[x] == (s.t.taken + s.v.taken)[x];
        assert (a + b + s.t.taken + s.v.taken)[x] == (s.initial + s.t.given + s.v.given)[x];
      }
    }
  }

  /** In every run of users that have put in what they took out, no buffer is in two slots, if that was so at the start. */
  lemma NoBufferTwice(s: State, script: seq<Event>, count: nat)
    requires Ok(s) && Owned(s.initial, count)
    ensures var r := Played(s, script).0;
            r.t.given + r.v.given == r.t.taken + r.v.taken ==> Owned(Bufs(r.t.slots) + Bufs(r.v.slots), count)
  {
    RunOk(s, script);
    SameBuffers(Played(s, script).0);
  }

  class PipeRings {
    const t: Kring
    const r: Kring
    const tslots: array<Slot>
    const rslots: array<Slot>
    /** All slots that the sending user has submitted, those that were moved to the receive ring, and those that the
        receiving user was shown, each as it was at that time. */
    ghost var submitted: seq<Slot>
    ghost var sent: seq<Slot>
    ghost var delivered: seq<Slot>
    /** The buffers at the start, and those that the users have put in and taken out. */
    ghost const initial: multiset<nat>
    ghost var txGiven: multiset<nat>
    ghost var txTaken: multiset<nat>
    ghost var rxGiven: multiset<nat>
    ghost var rxTaken: multiset<nat>

    ghost predicate Shape() {
      t != r && tslots != rslots && tslots.Length == t.n && rslots.Length == r.n && 2 <= t.n && 2 <= r.n
    }

    ghost function TxView(): Tx
      reads this`submitted, this`txGiven, this`txTaken, t, tslots
    {
      Tx(t.n, t.hwcur, t.hwtail, t.rhead, t.rtail, tslots[..], submitted, txGiven, txTaken)
    }

    ghost function RxView(): Rx
      reads this`sent, this`delivered, this`rxGiven, this`rxTaken, r, rslots
    {
      Rx(r.n, r.hwcur, r.hwtail, r.rhead, r.rtail, r.head, r.cur, rslots[..], sent, delivered, rxGiven, rxTaken)
    }

    ghost function Abs(): State
      reads this, t, r, tslots, rslots
    {
      State(TxView(), RxView(), initial)
    }

    ghost predicate Valid()
      reads this, t, r, tslots, rslots
    {
      Shape() && Ok(Abs())
    }

    constructor (tbufs: seq<Slot>, rbufs: seq<Slot>)
      requires 2 <= |tbufs| && 2 <= |rbufs|
      ensures Valid() && submitted == sent == delivered == [] && tslots[..] == tbufs && rslots[..] == rbufs
      ensures initial == Bufs(tbufs) + Bufs(rbufs)
      ensures fresh(t) && fresh(r) && fresh(tslots) && fresh(rslots)
    {
      t := new Kring.Tx(|tbufs|);
      r := new Kring.Rx(|rbufs|);
      tslots := new Slot[|tbufs|](i requires 0 <= i < |tbufs| => tbufs[i]);
      rslots := new Slot[|rbufs|](i requires 0 <= i < |rbufs| => rbufs[i]);
      submitted, sent, delivered := [], [], [];
      initial := Bufs(tbufs) + Bufs(rbufs);
      txGiven, txTaken, rxGiven, rxTaken := multiset{}, multiset{}, multiset{}, multiset{};
      new;
      assert tslots[..] == tbufs && rslots[..] == rbufs;
    }

    /* ---- the receiver ---- */

    /** The receiving user rewrites a slot that it was shown. */
    method WriteRx(i: nat, s: Slot)
      requires Shape() && RxRange(RxView()) && MayWrite(RxView(), i)
      modifies this`rxGiven, this`rxTaken, rslots
      ensures RxView() == After(old(RxView()), Writes(i, s))
    {
      rxGiven, rxTaken := rxGiven + multiset{s.bufIdx}, rxTaken + multiset{rslots[i].bufIdx};
      rslots[i] := s;
      assert rslots[..] == old(rslots[..])[i := s];
    }

    /** The receiving user advances head and cur. */
    method MoveRx(head: nat, cur: nat)
      requires Shape() && RxRange(RxView()) && MayRelease(RxView(), head, cur)
      modifies r`head, r`cur
      ensures RxView() == After(old(RxView()), Releases(head, cur))
    {
      r.head, r.cur := head, cur;
    }

    /** netmap_pipe_rxsync, first step: the slots that the user had released at the previous sync are recovered. */
    method Recover()
      requires RxRange(RxView())
      modifies r`hwcur
      ensures RxView() == After(old(RxView()), Recovers)
    {
      r.hwcur := r.rhead;
    }

    /** netmap_pipe_rxsync, second step: the user is shown what has arrived. */
    method Show()
      requires RxRange(RxView())
      modifies this`delivered, r`rtail, r`tail, r`rhead, r`rcur
      ensures RxView() == After(old(RxView()), Shows) && r.tail == r.hwtail
    {
      delivered := sent;
      r.RxSyncFinalize();
    }

    /** netmap_pipe_rxsync, undisturbed. */
    method RxSync()
      requires Valid()
      modifies this`delivered, r`hwcur, r`rtail, r`tail, r`rhead, r`rcur
      ensures Valid() && r.hwcur == old(r.rhead) && r.rtail == r.tail == r.hwtail && delivered == sent
      ensures r.rhead == r.head && old(delivered) <= delivered
    {
      ghost var s := Abs();
      ReceiveOk(s, Recovers);
      ReceiveOk(s.(v := After(s.v, Recovers)), Shows);
      Recover();
      Show();
    }

    /** One step of a receiver that respects the ownership of slots. */
    method Step(e: RxStep)
      requires Shape() && RxRange(RxView())
      modifies this`delivered, this`rxGiven, this`rxTaken
      modifies r`hwcur, r`rtail, r`tail, r`rhead, r`rcur, r`head, r`cur, rslots
      ensures RxView() == After(old(RxView()), e)
    {
      match e
      case Writes(i, s) =>
        if i < r.n && Dist(r.hwcur, i, r.n) < Dist(r.hwcur, r.rtail, r.n) { WriteRx(i, s); }
      case Releases(h, c) =>
        if h < r.n && c < r.n && Dist(r.hwcur, r.rhead, r.n) <= Dist(r.hwcur, h, r.n)
           <= Dist(r.hwcur, c, r.n) <= Dist(r.hwcur, r.rtail, r.n) { MoveRx(h, c); }
      case Recovers => Recover();
      case Shows => Show();
    }

    /** The receiver runs for a while. */
    method Others(steps: seq<RxStep>)
      requires Shape() && RxRange(RxView())
      modifies this`delivered, this`rxGiven, this`rxTaken
      modifies r`hwcur, r`rtail, r`tail, r`rhead, r`rcur, r`head, r`cur, rslots
      ensures RxView() == AfterAll(old(RxView()), steps)
    {
      for i := 0 to |steps|
        invariant RxView() == AfterAll(old(RxView()), steps[..i])
      {
        assert steps[..i + 1][..i] == steps[..i];
        Step(steps[i]);
      }
      assert steps[..|steps|] == steps;
    }

    /* ---- the sender ---- */

    /** How many slots netmap_pipe_txsync moves. */
    method Limit() returns (limit: nat)
      requires Shape() && TxRange(TxView()) && RxRange(RxView())
      ensures limit == Moving(TxView(), RxView())
      ensures limit <= Dist(t.hwcur, t.rhead, t.n) && limit + Dist(r.hwcur, r.hwtail, r.n) <= r.n - 1
      ensures limit == Dist(t.hwcur, t.rhead, t.n) || limit + Dist(r.hwcur, r.hwtail, r.n) == r.n - 1
    {
      var m := t.rhead - t.hwcur;
      if m < 0 { m := m + t.n; }
      limit := m;
      m := r.n - 1;
      var busy := r.hwtail - r.hwcur;
      if busy < 0 { busy := busy + r.n; }
      m := m - busy;
      if m < limit { limit := m; }
    }

    /** c of m slots have been exchanged, of a sender that was in state t0 with a receiver that is in state v; the loop has
        reached j and k. */
    ghost predicate Turning(t0: Tx, v: Rx, m: nat, c: nat, j: nat, k: nat)
      reads this, t, r, tslots, rslots
    {
      && RxOk(v) && Fits(t0, v, m) && c <= m && Shape() && j == At(v.hwtail, c, v.n) && k == At(t0.hwcur, c, t0.n)
      && TxView() == t0.(slots := Swapped(t0, v, c)) && RxView() == Laid(v, t0, c)
    }

    /** The body of the loop of netmap_pipe_txsync. */
    method Swap(j: nat, k: nat, ghost t0: Tx, ghost v: Rx, ghost m: nat, ghost c: nat)
      requires Turning(t0, v, m, c, j, k) && c < m
      modifies tslots, rslots
      ensures Turning(t0, v, m, c + 1, Ring.Next(j, r.n - 1), Ring.Next(k, t.n - 1))
    {
      SwapOne(t0, v, c, j, k);
      NextAt(v.hwtail, c, v.n);
      NextAt(t0.hwcur, c, t0.n);
      ghost var ts, rs := tslots[..], rslots[..];
      tslots[k], rslots[j] := rslots[j], tslots[k];
      assert tslots[..] == ts[k := rs[j]] && rslots[..] == rs[j := ts[k]];
    }

    /** The receiver does not disturb the exchange. */
    method Pause(steps: seq<RxStep>, ghost t0: Tx, ghost v: Rx, ghost m: nat, ghost c: nat, ghost j: nat, ghost k: nat)
      requires Turning(t0, v, m, c, j, k)
      modifies this`delivered, this`rxGiven, this`rxTaken
      modifies r`hwcur, r`rtail, r`tail, r`rhead, r`rcur, r`head, r`cur, rslots
      ensures Turning(t0, AfterAll(v, steps), m, c, j, k)
    {
      LaidSteps(v, t0, c, steps);
      StepsOk(v, steps);
      SwappedSame(t0, v, AfterAll(v, steps), m);
      SwappedSame(t0, v, AfterAll(v, steps), c);
      Others(steps);
    }

    /** One turn of the loop. */
    method Turn(j: nat, k: nat, during: seq<seq<RxStep>>, c: nat, ghost t0: Tx, ghost v0: Rx, ghost m: nat)
      returns (j': nat, k': nat)
      requires RxRange(v0) && Turning(t0, AfterRounds(v0, during, c), m, c, j, k) && c < m
      modifies this`delivered, this`rxGiven, this`rxTaken
      modifies r`hwcur, r`rtail, r`tail, r`rhead, r`rcur, r`head, r`cur, tslots, rslots
      ensures Turning(t0, AfterRounds(v0, during, c + 1), m, c + 1, j', k')
    {
      ghost var v := AfterRounds(v0, during, c);
      Pause(Round(during, c), t0, v, m, c, j, k);
      Swap(j, k, t0, AfterAll(v, Round(during, c)), m, c);
      j', k' := Ring.Next(j, r.n - 1), Ring.Next(k, t.n - 1);
    }

    /** The loop of netmap_pipe_txsync, with the receiver running all the time. */
    method SwapLoop(limit: nat, during: seq<seq<RxStep>>, ghost t0: Tx, ghost v0: Rx) returns (j: nat, k: nat)
      requires Turning(t0, v0, limit, 0, r.hwtail, t.hwcur)
      modifies this`delivered, this`rxGiven, this`rxTaken
      modifies r`hwcur, r`rtail, r`tail, r`rhead, r`rcur, r`head, r`cur, tslots, rslots
      ensures Turning(t0, AfterRounds(v0, during, limit + 1), limit, limit, j, k) == true
    {
      j, k := r.hwtail, t.hwcur;
      var c := 0;
      while c < limit
        invariant c <= limit && Turning(t0, AfterRounds(v0, during, c), limit, c, j, k) == true
      {
        j, k := Turn(j, k, during, c, t0, v0, limit);
        c := c + 1;
      }
      Pause(Round(during, c), t0, AfterRounds(v0, during, c), limit, c, j, k);
    }

    /** The end of netmap_pipe_txsync, after m slots have been exchanged. */
    method Publish(j: nat, k: nat, ghost t0: Tx, ghost v: Rx, ghost m: nat)
      requires Turning(t0, v, m, m, j, k) && 0 < m
      modifies this`sent, t`hwcur, t`hwtail, t`rtail, t`tail, r`hwtail
      ensures TxView() == Drained(t0, v, m) && RxView() == Supplied(v, t0, m)
    {
      sent := sent + Seg(t0.slots, t0.hwcur, m, t0.n);
      r.hwtail := j;
      t.hwcur := k;
      t.hwtail := Prev(k, t.n - 1);
      t.TxSyncFinalize();
    }

    /** The part of netmap_pipe_txsync that moves slots. */
    method Exchange(limit: nat, during: seq<seq<RxStep>>, ghost s: State)
      requires Valid() && s == Abs() && limit == Moving(s.t, s.v) && 0 < limit
      modifies this`sent, this`delivered, this`rxGiven, this`rxTaken, t`hwcur, t`hwtail, t`rtail, t`tail, tslots
      modifies r`hwcur, r`hwtail, r`rtail, r`tail, r`rhead, r`rcur, r`head, r`cur, rslots
      ensures TxView() == Drained(s.t, s.v, limit)
      ensures RxView() == Supplied(AfterRounds(s.v, during, limit + 1), s.t, limit)
    {
      SwapNone(s.t, s.v);
      var j, k := SwapLoop(limit, during, s.t, s.v);
      ghost var w := AfterRounds(s.v, during, limit + 1);
      RoundsOk(s.v, during, limit + 1);
      SwappedSame(s.t, s.v, w, limit);
      Publish(j, k, s.t, w, limit);
    }

    /** The body of netmap_pipe_txsync. */
    method MoveSlots(during: seq<seq<RxStep>>, ghost s: State) returns (moved: nat)
      requires Valid() && s == Abs()
      modifies this`sent, this`delivered, this`rxGiven, this`rxTaken, t`hwcur, t`hwtail, t`rtail, t`tail, tslots
      modifies r`hwcur, r`hwtail, r`rtail, r`tail, r`rhead, r`rcur, r`head, r`cur, rslots
      ensures Abs() == Transfer(s, during) && moved == Moving(s.t, s.v)
    {
      moved := Limit();
      if moved == 0 {
        t.TxSyncFinalize();
      } else {
        Exchange(moved, during, s);
      }
    }

    /** netmap_pipe_txsync, with the receiver running all the time: moves as many new slots as fit, oldest first. */
    method TxSync(during: seq<seq<RxStep>>) returns (moved: nat)
      requires Valid()
      modifies this`sent, this`delivered, this`rxGiven, this`rxTaken, t`hwcur, t`hwtail, t`rtail, t`tail, tslots
      modifies r`hwcur, r`hwtail, r`rtail, r`tail, r`rhead, r`rcur, r`head, r`cur, rslots
      ensures Valid() == true && Abs() == Transfer(old(Abs()), during)
      ensures MovesAllThatFit(old(Abs()), Abs(), moved) == true
    {
      ghost var s := Abs();
      TransferOk(s, during);
      TransferMoves(s, during);
      moved := MoveSlots(during, s);
    }

    /** The sending user stores indices and the kernel looks at them. */
    method Accept(head: nat, cur: nat) returns (ok: bool)
      requires Valid()
      modifies this`submitted, t`head, t`cur, t`rhead, t`rcur, t`tail
      ensures ok == old(Accepts(TxView(), head, cur))
      ensures if ok then Valid() && Abs() == old(Abs()).(t := Submits(old(TxView()), head))
              else submitted == old(submitted)
    {
      ghost var s := Abs();
      t.head, t.cur := head, cur;
      var h := t.TxSyncPrologue();
      ok := h < t.n;
      if ok {
        SubmitOk(s, head, cur);
        submitted := submitted + Seg(tslots[..], s.t.rhead, Dist(s.t.rhead, head, t.n), t.n);
      }
    }

    /** The sending user stores any indices and calls txsync. */
    method Send(head: nat, cur: nat, during: seq<seq<RxStep>>) returns (ok: bool)
      requires Valid()
      modifies this, t, tslots, r`hwcur, r`hwtail, r`rtail, r`tail, r`rhead, r`rcur, r`head, r`cur, rslots
      ensures ok == old(Accepts(TxView(), head, cur))
      ensures if ok then Valid() && Abs() == Happened(old(Abs()), Sends(head, cur, during))
              else submitted == old(submitted) && tslots[..] == old(tslots[..]) && RxView() == old(RxView())
    {
      ok := Accept(head, cur);
      if ok {
        var moved := TxSync(during);
      }
    }

    /** The sending user fills a slot that it has not submitted. */
    method WriteTx(i: nat, s: Slot)
      requires Valid() && MayFill(TxView(), i)
      modifies this`txGiven, this`txTaken, tslots
      ensures Valid() && Abs() == old(Abs()).(t := Stored(old(TxView()), i, s))
    {
      StoreOk(Abs(), i, s);
      txGiven, txTaken := txGiven + multiset{s.bufIdx}, txTaken + multiset{tslots[i].bufIdx};
      tslots[i] := s;
      assert tslots[..] == old(tslots[..])[i := s];
    }

    /** One event of a run. */
    method Happen(e: Event) returns (ok: bool)
      requires Valid()
      modifies this, t, r, tslots, rslots
      ensures ok == old(!Refuses(Abs(), e))
      ensures if ok then Valid() == true && Abs() == Happened(old(Abs()), e)
              else submitted == old(submitted) && tslots[..] == old(tslots[..]) && RxView() == old(RxView())
    {
      ok := true;
      match e
      case SenderWrites(i, s) =>
        if i < t.n && Dist(t.hwcur, t.rhead, t.n) <= Dist(t.hwcur, i, t.n) < Dist(t.hwcur, t.rtail, t.n) { WriteTx(i, s); }
      case Sends(h, c, during) => ok := Send(h, c, during);
      case Receiver(step) =>
        ReceiveOk(Abs(), step);
        Step(step);
    }

    /** Every run of two users that respect the ownership of slots, up to a refused send; the steps of the receiver come
        between those of the sender and within them. */
    method Run(script: seq<Event>) returns (refused: bool)
      requires Valid()
      modifies this, t, r, tslots, rslots
      ensures refused == Played(old(Abs()), script).1
      ensures var s := Played(old(Abs()), script).0;
              if refused then submitted == s.t.submitted && tslots[..] == s.t.slots && RxView() == s.v
              else Valid() == true && Abs() == s
    {
      refused := false;
      for i := 0 to |script|
        invariant if refused then Played(old(Abs()), script[..i]).1
                      && submitted == Played(old(Abs()), script[..i]).0.t.submitted
                      && tslots[..] == Played(old(Abs()), script[..i]).0.t.slots
                      && RxView() == Played(old(Abs()), script[..i]).0.v
                  else Valid() == true && Played(old(Abs()), script[..i]) == (Abs(), false)
      {
        assert script[..i + 1][..i] == script[..i];
        if !refused {
          var ok := Happen(script[i]);
          refused := !ok;
        }
      }
      assert script[..|script|] == script;
    }
  }
}
