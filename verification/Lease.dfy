/** The VALE lease protocol on a receive ring.

    Many writers reserve consecutive blocks of the ring under the queue lock, copy packets
    into them without the lock, and report completion in any order; the blocks must reach
    the reader in reservation order.  A step is what one party does under the lock (or one
    slot stored without it), so any interleaving of writers and reader is a sequence of steps. */
module Lease {
  import opened Ring
  import opened KringModel

  /** NR_NOSLOT: the writer has not reported yet. */
  const NOSLOT: nat := 0xFFFF_FFFF

  /** The fields of the kring that the protocol uses, with the slot array of the ring. */
  datatype Fields = Fields(n: nat, hwcur: nat, rtail: nat, hwtail: nat, hwlease: nat, leaseIdx: nat,
                           leases: seq<nat>, slots: seq<Slot>)

  /** Local variables of a writer between reserve and complete. */
  datatype Writer = Writer(leaseIdx: nat, myStart: nat, j: nat, howmany: nat)

  predicate Sized(k: Fields) {
    && 0 < k.n < NOSLOT && |k.leases| == |k.slots| == k.n
    && k.hwcur < k.n && k.rtail < k.n && k.hwtail < k.n && k.hwlease < k.n && k.leaseIdx < k.n
  }

  /** nm_kr_space on a receive ring. */
  function Space(k: Fields): int {
    var busy := k.hwlease - k.hwcur;
    k.n - 1 - (if busy < 0 then busy + k.n else busy)
  }

  /* ---- the steps, as functions of the fields ---- */

  function Granted(k: Fields, needed: nat): (g: nat)
    requires Sized(k)
  {
    if needed < Space(k) then needed else Space(k)
  }

  /** As many slots as are asked for, or all that are not busy: one slot always stays free. */
  lemma GrantedExactly(k: Fields, needed: nat)
    requires Sized(k)
    ensures Granted(k, needed) <= needed && Dist(k.hwcur, k.hwlease, k.n) + Granted(k, needed) <= k.n - 1
    ensures Granted(k, needed) == needed || Dist(k.hwcur, k.hwlease, k.n) + Granted(k, needed) == k.n - 1
  {
  }

  /** Reserve under the lock: nm_kr_space, the clamp to `needed`, and nm_kr_lease. */
  function Reserved(k: Fields, needed: nat): Fields
    requires Sized(k)
  {
    k.(leases := k.leases[k.leaseIdx := NOSLOT], leaseIdx := Next(k.leaseIdx, k.n - 1),
       hwlease := At(k.hwlease, Granted(k, needed), k.n))
  }

  function ReservedWriter(k: Fields, needed: nat): Writer
    requires Sized(k)
  {
    Writer(k.leaseIdx, k.hwlease, k.hwlease, Granted(k, needed))
  }

  function Blank(s: Slot): Slot {
    s.(len := 0, flags := 0)
  }

  /** `count` empty packets from index j on. */
  function Blanked(slots: seq<Slot>, j: nat, count: nat): (r: seq<Slot>)
    requires j < |slots|
    ensures |r| == |slots|
    ensures forall i :: 0 <= i < |slots| ==> r[i] == if Dist(j, i, |slots|) < count then Blank(slots[i]) else slots[i]
  {
    seq(|slots|, i requires 0 <= i < |slots| => if Dist(j, i, |slots|) < count then Blank(slots[i]) else slots[i])
  }

  /** Result of scanning the reports from index i: reports left, first index not consumed, position reached. */
  function Scan(leases: seq<nat>, i: nat, stop: nat, j: nat): (r: (seq<nat>, nat))
    requires i < |leases| && stop < |leases|
    ensures |r.0| == |leases|
    decreases Dist(i, stop, |leases|)
  {
    if i == stop || leases[i] == NOSLOT then (leases, j)
    else Scan(leases[i := NOSLOT], Next(i, |leases| - 1), stop, leases[i])
  }

  /** Completion, first half: leftover slots are given back by the last writer and blanked by others. */
  function Settled(k: Fields, w: Writer): Fields
    requires Sized(k) && w.leaseIdx < k.n && w.j < k.n && w.howmany <= k.n
  {
    if w.howmany == 0 then k
    else if Next(w.leaseIdx, k.n - 1) == k.leaseIdx then k.(hwlease := w.j)
    else k.(slots := Blanked(k.slots, w.j, w.howmany))
  }

  /** What a writer does not use: the last one gives it back, any other leaves empty packets there, and nothing else changes. */
  lemma SettledSays(k: Fields, w: Writer, i: nat)
    requires Sized(k) && w.leaseIdx < k.n && w.j < k.n && w.howmany <= k.n && i < k.n
    ensures var r, last := Settled(k, w), Next(w.leaseIdx, k.n - 1) == k.leaseIdx;
            && r.hwlease == (if 0 < w.howmany && last then w.j else k.hwlease)
            && r.slots[i].bufIdx == k.slots[i].bufIdx
            && (if Dist(w.j, i, k.n) < w.howmany && !last then r.slots[i].len == 0 && r.slots[i].flags == 0
                else r.slots[i] == k.slots[i])
            && r == k.(hwlease := r.hwlease, slots := r.slots)
  {
  }

  function EndOf(k: Fields, w: Writer): nat
    requires Sized(k) && w.leaseIdx < k.n && w.j < k.n && w.howmany <= k.n
  {
    if w.howmany == 0 || Next(w.leaseIdx, k.n - 1) == k.leaseIdx then w.j else At(w.j, w.howmany, k.n)
  }

  /** Completion, second half: report the end, and publish if everything before was reported. */
  function Reported(k: Fields, w: Writer, end: nat): Fields
    requires Sized(k) && w.leaseIdx < k.n && end < k.n
  {
    var p := k.leases[w.leaseIdx := end];
    if w.myStart != k.hwtail then k.(leases := p)
    else
      var (q, j) := Scan(p, w.leaseIdx, k.leaseIdx, end);
      k.(leases := q, hwtail := if j != w.myStart then j else k.hwtail)
  }

  function Completed(k: Fields, w: Writer): Fields
    requires Sized(k) && w.leaseIdx < k.n && w.j < k.n && w.howmany <= k.n
  {
    Reported(Settled(k, w), w, EndOf(k, w))
  }

  /** One slot stored by a writer, without the lock. */
  function Stored(k: Fields, w: Writer, s: Slot): Fields
    requires Sized(k) && w.j < k.n
  {
    k.(slots := k.slots[w.j := s])
  }

  function StoredWriter(k: Fields, w: Writer): Writer
    requires 0 < k.n && 0 < w.howmany
  {
    w.(j := Next(w.j, k.n - 1), howmany := w.howmany - 1)
  }

  /* ---- the protocol seen from outside ---- */

  /** Held: between reserve and complete.  Done: completed, its report still stored.
      Out: its report has been consumed. */
  datatype Status = Held | Done | Out

  /** A ticket whose writer has filled `used` slots. */
  datatype Ticket = Ticket(used: nat, status: Status)

  /** History of a run: absolute positions of hwcur and rtail; all tickets ever issued;
      ticket t covers the absolute positions from bounds[t] up to bounds[t + 1], whose indices are
      at[t] and at[t + 1], so that the last bound is hwlease; tickets from `base` on are not published,
      so that bounds[base] is hwtail; the slot last stored at each absolute position ever reserved. */
  datatype History = History(aCur: nat, aSeen: nat, hist: seq<Ticket>, bounds: seq<nat>, at: seq<nat>,
                             base: nat, log: seq<Slot>)

  /** At most n - 1 slots are busy. */
  ghost predicate Shaped(g: History, n: nat) {
    && |g.bounds| == |g.at| == |g.hist| + 1 && g.base <= |g.hist| && |g.log| == g.bounds[|g.hist|]
    && g.aCur <= g.aSeen <= g.bounds[g.base] <= |g.log| < g.aCur + n
  }

  /** The index of an absolute position in the busy part of the ring. */
  function Ix(hwcur: nat, aCur: nat, n: nat, a: nat): nat {
    if hwcur < n && aCur <= a <= aCur + n then At(hwcur, a - aCur, n) else 0
  }

  ghost predicate Indexed(k: Fields, g: History)
    requires Shaped(g, k.n)
  {
    k.rtail == Ix(k.hwcur, g.aCur, k.n, g.aSeen) && k.hwtail == g.at[g.base] && k.hwlease == g.at[|g.hist|]
  }

  /** A writer fills at most its block. */
  ghost predicate Tiled(hist: seq<Ticket>, bounds: seq<nat>)
    requires |bounds| == |hist| + 1
  {
    forall t {:trigger hist[t]} :: 0 <= t < |hist| ==> bounds[t] + hist[t].used <= bounds[t + 1]
  }

  /** The first unpublished ticket is held, and a ticket passed by hwtail without having been
      consumed covers no slot. */
  ghost predicate Ticketed(hist: seq<Ticket>, bounds: seq<nat>, base: nat)
    requires |bounds| == |hist| + 1 && base <= |hist|
  {
    && (base < |hist| ==> hist[base].status == Held)
    && (0 < base ==> hist[base - 1].status == Out)
    && (forall t {:trigger hist[t]} :: 0 <= t < base ==> hist[t].status == Out || bounds[t] == bounds[t + 1])
    && (forall t {:trigger hist[t]} :: base <= t < |hist| ==> hist[t].status != Out)
  }

  /** A ticket that is held or not published is younger than n tickets. */
  ghost predicate Young(hist: seq<Ticket>, base: nat, n: nat) {
    forall t {:trigger hist[t]} :: 0 <= t < |hist| && (base <= t || hist[t].status == Held) ==> |hist| - t < n
  }

  /** Bounds that are not behind hwtail have the right index, and empty tickets end where they start. */
  ghost predicate Located(hwcur: nat, aCur: nat, n: nat, bounds: seq<nat>, at: seq<nat>, base: nat)
    requires |bounds| == |at|
  {
    && (forall t {:trigger at[t]} :: 0 <= t < |at| ==> at[t] < n)
    && (forall t {:trigger at[t]} :: base <= t < |at| ==> at[t] == Ix(hwcur, aCur, n, bounds[t]))
    && (forall t, u {:trigger at[t], at[u]} :: 0 <= t < |at| - 1 && u == t + 1 && bounds[t] == bounds[u] ==> at[t] == at[u])
  }

  /** The last n reports are stored. */
  ghost predicate Reports(leases: seq<nat>, leaseIdx: nat, hist: seq<Ticket>, at: seq<nat>)
    requires leaseIdx < |leases| && |at| == |hist| + 1
  {
    forall t {:trigger hist[t]} :: 0 <= t < |hist| && |hist| - t <= |leases| ==>
      leases[Back(leaseIdx, |hist| - t, |leases|)] == if hist[t].status == Done then at[t + 1] else NOSLOT
  }

  /** The slots not yet shown to the user hold the log. */
  ghost predicate Mirrored(slots: seq<Slot>, hwcur: nat, aCur: nat, aSeen: nat, log: seq<Slot>)
    requires hwcur < |slots| && aCur <= aSeen && |log| <= aCur + |slots|
  {
    forall a {:trigger log[a]} :: aSeen <= a < |log| ==> slots[At(hwcur, a - aCur, |slots|)] == log[a]
  }

  /** The invariant.  (Comparing with true makes it one proof obligation instead of one per conjunct.) */
  ghost predicate Inv(k: Fields, g: History) {
    (&& Sized(k) && Shaped(g, k.n) && Indexed(k, g)
     && Tiled(g.hist, g.bounds) && Ticketed(g.hist, g.bounds, g.base) && Young(g.hist, g.base, k.n)
     && Located(k.hwcur, g.aCur, k.n, g.bounds, g.at, g.base)
     && Reports(k.leases, k.leaseIdx, g.hist, g.at) && Mirrored(k.slots, k.hwcur, g.aCur, g.aSeen, g.log)) == true
  }

  /** The local variables of the writer that holds ticket t. */
  ghost predicate Holds(k: Fields, g: History, t: nat, w: Writer)
    requires Sized(k) && Shaped(g, k.n)
  {
    && t < |g.hist| && g.hist[t].status == Held && |g.hist| - t < k.n
    && w.leaseIdx == Back(k.leaseIdx, |g.hist| - t, k.n) && w.myStart == g.at[t]
    && g.bounds[t] + g.hist[t].used + w.howmany == g.bounds[t + 1]
    && w.j == if w.howmany == 0 then g.at[t + 1] else Ix(k.hwcur, g.aCur, k.n, g.bounds[t] + g.hist[t].used)
  }

  /** Fewer than n leases may be issued while one is held or unpublished. */
  ghost predicate MayIssue(g: History, n: nat) {
    1 < n && forall t {:trigger g.hist[t]} ::
               0 <= t < |g.hist| && (g.base <= t || g.hist[t].status == Held) ==> |g.hist| + 1 - t < n
  }

  lemma {:induction false} Monotone(hist: seq<Ticket>, bounds: seq<nat>, t: nat, u: nat)
    requires |bounds| == |hist| + 1 && Tiled(hist, bounds) && t <= u <= |hist|
    ensures bounds[t] <= bounds[u]
    decreases u - t
  {
    if t < u {
      Monotone(hist, bounds, t + 1, u);
      assert hist[t].used >= 0;
    }
  }

  /** The block of an unpublished ticket lies in [hwtail, hwlease). */
  lemma BlockIsBusy(g: History, n: nat, t: nat)
    requires Shaped(g, n) && Tiled(g.hist, g.bounds) && g.base <= t < |g.hist|
    ensures g.aSeen <= g.bounds[g.base] <= g.bounds[t] <= g.bounds[t + 1] <= |g.log|
  {
    Monotone(g.hist, g.bounds, g.base, t);
    Monotone(g.hist, g.bounds, t, t + 1);
    Monotone(g.hist, g.bounds, t + 1, |g.hist|);
  }

  /* ---- reserve ---- */

  /** The next m slots to reserve. */
  function Ahead(k: Fields, m: nat): (s: seq<Slot>)
    requires Sized(k) && m <= k.n
    ensures |s| == m && forall i :: 0 <= i < m ==> s[i] == k.slots[At(k.hwlease, i, k.n)]
  {
    seq(m, i requires 0 <= i < m => k.slots[At(k.hwlease, i, k.n)])
  }

  ghost function AfterReserve(k: Fields, g: History, needed: nat): History
    requires Sized(k)
  {
    var m := Granted(k, needed);
    g.(hist := g.hist + [Ticket(0, Held)], bounds := g.bounds + [|g.log| + m], at := g.at + [At(k.hwlease, m, k.n)],
       log := g.log + Ahead(k, m))
  }

  lemma ReserveReports(leases: seq<nat>, idx: nat, hist: seq<Ticket>, at: seq<nat>, end: nat)
    requires idx < |leases| && |at| == |hist| + 1 && Reports(leases, idx, hist, at)
    ensures Reports(leases[idx := NOSLOT], Next(idx, |leases| - 1), hist + [Ticket(0, Held)], at + [end])
  {
  }

  lemma ReserveShape(k: Fields, g: History, needed: nat)
    requires Inv(k, g)
    ensures Granted(k, needed) == if needed < k.n - 1 - (|g.log| - g.aCur) then needed else k.n - 1 - (|g.log| - g.aCur)
    ensures Sized(Reserved(k, needed)) && Shaped(AfterReserve(k, g, needed), k.n)
    ensures Indexed(Reserved(k, needed), AfterReserve(k, g, needed))
  {
    assert k.hwlease == g.at[|g.hist|] == At(k.hwcur, |g.log| - g.aCur, k.n);
  }

  lemma ReserveMirror(slots: seq<Slot>, hwcur: nat, aCur: nat, aSeen: nat, log: seq<Slot>, more: seq<Slot>)
    requires hwcur < |slots| && aCur <= aSeen && aCur <= |log| && |log| + |more| <= aCur + |slots|
    requires Mirrored(slots, hwcur, aCur, aSeen, log)
    requires forall i :: 0 <= i < |more| ==> more[i] == slots[At(At(hwcur, |log| - aCur, |slots|), i, |slots|)]
    ensures Mirrored(slots, hwcur, aCur, aSeen, log + more)
  {
    forall a | aSeen <= a < |log + more|
      ensures slots[At(hwcur, a - aCur, |slots|)] == (log + more)[a]
    {
      if |log| <= a {
        assert (log + more)[a] == more[a - |log|];
      }
    }
  }

  lemma ReserveTickets(hist: seq<Ticket>, bounds: seq<nat>, base: nat, n: nat, x: nat)
    requires |bounds| == |hist| + 1 && base <= |hist| && bounds[|hist|] <= x
    requires Tiled(hist, bounds) && Ticketed(hist, bounds, base)
    requires 1 < n && forall t {:trigger hist[t]} :: 0 <= t < |hist| && (base <= t || hist[t].status == Held) ==> |hist| + 1 - t < n
    ensures var h, b := hist + [Ticket(0, Held)], bounds + [x];
            Tiled(h, b) && Ticketed(h, b, base) && Young(h, base, n)
  {
  }

  lemma ReserveLocated(hwcur: nat, aCur: nat, n: nat, bounds: seq<nat>, at: seq<nat>, base: nat, m: nat, x: nat, end: nat)
    requires |bounds| == |at| && 0 < |at| && base < |at| && hwcur < n && Located(hwcur, aCur, n, bounds, at, base)
    requires aCur <= bounds[|at| - 1] && bounds[|at| - 1] - aCur + m < n
    requires x == bounds[|at| - 1] + m && end == At(at[|at| - 1], m, n)
    ensures Located(hwcur, aCur, n, bounds + [x], at + [end], base)
  {
    var b, a := bounds + [x], at + [end];
    AtAt(hwcur, bounds[|at| - 1] - aCur, m, n);
    assert a[|at| - 1] == at[|at| - 1] && b[|at| - 1] == bounds[|at| - 1];
    forall t, u | 0 <= t < |a| - 1 && u == t + 1 && b[t] == b[u] ensures a[t] == a[u] {
      if u < |at| { assert at[t] == at[u]; }
    }
  }

  /** The parts of the invariant after a reservation. */
  lemma ReserveInv(k: Fields, g: History, k': Fields, g': History)
    requires Inv(k, g) && Sized(k') && k'.n == k.n && k'.slots == k.slots && k'.hwcur == k.hwcur && k'.rtail == k.rtail
    requires k'.hwtail == k.hwtail && Shaped(g', k.n) && k'.hwlease == g'.at[|g'.hist|]
    requires g'.aCur == g.aCur && g'.aSeen == g.aSeen && g'.base == g.base && g'.at[g.base] == g.at[g.base]
    requires Tiled(g'.hist, g'.bounds) == true && Ticketed(g'.hist, g'.bounds, g.base) == true
    requires Young(g'.hist, g.base, k.n) == true && Located(k.hwcur, g.aCur, k.n, g'.bounds, g'.at, g.base) == true
    requires Reports(k'.leases, k'.leaseIdx, g'.hist, g'.at) == true
    requires Mirrored(k.slots, k.hwcur, g.aCur, g.aSeen, g'.log) == true
    ensures Inv(k', g') == true
  {
  }

  lemma ReserveParts(k: Fields, g: History, needed: nat, m: nat, x: nat, end: nat)
    requires Inv(k, g) && MayIssue(g, k.n) && Shaped(AfterReserve(k, g, needed), k.n)
    requires m == Granted(k, needed) && x == |g.log| + m && end == At(k.hwlease, m, k.n)
    ensures var h, b, a := g.hist + [Ticket(0, Held)], g.bounds + [x], g.at + [end];
            && Tiled(h, b) == true && Ticketed(h, b, g.base) == true && Young(h, g.base, k.n) == true
            && Located(k.hwcur, g.aCur, k.n, b, a, g.base) == true
            && Reports(k.leases[k.leaseIdx := NOSLOT], Next(k.leaseIdx, k.n - 1), h, a) == true
            && Mirrored(k.slots, k.hwcur, g.aCur, g.aSeen, g.log + Ahead(k, m)) == true
  {
    ReserveReports(k.leases, k.leaseIdx, g.hist, g.at, end);
    assert k.hwlease == g.at[|g.hist|] == At(k.hwcur, |g.log| - g.aCur, k.n);
    ReserveMirror(k.slots, k.hwcur, g.aCur, g.aSeen, g.log, Ahead(k, m));
    ReserveTickets(g.hist, g.bounds, g.base, k.n, x);
    ReserveLocated(k.hwcur, g.aCur, k.n, g.bounds, g.at, g.base, m, x, end);
  }

  lemma ReserveHolds(k: Fields, g: History, needed: nat)
    requires Inv(k, g) && MayIssue(g, k.n) && Sized(Reserved(k, needed)) && Shaped(AfterReserve(k, g, needed), k.n)
    ensures Holds(Reserved(k, needed), AfterReserve(k, g, needed), |g.hist|, ReservedWriter(k, needed)) == true
  {
    assert k.hwlease == g.at[|g.hist|] == At(k.hwcur, |g.log| - g.aCur, k.n);
  }

  /** Reserving keeps the invariant and hands the new ticket to the writer. */
  lemma ReserveKeeps(k: Fields, g: History, needed: nat)
    requires Inv(k, g) && MayIssue(g, k.n)
    ensures Inv(Reserved(k, needed), AfterReserve(k, g, needed)) == true
    ensures Holds(Reserved(k, needed), AfterReserve(k, g, needed), |g.hist|, ReservedWriter(k, needed)) == true
  {
    ReserveShape(k, g, needed);
    ReserveParts(k, g, needed, Granted(k, needed), |g.log| + Granted(k, needed), At(k.hwlease, Granted(k, needed), k.n));
    ReserveInv(k, g, Reserved(k, needed), AfterReserve(k, g, needed));
    ReserveHolds(k, g, needed);
  }

  /* ---- store ---- */

  lemma StoreMirror(slots: seq<Slot>, hwcur: nat, aCur: nat, aSeen: nat, log: seq<Slot>, a: nat, s: Slot)
    requires hwcur < |slots| && aCur <= aSeen && |log| <= aCur + |slots| && Mirrored(slots, hwcur, aCur, aSeen, log)
    requires aSeen <= a < |log|
    ensures Mirrored(slots[At(hwcur, a - aCur, |slots|) := s], hwcur, aCur, aSeen, log[a := s])
  {
  }

  /** How much of its block a writer has filled. */
  ghost function Filled(g: History, t: nat, used: nat, log: seq<Slot>): History
    requires t < |g.hist|
  {
    g.(hist := g.hist[t := g.hist[t].(used := used)], log := log)
  }

  lemma FilledReports(leases: seq<nat>, idx: nat, hist: seq<Ticket>, at: seq<nat>, t: nat, used: nat)
    requires idx < |leases| && |at| == |hist| + 1 && t < |hist| && Reports(leases, idx, hist, at)
    ensures Reports(leases, idx, hist[t := hist[t].(used := used)], at)
  {
  }

  lemma FilledKeeps(k: Fields, g: History, t: nat, used: nat, slots: seq<Slot>, log: seq<Slot>)
    returns (k': Fields, g': History)
    requires Inv(k, g) && t < |g.hist| && g.bounds[t] + used <= g.bounds[t + 1] && |log| == |g.log| && |slots| == k.n
    requires Mirrored(slots, k.hwcur, g.aCur, g.aSeen, log)
    ensures k' == k.(slots := slots) && g' == Filled(g, t, used, log) && Inv(k', g')
  {
    FilledReports(k.leases, k.leaseIdx, g.hist, g.at, t, used);
    k', g' := k.(slots := slots), Filled(g, t, used, log);
  }

  ghost function AfterStore(g: History, t: nat, s: Slot): History
    requires t < |g.hist| && |g.bounds| == |g.hist| + 1 && g.bounds[t] + g.hist[t].used < |g.log|
  {
    Filled(g, t, g.hist[t].used + 1, g.log[g.bounds[t] + g.hist[t].used := s])
  }

  /** A writer with slots left owns an unpublished block. */
  lemma WriterInRange(k: Fields, g: History, t: nat, w: Writer)
    requires Inv(k, g) && Holds(k, g, t, w)
    ensures w.leaseIdx < k.n && w.j < k.n && w.howmany <= k.n && g.bounds[t] + g.hist[t].used <= g.bounds[t + 1] <= |g.log|
    ensures 0 < w.howmany ==> g.base <= t && g.bounds[g.base] <= g.bounds[t]
    ensures 0 < w.howmany ==> w.j == At(k.hwcur, g.bounds[t] + g.hist[t].used - g.aCur, k.n)
    ensures 0 < w.howmany ==> g.at[t + 1] == At(k.hwcur, g.bounds[t + 1] - g.aCur, k.n)
  {
    Monotone(g.hist, g.bounds, t + 1, |g.hist|);
    if 0 < w.howmany {
      BlockIsBusy(g, k.n, t);
    }
  }

  lemma StoreHolds(k: Fields, g: History, t: nat, w: Writer, s: Slot)
    requires Inv(k, g) && Holds(k, g, t, w) && 0 < w.howmany && w.j < k.n && g.bounds[t + 1] <= |g.log|
    requires g.aCur <= g.bounds[t] && w.j == At(k.hwcur, g.bounds[t] + g.hist[t].used - g.aCur, k.n)
    requires g.at[t + 1] == At(k.hwcur, g.bounds[t + 1] - g.aCur, k.n)
    requires Sized(Stored(k, w, s)) && Shaped(AfterStore(g, t, s), k.n)
    ensures Holds(Stored(k, w, s), AfterStore(g, t, s), t, StoredWriter(k, w))
  {
  }

  lemma StoreInRange(k: Fields, g: History, t: nat, w: Writer, s: Slot)
    requires Inv(k, g) && Holds(k, g, t, w) && 0 < w.howmany
    ensures w.j < k.n && g.bounds[t] + g.hist[t].used < g.bounds[t + 1] <= |g.log| && g.base <= t
    ensures Mirrored(k.slots[w.j := s], k.hwcur, g.aCur, g.aSeen, g.log[g.bounds[t] + g.hist[t].used := s])
  {
    WriterInRange(k, g, t, w);
    StoreMirror(k.slots, k.hwcur, g.aCur, g.aSeen, g.log, g.bounds[t] + g.hist[t].used, s);
  }

  /** A store touches one slot of the writer's own block and nothing else. */
  lemma StoreKeeps(k: Fields, g: History, t: nat, w: Writer, s: Slot) returns (k': Fields, g': History)
    requires Inv(k, g) && Holds(k, g, t, w) && 0 < w.howmany
    ensures w.j < k.n && g.bounds[t] + g.hist[t].used < g.bounds[t + 1] <= |g.log| && g.base <= t
    ensures k' == Stored(k, w, s) && g' == AfterStore(g, t, s)
    ensures Inv(k', g')
  {
    StoreInRange(k, g, t, w, s);
    k', g' := FilledKeeps(k, g, t, g.hist[t].used + 1, k.slots[w.j := s], g.log[g.bounds[t] + g.hist[t].used := s]);
  }

  /* ---- complete: settle the leftover slots ---- */

  function BlankedLog(log: seq<Slot>, lo: nat, hi: nat): (r: seq<Slot>)
    requires lo <= hi <= |log|
    ensures |r| == |log| && forall a :: 0 <= a < |log| ==> r[a] == if lo <= a < hi then Blank(log[a]) else log[a]
  {
    seq(|log|, a requires 0 <= a < |log| => if lo <= a < hi then Blank(log[a]) else log[a])
  }

  lemma BlankMirror(slots: seq<Slot>, hwcur: nat, aCur: nat, aSeen: nat, log: seq<Slot>, lo: nat, hi: nat)
    returns (slots': seq<Slot>, log': seq<Slot>)
    requires hwcur < |slots| && aCur <= aSeen && |log| < aCur + |slots| && Mirrored(slots, hwcur, aCur, aSeen, log)
    requires aSeen <= lo <= hi <= |log|
    ensures slots' == Blanked(slots, At(hwcur, lo - aCur, |slots|), hi - lo) && |slots'| == |slots|
    ensures log' == BlankedLog(log, lo, hi) && |log'| == |log| && Mirrored(slots', hwcur, aCur, aSeen, log')
  {
    slots', log' := Blanked(slots, At(hwcur, lo - aCur, |slots|), hi - lo), BlankedLog(log, lo, hi);
    forall a | aSeen <= a < |log| ensures slots'[At(hwcur, a - aCur, |slots|)] == log'[a] {
      DistBetween(hwcur, lo - aCur, a - aCur, |slots|);
    }
  }

  /** Only the writer of the newest ticket finds itself last. */
  lemma LastWriter(idx: nat, hi: nat, t: nat, n: nat)
    requires idx < n && t < hi && hi - t < n
    ensures Next(Back(idx, hi - t, n), n - 1) == idx <==> t + 1 == hi
  {
  }

  /** The newest ticket shortened to end at position x, index end. */
  ghost function RolledBack(g: History, x: nat, end: nat): History
    requires |g.bounds| == |g.at| == |g.hist| + 1 && x <= |g.log|
  {
    g.(bounds := g.bounds[|g.hist| := x], at := g.at[|g.hist| := end], log := g.log[..x])
  }

  ghost function AfterSettle(g: History, t: nat, w: Writer, n: nat): History
    requires Shaped(g, n) && t < |g.hist| && g.bounds[t] + g.hist[t].used <= g.bounds[t + 1] <= |g.log|
  {
    if w.howmany == 0 then g
    else if t + 1 == |g.hist| then RolledBack(g, g.bounds[t] + g.hist[t].used, w.j)
    else Filled(g, t, g.bounds[t + 1] - g.bounds[t],
                BlankedLog(g.log, g.bounds[t] + g.hist[t].used, g.bounds[t + 1]))
  }

  lemma RollBackTickets(g: History, n: nat, x: nat, end: nat)
    requires Shaped(g, n) && Tiled(g.hist, g.bounds) && Ticketed(g.hist, g.bounds, g.base) && g.base < |g.hist|
    requires g.bounds[g.base] <= x <= |g.log| && x == g.bounds[|g.hist| - 1] + g.hist[|g.hist| - 1].used
    ensures var g' := RolledBack(g, x, end);
            Shaped(g', n) && Tiled(g'.hist, g'.bounds) && Ticketed(g'.hist, g'.bounds, g'.base)
  {
  }

  lemma RollBackReports(leases: seq<nat>, idx: nat, hist: seq<Ticket>, at: seq<nat>, end: nat)
    requires idx < |leases| && 0 < |hist| && |at| == |hist| + 1 && Reports(leases, idx, hist, at)
    requires hist[|hist| - 1].status == Held
    ensures Reports(leases, idx, hist, at[|hist| := end])
  {
  }

  lemma RollBackLocated(hwcur: nat, aCur: nat, n: nat, bounds: seq<nat>, at: seq<nat>, base: nat, x: nat, last: nat)
    requires hwcur < n && |bounds| == |at| == last + 1 && base < last && Located(hwcur, aCur, n, bounds, at, base)
    requires aCur <= x <= aCur + n
    ensures Located(hwcur, aCur, n, bounds[last := x], at[last := Ix(hwcur, aCur, n, x)], base)
  {
  }

  lemma RollBackMirror(slots: seq<Slot>, hwcur: nat, aCur: nat, aSeen: nat, log: seq<Slot>, x: nat)
    requires hwcur < |slots| && aCur <= aSeen && |log| <= aCur + |slots| && Mirrored(slots, hwcur, aCur, aSeen, log)
    requires x <= |log|
    ensures Mirrored(slots, hwcur, aCur, aSeen, log[..x])
  {
  }

  /** The last writer gives its unused slots back. */
  lemma RollBackKeeps(k: Fields, g: History, t: nat, w: Writer) returns (k': Fields, g': History)
    requires Inv(k, g) && Holds(k, g, t, w) && 0 < w.howmany && t + 1 == |g.hist|
    requires g.base <= t && g.bounds[g.base] <= g.bounds[t]
    ensures k' == k.(hwlease := w.j) && g' == RolledBack(g, g.bounds[t] + g.hist[t].used, w.j) && Inv(k', g')
  {
    var x := g.bounds[t] + g.hist[t].used;
    RollBackTickets(g, k.n, x, w.j);
    RollBackReports(k.leases, k.leaseIdx, g.hist, g.at, w.j);
    RollBackLocated(k.hwcur, g.aCur, k.n, g.bounds, g.at, g.base, x, |g.hist|);
    RollBackMirror(k.slots, k.hwcur, g.aCur, g.aSeen, g.log, x);
    k', g' := k.(hwlease := w.j), RolledBack(g, x, w.j);
  }

  /** The three ways to settle, in terms of the ticket. */
  lemma SettledCases(k: Fields, g: History, t: nat, w: Writer)
    requires Sized(k) && Shaped(g, k.n) && Holds(k, g, t, w) && w.j < k.n && w.howmany <= k.n
    ensures 0 < w.howmany && t + 1 == |g.hist| ==> Settled(k, w) == k.(hwlease := w.j) && EndOf(k, w) == w.j
    ensures 0 < w.howmany && t + 1 != |g.hist| ==>
              Settled(k, w) == k.(slots := Blanked(k.slots, w.j, w.howmany)) && EndOf(k, w) == At(w.j, w.howmany, k.n)
  {
    LastWriter(k.leaseIdx, |g.hist|, t, k.n);
  }

  /** Any other writer turns them into empty packets. */
  lemma BlankKeeps(k: Fields, g: History, t: nat, w: Writer) returns (k': Fields, g': History)
    requires Inv(k, g) && Holds(k, g, t, w) && 0 < w.howmany && w.j < k.n && w.howmany <= k.n
    requires g.aSeen <= g.bounds[t] && g.bounds[t + 1] <= |g.log| && g.bounds[t] + g.hist[t].used <= g.bounds[t + 1]
    requires w.j == At(k.hwcur, g.bounds[t] + g.hist[t].used - g.aCur, k.n)
    ensures k' == k.(slots := Blanked(k.slots, w.j, w.howmany))
    ensures g' == Filled(g, t, g.bounds[t + 1] - g.bounds[t], BlankedLog(g.log, g.bounds[t] + g.hist[t].used, g.bounds[t + 1]))
    ensures Inv(k', g')
  {
    var lo, hi := g.bounds[t] + g.hist[t].used, g.bounds[t + 1];
    var slots, log := BlankMirror(k.slots, k.hwcur, g.aCur, g.aSeen, g.log, lo, hi);
    k', g' := FilledKeeps(k, g, t, hi - g.bounds[t], slots, log);
  }

  lemma AfterSettleCases(g: History, t: nat, w: Writer, n: nat)
    requires Shaped(g, n) && t < |g.hist| && g.bounds[t] + g.hist[t].used <= g.bounds[t + 1] <= |g.log|
    ensures w.howmany == 0 ==> AfterSettle(g, t, w, n) == g
    ensures 0 < w.howmany && t + 1 == |g.hist| ==>
              AfterSettle(g, t, w, n) == RolledBack(g, g.bounds[t] + g.hist[t].used, w.j)
    ensures 0 < w.howmany && t + 1 != |g.hist| ==>
              AfterSettle(g, t, w, n) == Filled(g, t, g.bounds[t + 1] - g.bounds[t],
                                                BlankedLog(g.log, g.bounds[t] + g.hist[t].used, g.bounds[t + 1]))
  {
  }

  lemma SettleInv(k: Fields, g: History, t: nat, w: Writer, s: Fields) returns (k': Fields, g': History)
    requires Inv(k, g) && Holds(k, g, t, w)
    requires w.j < k.n && w.howmany <= k.n && g.bounds[t] + g.hist[t].used <= g.bounds[t + 1] <= |g.log|
    requires 0 < w.howmany ==> g.base <= t && g.bounds[g.base] <= g.bounds[t]
    requires 0 < w.howmany ==> w.j == At(k.hwcur, g.bounds[t] + g.hist[t].used - g.aCur, k.n)
    requires w.howmany == 0 ==> s == k
    requires 0 < w.howmany && t + 1 == |g.hist| ==> s == k.(hwlease := w.j)
    requires 0 < w.howmany && t + 1 != |g.hist| ==> s == k.(slots := Blanked(k.slots, w.j, w.howmany))
    ensures k' == s && g' == AfterSettle(g, t, w, k.n)
    ensures Inv(k', g')
  {
    AfterSettleCases(g, t, w, k.n);
    if w.howmany == 0 {
      k', g' := k, g;
    } else if t + 1 == |g.hist| {
      k', g' := RollBackKeeps(k, g, t, w);
    } else {
      k', g' := BlankKeeps(k, g, t, w);
    }
  }

  /** Leftover slots settled, the block of the writer is full. */
  lemma SettleKeeps(k: Fields, g: History, t: nat, w: Writer) returns (k': Fields, g': History)
    requires Inv(k, g) && Holds(k, g, t, w)
    ensures w.j < k.n && w.howmany <= k.n && g.bounds[t] + g.hist[t].used <= g.bounds[t + 1] <= |g.log|
    ensures k' == Settled(k, w) && g' == AfterSettle(g, t, w, k.n)
    ensures Inv(k', g')
  {
    WriterInRange(k, g, t, w);
    SettledCases(k, g, t, w);
    k', g' := SettleInv(k, g, t, w, Settled(k, w));
  }

  lemma SettleHolds(k: Fields, g: History, t: nat, w: Writer)
    requires Inv(k, g) && Holds(k, g, t, w)
    requires w.j < k.n && w.howmany <= k.n && g.bounds[t] + g.hist[t].used <= g.bounds[t + 1] <= |g.log|
    requires Sized(Settled(k, w)) && Shaped(AfterSettle(g, t, w, k.n), k.n)
    ensures Holds(Settled(k, w), AfterSettle(g, t, w, k.n), t, w.(j := EndOf(k, w), howmany := 0))
  {
    WriterInRange(k, g, t, w);
    SettledCases(k, g, t, w);
  }

  /* ---- complete: report and publish ---- */

  /** First ticket from t on whose report is not there. */
  function FirstOpen(h: seq<Ticket>, t: nat): (u: nat)
    requires t <= |h|
    ensures t <= u <= |h|
    ensures forall i :: t <= i < u ==> h[i].status == Done
    ensures u < |h| ==> h[u].status != Done
    decreases |h| - t
  {
    if t < |h| && h[t].status == Done then FirstOpen(h, t + 1) else t
  }

  /** Tickets t .. u-1 consumed by a scan of the reports. */
  function Consume(h: seq<Ticket>, t: nat, u: nat): (r: seq<Ticket>)
    requires t <= u <= |h|
    ensures |r| == |h|
    ensures forall i :: 0 <= i < |h| ==> r[i] == if t <= i < u then h[i].(status := Out) else h[i]
  {
    seq(|h|, i requires 0 <= i < |h| => if t <= i < u then h[i].(status := Out) else h[i])
  }

  lemma ReportOne(leases: seq<nat>, idx: nat, hist: seq<Ticket>, at: seq<nat>, t: nat, st: Status)
    requires idx < |leases| && |at| == |hist| + 1 && Reports(leases, idx, hist, at)
    requires t < |hist| && |hist| - t <= |leases|
    ensures Reports(leases[Back(idx, |hist| - t, |leases|) := if st == Done then at[t + 1] else NOSLOT], idx,
                    hist[t := hist[t].(status := st)], at)
  {
  }

  lemma {:induction false} FirstOpenOther(h: seq<Ticket>, t: nat, u: nat)
    requires t < u <= |h|
    ensures FirstOpen(h[t := h[t].(status := Out)], u) == FirstOpen(h, u)
    decreases |h| - u
  {
    if u < |h| && h[u].status == Done { FirstOpenOther(h, t, u + 1); }
  }

  lemma ConsumeOne(h: seq<Ticket>, t: nat)
    requires t < |h| && h[t].status == Done
    ensures var h' := h[t := h[t].(status := Out)];
            Consume(h', t + 1, FirstOpen(h', t + 1)) == Consume(h, t, FirstOpen(h, t)) && FirstOpen(h', t + 1) == FirstOpen(h, t)
  {
    FirstOpenOther(h, t, t + 1);
  }

  lemma ScanStep(leases: seq<nat>, idx: nat, hi: nat, t: nat, j: nat)
    requires idx < |leases| && t < hi && hi - t < |leases| && leases[Back(idx, hi - t, |leases|)] != NOSLOT
    ensures var i := Back(idx, hi - t, |leases|);
            Scan(leases, i, idx, j) == Scan(leases[i := NOSLOT], Back(idx, hi - (t + 1), |leases|), idx, leases[i])
  {
    assert Next(Back(idx, hi - t, |leases|), |leases| - 1) == Back(idx, hi - (t + 1), |leases|);
  }

  lemma ScanEnds(leases: seq<nat>, idx: nat, hist: seq<Ticket>, at: seq<nat>, t: nat)
    requires idx < |leases| && |at| == |hist| + 1 && Reports(leases, idx, hist, at)
    requires t <= |hist| && |hist| - t < |leases| && (t < |hist| ==> hist[t].status != Done)
    ensures Scan(leases, Back(idx, |hist| - t, |leases|), idx, at[t]) == (leases, at[t])
    ensures FirstOpen(hist, t) == t && Consume(hist, t, t) == hist
  {
  }

  /** The scan consumes exactly the reports up to the first one missing. */
  lemma {:induction false} ScanConsumes(leases: seq<nat>, idx: nat, hist: seq<Ticket>, at: seq<nat>, t: nat) returns (r: (seq<nat>, nat))
    requires idx < |leases| && |at| == |hist| + 1 && Reports(leases, idx, hist, at)
    requires t <= |hist| && |hist| - t < |leases| && (forall i {:trigger at[i]} :: 0 <= i < |at| ==> at[i] < NOSLOT)
    ensures r == Scan(leases, Back(idx, |hist| - t, |leases|), idx, at[t]) && |r.0| == |leases|
    ensures Reports(r.0, idx, Consume(hist, t, FirstOpen(hist, t)), at) && r.1 == at[FirstOpen(hist, t)]
    decreases |hist| - t
  {
    if t < |hist| && hist[t].status == Done {
      ReportOne(leases, idx, hist, at, t, Out);
      ConsumeOne(hist, t);
      ScanStep(leases, idx, |hist|, t, at[t]);
      r := ScanConsumes(leases[Back(idx, |hist| - t, |leases|) := NOSLOT], idx, hist[t := hist[t].(status := Out)], at, t + 1);
    } else {
      ScanEnds(leases, idx, hist, at, t);
      r := (leases, at[t]);
    }
  }

  /** What a report publishes: if the writer's block starts at hwtail, everything up to the first
      ticket still held.  A ticket that hwtail has passed publishes nothing. */
  ghost function AfterReport(g: History, t: nat, scan: bool): History
    requires t < |g.hist|
  {
    var h := g.hist[t := g.hist[t].(status := Done)];
    if !scan then g.(hist := h)
    else
      var u := FirstOpen(h, t);
      g.(hist := Consume(h, t, u), base := if g.base <= t then u else g.base)
  }

  lemma EmptyRun(hist: seq<Ticket>, bounds: seq<nat>, at: seq<nat>, t: nat, u: nat)
    requires |bounds| == |at| == |hist| + 1 && t <= u <= |hist|
    requires forall i, j {:trigger bounds[i], bounds[j]} :: t <= i < u && j == i + 1 ==> bounds[i] == bounds[j]
    requires forall i, j {:trigger at[i], at[j]} :: 0 <= i < |at| - 1 && j == i + 1 && bounds[i] == bounds[j] ==> at[i] == at[j]
    ensures bounds[t] == bounds[u] && at[t] == at[u]
    decreases u - t
  {
    if t < u {
      EmptyRun(hist, bounds, at, t + 1, u);
      assert at[t] == at[t + 1];
    }
  }

  /** Tickets between two equal bounds are empty. */
  lemma {:induction false} EqualBounds(hist: seq<Ticket>, bounds: seq<nat>, t: nat, u: nat)
    requires |bounds| == |hist| + 1 && Tiled(hist, bounds) && t <= u <= |hist| && bounds[t] == bounds[u]
    ensures forall i {:trigger hist[i]} :: t <= i < u ==> bounds[i] == bounds[i + 1]
  {
    forall i | t <= i < u
      ensures bounds[i] == bounds[i + 1]
    {
      Monotone(hist, bounds, t, i);
      Monotone(hist, bounds, i, i + 1);
      Monotone(hist, bounds, i + 1, u);
    }
  }

  /** A ticket whose block starts at hwtail: its report moves hwtail. */
  lemma PublishTickets(g: History, n: nat, t: nat)
    requires Shaped(g, n) && Tiled(g.hist, g.bounds) && Ticketed(g.hist, g.bounds, g.base) && Young(g.hist, g.base, n)
    requires g.base <= t < |g.hist| && g.hist[t].status == Held && g.bounds[g.base] == g.bounds[t]
    ensures var g' := AfterReport(g, t, true);
            Shaped(g', n) && Tiled(g'.hist, g'.bounds) && Ticketed(g'.hist, g'.bounds, g'.base) && Young(g'.hist, g'.base, n)
  {
    EqualBounds(g.hist, g.bounds, g.base, t);
    var u := FirstOpen(g.hist[t := g.hist[t].(status := Done)], t);
    Monotone(g.hist, g.bounds, t, u);
    Monotone(g.hist, g.bounds, u, |g.hist|);
  }

  /** An overtaken ticket can only meet reports of empty tickets before the last published one. */
  lemma OvertakenScan(g: History, n: nat, t: nat)
    requires Shaped(g, n) && Ticketed(g.hist, g.bounds, g.base) && t < g.base && g.hist[t].status == Held
    requires forall i, j {:trigger g.at[i], g.at[j]} ::
               0 <= i < |g.at| - 1 && j == i + 1 && g.bounds[i] == g.bounds[j] ==> g.at[i] == g.at[j]
    ensures var u := FirstOpen(g.hist[t := g.hist[t].(status := Done)], t);
            u < g.base && g.at[u] == g.at[t]
  {
    var h := g.hist[t := g.hist[t].(status := Done)];
    var u := FirstOpen(h, t);
    assert h[g.base - 1].status == Out;
    forall i, j | t <= i < u && j == i + 1
      ensures g.bounds[i] == g.bounds[j]
    {
      assert h[i].status == Done && g.hist[i].status != Out;
    }
    EmptyRun(g.hist, g.bounds, g.at, t, u);
  }

  lemma OvertakenTickets(g: History, n: nat, t: nat)
    requires Shaped(g, n) && Tiled(g.hist, g.bounds) && Ticketed(g.hist, g.bounds, g.base) && Young(g.hist, g.base, n)
    requires t < g.base && g.hist[t].status == Held && FirstOpen(g.hist[t := g.hist[t].(status := Done)], t) < g.base
    ensures var g' := AfterReport(g, t, true);
            Tiled(g'.hist, g'.bounds) && Ticketed(g'.hist, g'.bounds, g'.base) && Young(g'.hist, g'.base, n)
  {
  }

  lemma PendingTickets(g: History, n: nat, t: nat)
    requires Shaped(g, n) && Tiled(g.hist, g.bounds) && Ticketed(g.hist, g.bounds, g.base) && Young(g.hist, g.base, n)
    requires t < |g.hist| && g.hist[t].status == Held && t != g.base
    ensures var g' := AfterReport(g, t, false);
            Tiled(g'.hist, g'.bounds) && Ticketed(g'.hist, g'.bounds, g'.base) && Young(g'.hist, g'.base, n)
  {
  }

  /** Unpublished tickets that start at the index of hwtail start at hwtail. */
  lemma SameStart(k: Fields, g: History, t: nat)
    requires Inv(k, g) && g.base <= t < |g.hist| && g.at[t] == k.hwtail
    ensures g.bounds[t] == g.bounds[g.base]
  {
    BlockIsBusy(g, k.n, t);
    assert g.at[g.base] == Ix(k.hwcur, g.aCur, k.n, g.bounds[g.base]);
  }

  /** Reporting without a scan. */
  lemma PendingKeeps(k: Fields, g: History, t: nat, w: Writer) returns (k': Fields, g': History)
    requires Inv(k, g) && Holds(k, g, t, w) && w.howmany == 0 && w.myStart != k.hwtail
    ensures w.j < k.n && k' == Reported(k, w, w.j) && g' == AfterReport(g, t, false) && Inv(k', g') == true
  {
    PendingTickets(g, k.n, t);
    ReportOne(k.leases, k.leaseIdx, g.hist, g.at, t, Done);
    k' := k.(leases := k.leases[w.leaseIdx := w.j]);
    g' := AfterReport(g, t, false);
  }

  lemma ScanReports(k: Fields, g: History, t: nat, w: Writer) returns (k': Fields)
    requires Inv(k, g) && Holds(k, g, t, w) && w.howmany == 0 && w.myStart == k.hwtail
    ensures w.j < k.n && k' == Reported(k, w, w.j)
    ensures var h := g.hist[t := g.hist[t].(status := Done)];
            var u := FirstOpen(h, t);
            Sized(k') && Reports(k'.leases, k.leaseIdx, Consume(h, t, u), g.at)
            && k' == k.(leases := k'.leases, hwtail := g.at[u])
  {
    var h := g.hist[t := g.hist[t].(status := Done)];
    var p := k.leases[w.leaseIdx := w.j];
    ReportOne(k.leases, k.leaseIdx, g.hist, g.at, t, Done);
    var r := ScanConsumes(p, k.leaseIdx, h, g.at, t);
    assert p[w.leaseIdx] == w.j != NOSLOT && w.leaseIdx != k.leaseIdx;
    assert Scan(p, w.leaseIdx, k.leaseIdx, w.j) == Scan(p, w.leaseIdx, k.leaseIdx, g.at[t]);
    k' := k.(leases := Scan(p, w.leaseIdx, k.leaseIdx, w.j).0, hwtail := g.at[FirstOpen(h, t)]);
  }

  /** Publishes everything up to the first ticket still held. */
  lemma PublishKeeps(k: Fields, g: History, t: nat, w: Writer) returns (k': Fields, g': History)
    requires Inv(k, g) && Holds(k, g, t, w) && w.howmany == 0 && w.myStart == k.hwtail && g.base <= t
    ensures w.j < k.n && k' == Reported(k, w, w.j) && g' == AfterReport(g, t, true) && Inv(k', g')
  {
    k' := ScanReports(k, g, t, w);
    g' := AfterReport(g, t, true);
    SameStart(k, g, t);
    PublishTickets(g, k.n, t);
  }

  /** An overtaken ticket publishes nothing. */
  lemma OvertakenKeeps(k: Fields, g: History, t: nat, w: Writer) returns (k': Fields, g': History)
    requires Inv(k, g) && Holds(k, g, t, w) && w.howmany == 0 && w.myStart == k.hwtail && t < g.base
    ensures w.j < k.n && k' == Reported(k, w, w.j) && g' == AfterReport(g, t, true) && Inv(k', g')
  {
    k' := ScanReports(k, g, t, w);
    g' := AfterReport(g, t, true);
    OvertakenScan(g, k.n, t);
    OvertakenTickets(g, k.n, t);
  }

  /** Reporting, whether or not it leads to a scan. */
  lemma ReportKeeps(k: Fields, g: History, t: nat, w: Writer) returns (k': Fields, g': History)
    requires Inv(k, g) && Holds(k, g, t, w) && w.howmany == 0
    ensures w.j < k.n && k' == Reported(k, w, w.j) && g' == AfterReport(g, t, w.myStart == k.hwtail) && Inv(k', g')
  {
    if w.myStart != k.hwtail {
      k', g' := PendingKeeps(k, g, t, w);
    } else if g.base <= t {
      k', g' := PublishKeeps(k, g, t, w);
    } else {
      k', g' := OvertakenKeeps(k, g, t, w);
    }
  }

  /* ---- the reader ---- */

  /** NS_BUF_CHANGED cleared. */
  function Acknowledged(s: Slot): Slot {
    s.(flags := s.flags - s.flags % 2)
  }

  /** The slots from index i up to head, released by the user. */
  function Released(slots: seq<Slot>, i: nat, head: nat): (r: seq<Slot>)
    requires i < |slots| && head < |slots|
    ensures |r| == |slots|
    ensures forall x :: 0 <= x < |slots| ==>
              r[x] == if Dist(i, x, |slots|) < Dist(i, head, |slots|) then Acknowledged(slots[x]) else slots[x]
  {
    seq(|slots|, x requires 0 <= x < |slots| =>
      if Dist(i, x, |slots|) < Dist(i, head, |slots|) then Acknowledged(slots[x]) else slots[x])
  }

  /** A released slot loses bit 0 of its flags, and nothing else; no other slot changes. */
  lemma ReleasedSays(slots: seq<Slot>, i: nat, head: nat, x: nat)
    requires i < |slots| && head < |slots| && x < |slots|
    ensures var s, r := slots[x], Released(slots, i, head)[x];
            && r.bufIdx == s.bufIdx && r.len == s.len && r.flags / 2 == s.flags / 2
            && r.flags % 2 == if Dist(i, x, |slots|) < Dist(i, head, |slots|) then 0 else s.flags % 2
  {
  }

  /** netmap_vp_rxsync_locked with a head that the prologue accepts. */
  function Synced(k: Fields, head: nat): Fields
    requires Sized(k) && head < k.n
  {
    k.(slots := Released(k.slots, k.hwcur, head), hwcur := head, rtail := k.hwtail)
  }

  ghost function AfterSync(k: Fields, g: History, head: nat): History
    requires Sized(k) && head < k.n && g.base < |g.bounds|
  {
    g.(aCur := g.aCur + Dist(k.hwcur, head, k.n), aSeen := g.bounds[g.base])
  }

  lemma SyncSlot(slots: seq<Slot>, hwcur: nat, head: nat, x: nat)
    requires hwcur < |slots| && head < |slots| && Dist(hwcur, head, |slots|) <= x < |slots|
    ensures Released(slots, hwcur, head)[At(head, x - Dist(hwcur, head, |slots|), |slots|)] == slots[At(hwcur, x, |slots|)]
  {
    AtAt(hwcur, Dist(hwcur, head, |slots|), x - Dist(hwcur, head, |slots|), |slots|);
    DistAt(hwcur, x, |slots|);
  }

  lemma SyncMirror(slots: seq<Slot>, hwcur: nat, aCur: nat, aSeen: nat, aTail: nat, log: seq<Slot>, head: nat)
    requires hwcur < |slots| && head < |slots| && aCur <= aSeen <= aTail <= |log| < aCur + |slots|
    requires Mirrored(slots, hwcur, aCur, aSeen, log) && Dist(hwcur, head, |slots|) <= aTail - aCur
    ensures Mirrored(Released(slots, hwcur, head), head, aCur + Dist(hwcur, head, |slots|), aTail, log)
  {
    forall a | aTail <= a < |log|
      ensures Released(slots, hwcur, head)[At(head, a - (aCur + Dist(hwcur, head, |slots|)), |slots|)] == log[a]
    {
      SyncSlot(slots, hwcur, head, a - aCur);
    }
  }

  lemma SyncLocated(hwcur: nat, aCur: nat, n: nat, bounds: seq<nat>, at: seq<nat>, base: nat, head: nat)
    requires hwcur < n && head < n && |bounds| == |at| && Located(hwcur, aCur, n, bounds, at, base)
    requires forall t {:trigger bounds[t]} :: base <= t < |at| ==> aCur + Dist(hwcur, head, n) <= bounds[t] < aCur + n
    ensures Located(head, aCur + Dist(hwcur, head, n), n, bounds, at, base)
  {
  }

  lemma BoundsAhead(g: History, n: nat)
    requires Shaped(g, n) && Tiled(g.hist, g.bounds)
    ensures forall t {:trigger g.bounds[t]} :: g.base <= t < |g.at| ==> g.bounds[g.base] <= g.bounds[t] <= |g.log|
  {
    forall t | g.base <= t < |g.at|
      ensures g.bounds[g.base] <= g.bounds[t] <= |g.log|
    {
      Monotone(g.hist, g.bounds, g.base, t);
      Monotone(g.hist, g.bounds, t, |g.hist|);
    }
  }

  lemma SyncBounds(k: Fields, g: History, head: nat)
    requires Inv(k, g) && head < k.n && Dist(k.hwcur, head, k.n) <= Dist(k.hwcur, k.hwtail, k.n)
    ensures Dist(k.hwcur, head, k.n) <= g.bounds[g.base] - g.aCur
    ensures k.hwtail == At(head, g.bounds[g.base] - (g.aCur + Dist(k.hwcur, head, k.n)), k.n)
  {
    assert k.hwtail == g.at[g.base] == At(k.hwcur, g.bounds[g.base] - g.aCur, k.n);
    DistAt(k.hwcur, g.bounds[g.base] - g.aCur, k.n);
  }

  lemma SyncLocates(k: Fields, g: History, head: nat)
    requires Inv(k, g) && head < k.n && Dist(k.hwcur, head, k.n) <= g.bounds[g.base] - g.aCur
    ensures Located(head, g.aCur + Dist(k.hwcur, head, k.n), k.n, g.bounds, g.at, g.base)
  {
    BoundsAhead(g, k.n);
    SyncLocated(k.hwcur, g.aCur, k.n, g.bounds, g.at, g.base, head);
  }

  lemma SyncShape(k: Fields, g: History, head: nat)
    requires Sized(k) && Shaped(g, k.n) && head < k.n && Dist(k.hwcur, head, k.n) <= g.bounds[g.base] - g.aCur
    requires k.hwtail == At(head, g.bounds[g.base] - (g.aCur + Dist(k.hwcur, head, k.n)), k.n)
    ensures var k', g' := Synced(k, head), AfterSync(k, g, head);
            Sized(k') && Shaped(g', k.n) && k'.rtail == Ix(k'.hwcur, g'.aCur, k.n, g'.aSeen)
  {
  }

  lemma SyncMirrors(k: Fields, g: History, head: nat)
    requires Sized(k) && Shaped(g, k.n) && head < k.n && Dist(k.hwcur, head, k.n) <= g.bounds[g.base] - g.aCur
    requires Mirrored(k.slots, k.hwcur, g.aCur, g.aSeen, g.log)
    ensures Mirrored(Synced(k, head).slots, head, AfterSync(k, g, head).aCur, AfterSync(k, g, head).aSeen, g.log)
  {
    SyncMirror(k.slots, k.hwcur, g.aCur, g.aSeen, g.bounds[g.base], g.log, head);
  }

  /** What an rxsync leaves alone. */
  lemma SyncInv(k: Fields, g: History, k': Fields, g': History)
    requires Inv(k, g) && Sized(k') && k'.n == k.n && k'.leases == k.leases && k'.leaseIdx == k.leaseIdx
    requires k'.hwtail == k.hwtail && k'.hwlease == k.hwlease
    requires g'.hist == g.hist && g'.bounds == g.bounds && g'.at == g.at && g'.base == g.base && g'.log == g.log
    requires Shaped(g', k.n) && k'.rtail == Ix(k'.hwcur, g'.aCur, k.n, g'.aSeen)
    requires Located(k'.hwcur, g'.aCur, k.n, g.bounds, g.at, g.base)
    requires Mirrored(k'.slots, k'.hwcur, g'.aCur, g'.aSeen, g.log)
    ensures Inv(k', g')
  {
  }

  /** The reader moves hwcur no further than hwtail. */
  lemma SyncKeeps(k: Fields, g: History, head: nat) returns (k': Fields, g': History)
    requires Inv(k, g) && head < k.n && Dist(k.hwcur, head, k.n) <= Dist(k.hwcur, k.hwtail, k.n)
    ensures k' == Synced(k, head) && g' == AfterSync(k, g, head) && Inv(k', g')
    ensures Dist(k.hwcur, head, k.n) <= g.bounds[g.base] - g.aCur
  {
    SyncBounds(k, g, head);
    SyncShape(k, g, head);
    SyncMirrors(k, g, head);
    SyncLocates(k, g, head);
    k', g' := Synced(k, head), AfterSync(k, g, head);
    SyncInv(k, g, k', g');
  }

  /** The user may rewrite the slots it has been shown. */
  ghost predicate OnlyUserSlots(k: Fields, slots: seq<Slot>)
    requires Sized(k)
  {
    |slots| == k.n && forall i {:trigger slots[i]} ::
      0 <= i < k.n && Dist(k.hwcur, k.rtail, k.n) <= Dist(k.hwcur, i, k.n) ==> slots[i] == k.slots[i]
  }

  lemma UserKeeps(k: Fields, g: History, slots: seq<Slot>)
    requires Inv(k, g) && OnlyUserSlots(k, slots)
    ensures Inv(k.(slots := slots), g)
  {
    assert Mirrored(slots, k.hwcur, g.aCur, g.aSeen, g.log);
  }
}
