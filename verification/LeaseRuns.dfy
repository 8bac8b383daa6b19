/** Whole runs of the VALE lease protocol: any number of writers, any interleaving. */
module LeaseRuns {
  import opened Ring
  import opened KringModel
  import opened Lease

  /** The ring, the local variables of every active writer (named by the ticket it holds), and the history. */
  datatype System = System(k: Fields, writers: map<nat, Writer>, g: History)

  datatype Event =
    | Reserve(needed: nat)
    | Store(t: nat, slot: Slot)
    | Complete(t: nat)
    | RxSync(head: nat)
    | UserWrites(slots: seq<Slot>)

  /** The held tickets are those of the active writers. */
  ghost predicate WritersHold(k: Fields, g: History, writers: map<nat, Writer>)
    requires Sized(k) && Shaped(g, k.n)
  {
    && (forall t {:trigger t in writers} :: t in writers ==> Holds(k, g, t, writers[t]))
    && (forall t {:trigger g.hist[t]} :: 0 <= t < |g.hist| && g.hist[t].status == Held ==> t in writers)
  }

  ghost predicate Good(s: System) {
    Inv(s.k, s.g) && WritersHold(s.k, s.g, s.writers)
  }

  /** What each party may do next.  A new lease needs fewer than n leases issued since the oldest one
      that is held or unpublished; the reader's head is one that the rx prologue accepts. */
  ghost predicate Enabled(s: System, e: Event)
    requires Good(s)
  {
    match e
    case Reserve(_) => MayIssue(s.g, s.k.n)
    case Store(t, _) => t in s.writers && 0 < s.writers[t].howmany
    case Complete(t) => t in s.writers
    case RxSync(head) => head < s.k.n && Dist(s.k.hwcur, head, s.k.n) <= Dist(s.k.hwcur, s.k.hwtail, s.k.n)
    case UserWrites(slots) => OnlyUserSlots(s.k, slots)
  }

  ghost function AfterComplete(k: Fields, g: History, t: nat, w: Writer): History
    requires Inv(k, g) && Holds(k, g, t, w) && g.bounds[t] + g.hist[t].used <= g.bounds[t + 1] <= |g.log|
  {
    AfterReport(AfterSettle(g, t, w, k.n), t, w.myStart == k.hwtail)
  }

  ghost function DoStore(s: System, t: nat, slot: Slot): System
    requires Good(s) && Enabled(s, Store(t, slot))
  {
    WriterInRange(s.k, s.g, t, s.writers[t]);
    System(Stored(s.k, s.writers[t], slot), s.writers[t := StoredWriter(s.k, s.writers[t])], AfterStore(s.g, t, slot))
  }

  ghost function DoComplete(s: System, t: nat): System
    requires Good(s) && Enabled(s, Complete(t))
  {
    WriterInRange(s.k, s.g, t, s.writers[t]);
    System(Completed(s.k, s.writers[t]), s.writers - {t}, AfterComplete(s.k, s.g, t, s.writers[t]))
  }

  ghost function Step(s: System, e: Event): System
    requires Good(s) && Enabled(s, e)
  {
    match e
    case Reserve(needed) =>
      System(Reserved(s.k, needed), s.writers[|s.g.hist| := ReservedWriter(s.k, needed)], AfterReserve(s.k, s.g, needed))
    case Store(t, slot) => DoStore(s, t, slot)
    case Complete(t) => DoComplete(s, t)
    case RxSync(head) => s.(k := Synced(s.k, head), g := AfterSync(s.k, s.g, head))
    case UserWrites(slots) => s.(k := s.k.(slots := slots))
  }

  /* ---- the other writers ---- */

  /** Held tickets other than t are untouched. */
  ghost predicate OnlyTicket(g: History, g': History, t: nat) {
    && |g.bounds| == |g.at| == |g.hist| + 1 && |g'.bounds| == |g'.at| == |g'.hist| + 1 && |g'.hist| == |g.hist| && t < |g.hist|
    && (forall u {:trigger g.hist[u]} :: 0 <= u < |g.hist| && u != t && g.hist[u].status == Held ==>
          g'.hist[u] == g.hist[u] && g'.bounds[u] == g.bounds[u] && g'.bounds[u + 1] == g.bounds[u + 1]
          && g'.at[u] == g.at[u] && g'.at[u + 1] == g.at[u + 1])
    && (forall u {:trigger g'.hist[u]} :: 0 <= u < |g.hist| && u != t && g'.hist[u].status == Held ==> g.hist[u].status == Held)
  }

  lemma OtherHolds(k: Fields, g: History, k': Fields, g': History, t: nat, u: nat, w: Writer)
    requires Sized(k) && Shaped(g, k.n) && Holds(k, g, u, w) && u != t
    requires Sized(k') && Shaped(g', k'.n) && OnlyTicket(g, g', t)
    requires k'.n == k.n && k'.leaseIdx == k.leaseIdx && k'.hwcur == k.hwcur && g'.aCur == g.aCur
    ensures Holds(k', g', u, w)
  {
    assert g.hist[u].status == Held;
  }

  lemma OthersHold(k: Fields, g: History, k': Fields, g': History, writers: map<nat, Writer>, t: nat)
    requires Sized(k) && Shaped(g, k.n) && WritersHold(k, g, writers) && t in writers
    requires Sized(k') && Shaped(g', k'.n) && OnlyTicket(g, g', t)
    requires k'.n == k.n && k'.leaseIdx == k.leaseIdx && k'.hwcur == k.hwcur && g'.aCur == g.aCur
    ensures g'.hist[t].status != Held ==> WritersHold(k', g', writers - {t})
    ensures forall w {:trigger writers[t := w]} :: Holds(k', g', t, w) ==> WritersHold(k', g', writers[t := w])
  {
    forall u | u in writers && u != t
      ensures Holds(k', g', u, writers[u])
    {
      OtherHolds(k, g, k', g', t, u, writers[u]);
    }
  }

  lemma OlderHolds(k: Fields, g: History, needed: nat, t: nat, w: Writer)
    requires Inv(k, g) && Holds(k, g, t, w) && MayIssue(g, k.n)
    requires Sized(Reserved(k, needed)) && Shaped(AfterReserve(k, g, needed), k.n)
    ensures Holds(Reserved(k, needed), AfterReserve(k, g, needed), t, w)
  {
  }

  /* ---- every step keeps the invariant ---- */

  lemma OneMoreWriter(g: History, k': Fields, g': History, writers: map<nat, Writer>, w: Writer)
    requires Sized(k') && Shaped(g', k'.n) && g'.hist == g.hist + [Ticket(0, Held)] && Holds(k', g', |g.hist|, w)
    requires forall t {:trigger t in writers} :: t in writers ==> Holds(k', g', t, writers[t])
    requires forall t {:trigger g.hist[t]} :: 0 <= t < |g.hist| && g.hist[t].status == Held ==> t in writers
    ensures WritersHold(k', g', writers[|g.hist| := w])
  {
  }

  lemma ReserveHold(k: Fields, g: History, needed: nat, writers: map<nat, Writer>)
    requires Inv(k, g) && WritersHold(k, g, writers) && MayIssue(g, k.n)
    requires Sized(Reserved(k, needed)) && Shaped(AfterReserve(k, g, needed), k.n)
    requires Holds(Reserved(k, needed), AfterReserve(k, g, needed), |g.hist|, ReservedWriter(k, needed))
    ensures WritersHold(Reserved(k, needed), AfterReserve(k, g, needed), writers[|g.hist| := ReservedWriter(k, needed)])
  {
    forall t | t in writers
      ensures Holds(Reserved(k, needed), AfterReserve(k, g, needed), t, writers[t])
    {
      OlderHolds(k, g, needed, t, writers[t]);
    }
    OneMoreWriter(g, Reserved(k, needed), AfterReserve(k, g, needed), writers, ReservedWriter(k, needed));
  }

  lemma ReserveGood(s: System, needed: nat) returns (s': System)
    requires Good(s) && Enabled(s, Reserve(needed))
    ensures s' == Step(s, Reserve(needed)) && Good(s')
  {
    ReserveKeeps(s.k, s.g, needed);
    ReserveHold(s.k, s.g, needed, s.writers);
    s' := System(Reserved(s.k, needed), s.writers[|s.g.hist| := ReservedWriter(s.k, needed)], AfterReserve(s.k, s.g, needed));
  }

  lemma StoreOnly(g: History, t: nat, slot: Slot)
    requires t < |g.hist| && |g.bounds| == |g.at| == |g.hist| + 1 && g.bounds[t] + g.hist[t].used < |g.log|
    ensures OnlyTicket(g, AfterStore(g, t, slot), t)
  {
  }

  lemma StoreHold(k: Fields, g: History, k': Fields, g': History, writers: map<nat, Writer>, t: nat, slot: Slot)
    requires Inv(k, g) && WritersHold(k, g, writers) && t in writers && 0 < writers[t].howmany
    requires writers[t].j < k.n && g.bounds[t] + g.hist[t].used < g.bounds[t + 1] <= |g.log|
    requires k' == Stored(k, writers[t], slot) && g' == AfterStore(g, t, slot) && Sized(k') && Shaped(g', k.n)
    ensures WritersHold(k', g', writers[t := StoredWriter(k, writers[t])])
  {
    WriterInRange(k, g, t, writers[t]);
    StoreHolds(k, g, t, writers[t], slot);
    StoreOnly(g, t, slot);
    OthersHold(k, g, k', g', writers, t);
  }

  lemma StoreGood(s: System, t: nat, slot: Slot) returns (s': System)
    requires Good(s) && Enabled(s, Store(t, slot))
    ensures s' == DoStore(s, t, slot) && Good(s')
  {
    var k', g' := StoreKeeps(s.k, s.g, t, s.writers[t], slot);
    StoreHold(s.k, s.g, k', g', s.writers, t, slot);
    s' := System(k', s.writers[t := StoredWriter(s.k, s.writers[t])], g');
  }

  /** The first half of a completion. */
  lemma SettleBoth(k: Fields, g: History, t: nat, w: Writer) returns (k1: Fields, g1: History, w1: Writer)
    requires Inv(k, g) && Holds(k, g, t, w)
    ensures w.j < k.n && w.howmany <= k.n && g.bounds[t] + g.hist[t].used <= g.bounds[t + 1] <= |g.log| && w.leaseIdx < k.n
    ensures k1 == Settled(k, w) && k1.hwtail == k.hwtail && k1.n == k.n && g1 == AfterSettle(g, t, w, k.n) && Inv(k1, g1)
    ensures w1 == w.(j := EndOf(k, w), howmany := 0) && Holds(k1, g1, t, w1)
  {
    WriterInRange(k, g, t, w);
    k1, g1 := SettleKeeps(k, g, t, w);
    SettleHolds(k, g, t, w);
    w1 := w.(j := EndOf(k, w), howmany := 0);
  }

  /** Completing keeps the invariant. */
  lemma CompleteKeeps(k: Fields, g: History, t: nat, w: Writer) returns (k': Fields, g': History)
    requires Inv(k, g) && Holds(k, g, t, w)
    ensures w.j < k.n && w.howmany <= k.n && g.bounds[t] + g.hist[t].used <= g.bounds[t + 1] <= |g.log|
    ensures k' == Completed(k, w) && g' == AfterComplete(k, g, t, w)
    ensures Inv(k', g')
  {
    var k1, g1, w1 := SettleBoth(k, g, t, w);
    k', g' := ReportKeeps(k1, g1, t, w1);
  }

  lemma SettleOnly(g: History, t: nat, w: Writer, n: nat)
    requires Shaped(g, n) && t < |g.hist| && g.bounds[t] + g.hist[t].used <= g.bounds[t + 1] <= |g.log|
    ensures OnlyTicket(g, AfterSettle(g, t, w, n), t)
  {
  }

  lemma ReportOnly(g: History, g1: History, t: nat, scan: bool)
    requires OnlyTicket(g, g1, t)
    ensures OnlyTicket(g, AfterReport(g1, t, scan), t) && AfterReport(g1, t, scan).hist[t].status != Held
  {
  }

  lemma CompleteOnly(k: Fields, g: History, t: nat, w: Writer)
    requires Inv(k, g) && Holds(k, g, t, w) && g.bounds[t] + g.hist[t].used <= g.bounds[t + 1] <= |g.log|
    ensures OnlyTicket(g, AfterComplete(k, g, t, w), t) && AfterComplete(k, g, t, w).hist[t].status != Held
  {
    SettleOnly(g, t, w, k.n);
    ReportOnly(g, AfterSettle(g, t, w, k.n), t, w.myStart == k.hwtail);
  }

  lemma CompleteHold(k: Fields, g: History, k': Fields, g': History, writers: map<nat, Writer>, t: nat)
    requires Inv(k, g) && WritersHold(k, g, writers) && t in writers && Sized(k') && Shaped(g', k.n)
    requires g.bounds[t] + g.hist[t].used <= g.bounds[t + 1] <= |g.log| && g' == AfterComplete(k, g, t, writers[t])
    requires k'.n == k.n && k'.leaseIdx == k.leaseIdx && k'.hwcur == k.hwcur
    ensures WritersHold(k', g', writers - {t})
  {
    CompleteOnly(k, g, t, writers[t]);
    OthersHold(k, g, k', g', writers, t);
  }

  lemma CompleteGood(s: System, t: nat) returns (s': System)
    requires Good(s) && Enabled(s, Complete(t))
    ensures s' == DoComplete(s, t) && Good(s')
  {
    var k', g' := CompleteKeeps(s.k, s.g, t, s.writers[t]);
    CompleteHold(s.k, s.g, k', g', s.writers, t);
    s' := System(k', s.writers - {t}, g');
  }

  lemma SyncHolds(k: Fields, g: History, head: nat, t: nat, w: Writer)
    requires Inv(k, g) && Holds(k, g, t, w) && head < k.n && Dist(k.hwcur, head, k.n) <= g.bounds[g.base] - g.aCur
    requires Sized(Synced(k, head)) && Shaped(AfterSync(k, g, head), k.n)
    ensures Holds(Synced(k, head), AfterSync(k, g, head), t, w)
  {
    WriterInRange(k, g, t, w);
    if 0 < w.howmany {
      AtAt(k.hwcur, Dist(k.hwcur, head, k.n), g.bounds[t] + g.hist[t].used - g.aCur - Dist(k.hwcur, head, k.n), k.n);
    }
  }

  lemma SyncGood(s: System, head: nat) returns (s': System)
    requires Good(s) && Enabled(s, RxSync(head))
    ensures s' == Step(s, RxSync(head)) && Good(s')
  {
    var k', g' := SyncKeeps(s.k, s.g, head);
    forall t | t in s.writers
      ensures Holds(k', g', t, s.writers[t])
    {
      SyncHolds(s.k, s.g, head, t, s.writers[t]);
    }
    s' := System(k', s.writers, g');
  }

  lemma UserHolds(k: Fields, g: History, slots: seq<Slot>, writers: map<nat, Writer>)
    requires Sized(k) && Shaped(g, k.n) && WritersHold(k, g, writers) && |slots| == k.n
    ensures WritersHold(k.(slots := slots), g, writers)
  {
    forall t | t in writers
      ensures Holds(k.(slots := slots), g, t, writers[t])
    {
      assert Holds(k, g, t, writers[t]);
    }
  }

  lemma StepGood(s: System, e: Event) returns (s': System)
    requires Good(s) && Enabled(s, e)
    ensures s' == Step(s, e) && Good(s') == true
  {
    match e
    case Reserve(needed) => s' := ReserveGood(s, needed);
    case Store(t, slot) => s' := StoreGood(s, t, slot);
    case Complete(t) => s' := CompleteGood(s, t);
    case RxSync(head) => s' := SyncGood(s, head);
    case UserWrites(slots) =>
      UserKeeps(s.k, s.g, slots);
      UserHolds(s.k, s.g, slots, s.writers);
      s' := System(s.k.(slots := slots), s.writers, s.g);
  }

  /* ---- runs ---- */

  /** The ring as netmap_vp_krings_create leaves it. */
  ghost function Initial(n: nat, slots: seq<Slot>): System {
    System(Fields(n, 0, 0, 0, 0, 0, seq(n, _ => 0), slots), map[], History(0, 0, [], [0], [0], 0, []))
  }

  lemma StepIsGood(s: System, e: Event)
    requires Good(s) && Enabled(s, e)
    ensures Good(Step(s, e))
  {
    var s' := StepGood(s, e);
  }

  /** s' is reached from s by these events, each of them enabled. */
  ghost predicate Run(s: System, es: seq<Event>, s': System)
    requires Good(s)
    decreases |es|
  {
    if es == [] then s' == s
    else Enabled(s, es[0]) && (StepIsGood(s, es[0]); Run(Step(s, es[0]), es[1..], s'))
  }

  lemma InitialGood(n: nat, slots: seq<Slot>)
    requires 0 < n < NOSLOT && |slots| == n
    ensures Good(Initial(n, slots))
  {
  }

  /** What the reader has been or will be shown: everything published, in ticket order. */
  ghost function Stream(g: History): seq<Slot>
    requires g.base < |g.bounds| && g.bounds[g.base] <= |g.log|
  {
    g.log[..g.bounds[g.base]]
  }

  /** The block of an active writer lies between hwtail and hwlease. */
  lemma BlockOfWriter(s: System, t: nat, a: nat)
    requires Good(s) && t in s.writers && s.g.bounds[t] <= a < s.g.bounds[t + 1]
    ensures s.g.base <= t && s.g.bounds[s.g.base] <= a < |s.g.log| < s.g.aCur + s.k.n
  {
    assert s.g.hist[t].status == Held;
    BlockIsBusy(s.g, s.k.n, t);
  }

  /** A writer touches no slot between hwcur and hwtail. */
  lemma WritesBeyondTail(s: System, t: nat, a: nat)
    requires Good(s) && t in s.writers && s.g.bounds[t] <= a < s.g.bounds[t + 1]
    ensures s.g.aCur <= a < s.g.aCur + s.k.n
    ensures Dist(s.k.hwcur, s.k.hwtail, s.k.n) <= Dist(s.k.hwcur, At(s.k.hwcur, a - s.g.aCur, s.k.n), s.k.n)
  {
    BlockOfWriter(s, t, a);
    DistAt(s.k.hwcur, a - s.g.aCur, s.k.n);
    assert s.k.hwtail == s.g.at[s.g.base];
    DistAt(s.k.hwcur, s.g.bounds[s.g.base] - s.g.aCur, s.k.n);
  }

  /** No writer touches a slot of another writer. */
  lemma ExclusiveSlots(s: System, t: nat, u: nat, a: nat, b: nat)
    requires Good(s) && t in s.writers && u in s.writers && t < u
    requires s.g.bounds[t] <= a < s.g.bounds[t + 1] && s.g.bounds[u] <= b < s.g.bounds[u + 1]
    ensures s.g.aCur <= a < b < s.g.aCur + s.k.n
    ensures At(s.k.hwcur, a - s.g.aCur, s.k.n) != At(s.k.hwcur, b - s.g.aCur, s.k.n)
  {
    BlockOfWriter(s, t, a);
    BlockOfWriter(s, u, b);
    Monotone(s.g.hist, s.g.bounds, t + 1, u);
    DistAt(s.k.hwcur, a - s.g.aCur, s.k.n);
    DistAt(s.k.hwcur, b - s.g.aCur, s.k.n);
  }

  /** hwtail never passes a slot of an unfinished writer. */
  lemma NeverPassed(s: System, t: nat)
    requires Good(s) && t in s.writers && s.g.bounds[t] < s.g.bounds[t + 1]
    ensures s.g.bounds[s.g.base] <= s.g.bounds[t]
  {
    assert Holds(s.k, s.g, t, s.writers[t]);
    assert s.g.hist[t].status == Held;
    BlockIsBusy(s.g, s.k.n, t);
  }

  /** No finished block is stranded: with no writer active, everything reserved is published. */
  lemma NothingStranded(s: System)
    requires Good(s) && s.writers == map[]
    ensures s.k.hwtail == s.k.hwlease && s.g.bounds[s.g.base] == |s.g.log|
  {
    assert |s.g.hist| <= s.g.base || s.g.base in s.writers;
  }

  /* ---- what the reader sees ---- */

  lemma SettleStream(k: Fields, g: History, t: nat, w: Writer)
    requires Inv(k, g) && Holds(k, g, t, w) && g.bounds[t] + g.hist[t].used <= g.bounds[t + 1] <= |g.log|
    ensures var g' := AfterSettle(g, t, w, k.n);
            g'.base == g.base && g'.base < |g'.bounds| && g'.bounds[g.base] <= |g'.log| && Stream(g') == Stream(g)
  {
    WriterInRange(k, g, t, w);
  }

  lemma ReportStream(g: History, n: nat, t: nat, scan: bool)
    requires Shaped(g, n) && Tiled(g.hist, g.bounds) && t < |g.hist|
    ensures var g' := AfterReport(g, t, scan);
            g'.base < |g'.bounds| && g'.bounds[g'.base] <= |g'.log| && Stream(g) <= Stream(g')
  {
    var u := FirstOpen(g.hist[t := g.hist[t].(status := Done)], t);
    Monotone(g.hist, g.bounds, u, |g.hist|);
    if g.base <= t {
      Monotone(g.hist, g.bounds, g.base, u);
    }
  }

  lemma CompleteStream(s: System, t: nat)
    requires Good(s) && Enabled(s, Complete(t)) && Good(DoComplete(s, t))
    ensures Stream(s.g) <= Stream(DoComplete(s, t).g)
  {
    var w := s.writers[t];
    WriterInRange(s.k, s.g, t, w);
    SettleStream(s.k, s.g, t, w);
    var k1, g1 := SettleKeeps(s.k, s.g, t, w);
    ReportStream(g1, s.k.n, t, w.myStart == s.k.hwtail);
  }

  lemma StoreStream(s: System, t: nat, slot: Slot)
    requires Good(s) && Enabled(s, Store(t, slot)) && Good(DoStore(s, t, slot))
    ensures Stream(s.g) <= Stream(DoStore(s, t, slot).g)
  {
    WriterInRange(s.k, s.g, t, s.writers[t]);
  }

  lemma ReserveStream(s: System, needed: nat)
    requires Good(s) && Enabled(s, Reserve(needed)) && Good(Step(s, Reserve(needed)))
    ensures Stream(s.g) <= Stream(Step(s, Reserve(needed)).g)
  {
  }

  /** What has been published is never changed or withdrawn. */
  lemma StepStream(s: System, e: Event) returns (s': System)
    requires Good(s) && Enabled(s, e)
    ensures s' == Step(s, e) && Good(s') && Stream(s.g) <= Stream(s'.g)
  {
    s' := StepGood(s, e);
    match e
    case Store(t, slot) => StoreStream(s, t, slot);
    case Complete(t) => CompleteStream(s, t);
    case Reserve(needed) => ReserveStream(s, needed);
    case RxSync(_) =>
    case UserWrites(_) =>
  }

  /** The slots from rtail up to hwtail are the part of the stream that the user has not seen yet. */
  lemma ReaderSees(s: System, i: nat)
    requires Good(s) && s.g.aSeen + i < s.g.bounds[s.g.base]
    ensures i < s.k.n && s.k.slots[At(s.k.rtail, i, s.k.n)] == Stream(s.g)[s.g.aSeen + i]
  {
    AtAt(s.k.hwcur, s.g.aSeen - s.g.aCur, i, s.k.n);
    assert s.g.log[s.g.aSeen + i] == s.k.slots[At(s.k.hwcur, s.g.aSeen + i - s.g.aCur, s.k.n)];
  }

  /** In every run, from any good state: the invariant, and a stream that only grows. */
  lemma {:induction false} RunSafe(s: System, es: seq<Event>, s': System)
    requires Good(s) && Run(s, es, s')
    ensures Good(s') && Stream(s.g) <= Stream(s'.g)
    ensures s'.writers == map[] ==> s'.k.hwtail == s'.k.hwlease
    decreases |es|
  {
    if es != [] {
      var s1 := StepStream(s, es[0]);
      RunSafe(s1, es[1..], s');
    } else if s'.writers == map[] {
      NothingStranded(s');
    }
  }

  /* ---- empty leases are overtaken ---- */

  lemma FillThree(k: Fields, w: Writer, z: seq<Slot>)
    requires k == Fields(3, 0, 0, 0, 0, 0, [0, 0, 0], z) && |z| == 3 && w == Writer(0, 0, 2, 0)
    ensures Completed(Reserved(k, 2), w) == Fields(3, 0, 0, 2, 2, 1, [NOSLOT, 0, 0], z)
  {
    var k' := Reserved(k, 2);
    assert k' == Fields(3, 0, 0, 0, 2, 1, [NOSLOT, 0, 0], z);
    var p := k'.leases[0 := 2];
    assert p[0 := NOSLOT] == [NOSLOT, 0, 0];
    assert Scan(p, 0, 1, 2) == Scan(p[0 := NOSLOT], 1, 1, 2);
  }

  lemma PublishThree(k: Fields, w: Writer, z: seq<Slot>)
    requires k == Fields(3, 2, 2, 2, 0, 0, [NOSLOT, NOSLOT, NOSLOT], z) && |z| == 3 && w == Writer(2, 2, 0, 0)
    ensures Completed(k, w).hwtail == 0
  {
    var p := k.leases[2 := 0];
    assert Scan(p, 2, 0, 0) == Scan(p[2 := NOSLOT], 0, 0, 0);
  }

  /** From an empty ring of 3 slots: the writer of lease 0 fills the ring, so the writer of lease 1 gets
      an empty lease (a); after the reader has released the slots (b), the writer of lease 2 reserves (c)
      and publishes past lease 1. */
  lemma EmptyLeaseIsOvertaken(k: Fields, w0: Writer, w2: Writer) returns (full: Fields, a: Fields, b: Fields, c: Fields)
    requires k.n == 3 && k.hwcur == k.rtail == k.hwtail == k.hwlease == k.leaseIdx == 0 && k.leases == [0, 0, 0]
    requires |k.slots| == 3 && forall x :: 0 <= x < 3 ==> k.slots[x].flags == 0
    requires w0 == Writer(0, 0, 2, 0) && w2 == Writer(2, 2, 0, 0)
    ensures full == Completed(Reserved(k, 2), w0) && Sized(full)
    ensures a == Reserved(full, 1) && Sized(a) && ReservedWriter(full, 1).howmany == 0
    ensures b == Synced(a, 2) && Sized(b)
    ensures c == Reserved(b, 1) && Sized(c) && c.hwtail == 2 && Completed(c, w2).hwtail == 0
  {
    FillThree(k, w0, k.slots);
    full := Completed(Reserved(k, 2), w0);
    a := Reserved(full, 1);
    assert a == Fields(3, 0, 0, 2, 2, 2, [NOSLOT, NOSLOT, 0], k.slots);
    assert Released(k.slots, 0, 2) == k.slots;
    b := Synced(a, 2);
    c := Reserved(b, 1);
    assert c == Fields(3, 2, 2, 2, 0, 0, [NOSLOT, NOSLOT, NOSLOT], k.slots);
    PublishThree(c, w2, k.slots);
  }
}
