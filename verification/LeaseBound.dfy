/** The lease protocol without the bound on outstanding leases.

    Reports are stored in a ring of their own, with as many entries as the ring has slots.  Once as many leases are
    outstanding, the report index of the oldest one is also where the scan stops, so blocks behind it are missed. */
module LeaseBound {
  import opened Ring
  import opened KringModel
  import opened Lease
  import opened LeaseRuns

  /** The ring, the active writers by the number of their lease, and how many leases were ever issued. */
  datatype Free = Free(k: Fields, writers: map<nat, Writer>, issued: nat)

  /** The variables of a writer are in range. */
  predicate Local(w: Writer, n: nat) {
    w.leaseIdx < n && w.myStart < n && w.j < n && w.howmany <= n
  }

  /** What each party may do next, however many leases are outstanding. */
  predicate May(s: Free, e: Event) {
    && Sized(s.k)
    && match e
       case Reserve(_) => s.issued !in s.writers
       case Store(t, _) => t in s.writers && Local(s.writers[t], s.k.n) && 0 < s.writers[t].howmany
       case Complete(t) => t in s.writers && Local(s.writers[t], s.k.n)
       case RxSync(head) => head < s.k.n && Dist(s.k.hwcur, head, s.k.n) <= Dist(s.k.hwcur, s.k.hwtail, s.k.n)
       case UserWrites(slots) => |slots| == s.k.n
  }

  function Do(s: Free, e: Event): Free
    requires May(s, e)
  {
    match e
    case Reserve(needed) => Free(Reserved(s.k, needed), s.writers[s.issued := ReservedWriter(s.k, needed)], s.issued + 1)
    case Store(t, slot) =>
      s.(k := Stored(s.k, s.writers[t], slot), writers := s.writers[t := StoredWriter(s.k, s.writers[t])])
    case Complete(t) => s.(k := Completed(s.k, s.writers[t]), writers := s.writers - {t})
    case RxSync(head) => s.(k := Synced(s.k, head))
    case UserWrites(slots) => s.(k := s.k.(slots := slots))
  }

  predicate Leads(s: Free, es: seq<Event>, s': Free)
    decreases |es|
  {
    if es == [] then s == s' else May(s, es[0]) && Leads(Do(s, es[0]), es[1..], s')
  }

  ghost predicate Reaches(s: Free, s': Free) {
    exists es :: Leads(s, es, s')
  }

  /** A ring as it is created. */
  function Start(n: nat): Free {
    Free(Fields(n, 0, 0, 0, 0, 0, seq(n, _ => 0), seq(n, _ => Slot(0, 0, 0))), map[], 0)
  }

  /* ---- a finished block that was missed stays unpublished ---- */

  /** The writer started beyond hwtail and stays before hwcur. */
  predicate Beyond(k: Fields, w: Writer)
    requires Sized(k)
  {
    && Local(w, k.n) && Dist(k.hwcur, k.hwtail, k.n) < Dist(k.hwcur, w.myStart, k.n) <= Dist(k.hwcur, w.j, k.n)
    && Dist(k.hwcur, w.j, k.n) + w.howmany <= k.n - 1
  }

  /** Slots are reserved beyond hwtail, but by no active writer that started there. */
  ghost predicate Stuck(s: Free) {
    && Sized(s.k) && Dist(s.k.hwcur, s.k.hwtail, s.k.n) < Dist(s.k.hwcur, s.k.hwlease, s.k.n)
    && forall t {:trigger s.writers[t]} :: t in s.writers ==> Beyond(s.k, s.writers[t])
  }

  lemma BeyondAfterSync(k: Fields, w: Writer, head: nat)
    requires Sized(k) && Beyond(k, w) && head < k.n && Dist(k.hwcur, head, k.n) <= Dist(k.hwcur, k.hwtail, k.n)
    ensures Sized(Synced(k, head)) && Beyond(Synced(k, head), w)
  {
    DistAdd(k.hwcur, head, k.hwtail, k.n);
    DistAdd(k.hwcur, head, w.myStart, k.n);
    DistAdd(k.hwcur, head, w.j, k.n);
  }

  lemma BeyondReserved(k: Fields, needed: nat)
    requires Sized(k) && Dist(k.hwcur, k.hwtail, k.n) < Dist(k.hwcur, k.hwlease, k.n)
    ensures var k' := Reserved(k, needed);
            && Sized(k') && k'.hwtail == k.hwtail && k'.hwcur == k.hwcur
            && Dist(k.hwcur, k'.hwlease, k.n) == Dist(k.hwcur, k.hwlease, k.n) + Granted(k, needed)
            && Beyond(k', ReservedWriter(k, needed))
  {
    AtAt(k.hwcur, Dist(k.hwcur, k.hwlease, k.n), Granted(k, needed), k.n);
    DistAt(k.hwcur, Dist(k.hwcur, k.hwlease, k.n) + Granted(k, needed), k.n);
  }

  lemma BeyondStored(k: Fields, w: Writer, slot: Slot)
    requires Sized(k) && Beyond(k, w) && 0 < w.howmany
    ensures Sized(Stored(k, w, slot)) && Beyond(Stored(k, w, slot), StoredWriter(k, w))
  {
    assert Dist(k.hwcur, Next(w.j, k.n - 1), k.n) == Dist(k.hwcur, w.j, k.n) + 1;
  }

  lemma StuckReserve(s: Free, needed: nat)
    requires Stuck(s) && May(s, Reserve(needed))
    ensures Stuck(Do(s, Reserve(needed)))
  {
    BeyondReserved(s.k, needed);
    var s' := Do(s, Reserve(needed));
    forall t | t in s'.writers ensures Beyond(s'.k, s'.writers[t]) {
      assert t == s.issued || Beyond(s.k, s.writers[t]);
    }
  }

  lemma StuckStore(s: Free, t: nat, slot: Slot)
    requires Stuck(s) && May(s, Store(t, slot))
    ensures Stuck(Do(s, Store(t, slot)))
  {
    BeyondStored(s.k, s.writers[t], slot);
    var s' := Do(s, Store(t, slot));
    forall u | u in s'.writers ensures Beyond(s'.k, s'.writers[u]) {
      assert u == t || Beyond(s.k, s.writers[u]);
    }
  }

  lemma StuckComplete(s: Free, t: nat)
    requires Stuck(s) && May(s, Complete(t))
    ensures Stuck(Do(s, Complete(t))) && Do(s, Complete(t)).k.hwtail == s.k.hwtail
  {
    assert Beyond(s.k, s.writers[t]);
  }

  lemma StuckSync(s: Free, head: nat)
    requires Stuck(s) && May(s, RxSync(head))
    ensures Stuck(Do(s, RxSync(head)))
  {
    DistAdd(s.k.hwcur, head, s.k.hwtail, s.k.n);
    DistAdd(s.k.hwcur, head, s.k.hwlease, s.k.n);
    forall t | t in s.writers ensures Beyond(Synced(s.k, head), s.writers[t]) {
      BeyondAfterSync(s.k, s.writers[t], head);
    }
  }

  /** No step moves hwtail, or makes it possible for a later one to do so. */
  lemma StuckStep(s: Free, e: Event)
    requires Stuck(s) && May(s, e)
    ensures Stuck(Do(s, e)) && Do(s, e).k.hwtail == s.k.hwtail
  {
    match e
    case Reserve(needed) => StuckReserve(s, needed);
    case Store(t, slot) => StuckStore(s, t, slot);
    case Complete(t) => StuckComplete(s, t);
    case RxSync(head) => StuckSync(s, head);
    case UserWrites(slots) =>
  }

  lemma {:induction false} StuckForEver(s: Free, es: seq<Event>, s': Free)
    requires Stuck(s) && Leads(s, es, s')
    ensures Stuck(s') && s'.k.hwtail == s.k.hwtail
    decreases |es|
  {
    if es != [] {
      StuckStep(s, es[0]);
      StuckForEver(Do(s, es[0]), es[1..], s');
    }
  }

  /* ---- otherwise it can move ---- */

  /** A writer that is alone publishes the slot it stored. */
  lemma PublishesOne(k: Fields, slot: Slot) returns (k': Fields)
    requires Sized(k) && 2 <= k.n && k.hwcur == k.hwtail == k.hwlease
    ensures var w := ReservedWriter(k, 1);
            && Sized(Reserved(k, 1)) && w.howmany == 1 && Local(w, k.n)
            && k' == Stored(Reserved(k, 1), w, slot) && Sized(k') && StoredWriter(k', w).howmany == 0
            && Completed(k', StoredWriter(k', w)).hwtail == Next(k.hwtail, k.n - 1)
  {
    var w := ReservedWriter(k, 1);
    k' := Stored(Reserved(k, 1), w, slot);
    var w', end := StoredWriter(k', w), Next(k.hwtail, k.n - 1);
    var p := k'.leases[w.leaseIdx := end];
    assert Scan(p, w.leaseIdx, k'.leaseIdx, end) == Scan(p[w.leaseIdx := NOSLOT], k'.leaseIdx, k'.leaseIdx, end);
  }

  lemma {:induction false} LeadsAppend(s: Free, es: seq<Event>, s': Free, e: Event)
    requires Leads(s, es, s') && May(s', e)
    ensures Leads(s, es + [e], Do(s', e))
    decreases |es|
  {
    if es == [] {
      assert [e][1..] == [];
    } else {
      LeadsAppend(Do(s, es[0]), es[1..], s', e);
      assert (es + [e])[1..] == es[1..] + [e];
    }
  }

  /** One step further. */
  lemma ReachesNext(s: Free, es: seq<Event>, s': Free, e: Event) returns (es': seq<Event>, s'': Free)
    requires Leads(s, es, s') && May(s', e)
    ensures s'' == Do(s', e) && Leads(s, es', s'')
  {
    es', s'' := es + [e], Do(s', e);
    LeadsAppend(s, es, s', e);
  }

  /** A writer reserves and stores one slot. */
  lemma StoresNext(s0: Free, es: seq<Event>, s: Free, slot: Slot) returns (es': seq<Event>, s': Free)
    requires Leads(s0, es, s) && Sized(s.k) && 2 <= s.k.n && s.writers == map[] && s.k.hwcur == s.k.hwtail == s.k.hwlease
    ensures Leads(s0, es', s') && May(s', Complete(s.issued)) && s'.writers[s.issued].howmany == 0
    ensures Completed(s'.k, s'.writers[s.issued]).hwtail == Next(s.k.hwtail, s.k.n - 1)
  {
    var k2 := PublishesOne(s.k, slot);
    var es1, s1 := ReachesNext(s0, es, s, Reserve(1));
    assert s1.writers[s.issued] == ReservedWriter(s.k, 1);
    es', s' := ReachesNext(s0, es1, s1, Store(s.issued, slot));
  }

  /** From an empty ring one packet is published. */
  lemma PublishesNext(s0: Free, es: seq<Event>, s: Free) returns (s': Free)
    requires Leads(s0, es, s) && Sized(s.k) && 2 <= s.k.n && s.writers == map[] && s.k.hwcur == s.k.hwtail == s.k.hwlease
    ensures Reaches(s0, s') && s'.k.hwtail == Next(s.k.hwtail, s.k.n - 1)
  {
    var es2, s2 := StoresNext(s0, es, s, Slot(0, 0, 0));
    var es3;
    es3, s' := ReachesNext(s0, es2, s2, Complete(s.issued));
  }

  /** With nothing reserved beyond hwtail, one more packet is published. */
  lemma CanMove(s: Free) returns (s': Free)
    requires Sized(s.k) && 2 <= s.k.n && s.writers == map[] && s.k.hwtail == s.k.hwlease
    ensures Reaches(s, s') && s'.k.hwtail != s.k.hwtail
  {
    var es, s1 := ReachesNext(s, [], s, RxSync(s.k.hwtail));
    s' := PublishesNext(s, es, s1);
  }

  /** With no writer active, what was reserved beyond hwtail is lost for ever, whatever the parties do; and hwtail can
      move again exactly if nothing was. */
  lemma StrandedForEver(s: Free)
    requires Sized(s.k) && 2 <= s.k.n && s.writers == map[]
    requires Dist(s.k.hwcur, s.k.hwtail, s.k.n) <= Dist(s.k.hwcur, s.k.hwlease, s.k.n)
    ensures (forall s' :: Reaches(s, s') ==> s'.k.hwtail == s.k.hwtail) <==> s.k.hwtail != s.k.hwlease
  {
    if s.k.hwtail != s.k.hwlease {
      forall s' | Reaches(s, s') ensures s'.k.hwtail == s.k.hwtail {
        var es :| Leads(s, es, s');
        StuckForEver(s, es, s');
      }
    } else {
      var s' := CanMove(s);
    }
  }

  /* ---- the bound is tight for every ring ---- */

  /** Lease 0 has stored its slot and is held, and i - 1 later ones have stored a slot each and completed. */
  predicate Blocked(s: Free, n: nat, i: nat) {
    && Sized(s.k) && s.k.n == n && 1 <= i < n && s.k.hwcur == s.k.hwtail == 0 && s.k.hwlease == s.k.leaseIdx == i
    && s.issued == i && s.writers == map[0 := Writer(0, 0, 1, 0)]
  }

  /** One more lease is issued behind lease 0, and completed. */
  lemma OneBehind(n: nat, s: Free, es: seq<Event>, i: nat) returns (es': seq<Event>, s': Free)
    requires Leads(Start(n), es, s) && Blocked(s, n, i) && i < n - 1
    ensures Leads(Start(n), es', s') && Blocked(s', n, i + 1)
  {
    var slot := Slot(0, 0, 0);
    var s1 := Do(s, Reserve(1));
    LeadsAppend(Start(n), es, s, Reserve(1));
    assert s1.writers == map[0 := Writer(0, 0, 1, 0), i := Writer(i, i, i, 1)];
    var s2 := Do(s1, Store(i, slot));
    LeadsAppend(Start(n), es + [Reserve(1)], s1, Store(i, slot));
    assert s2.writers == map[0 := Writer(0, 0, 1, 0), i := Writer(i, i, i + 1, 0)];
    s' := Do(s2, Complete(i));
    es' := es + [Reserve(1)] + [Store(i, slot)] + [Complete(i)];
    LeadsAppend(Start(n), es + [Reserve(1)] + [Store(i, slot)], s2, Complete(i));
    assert s'.writers == map[0 := Writer(0, 0, 1, 0)];
  }

  lemma {:induction false} ManyBehind(n: nat, i: nat) returns (es: seq<Event>, s: Free)
    requires 2 <= n < NOSLOT && 1 <= i < n
    ensures Leads(Start(n), es, s) && Blocked(s, n, i)
  {
    if i == 1 {
      var slot := Slot(0, 0, 0);
      var s0 := Start(n);
      var s1 := Do(s0, Reserve(1));
      LeadsAppend(s0, [], s0, Reserve(1));
      assert s1.writers == map[0 := Writer(0, 0, 0, 1)];
      s := Do(s1, Store(0, slot));
      es := [] + [Reserve(1)] + [Store(0, slot)];
      LeadsAppend(s0, [] + [Reserve(1)], s1, Store(0, slot));
    } else {
      es, s := ManyBehind(n, i - 1);
      es, s := OneBehind(n, s, es, i - 1);
    }
  }

  /** On every ring of at least 3 slots, n leases are enough: all writers have completed, and all blocks but the first
      stay unpublished whatever happens next. */
  lemma StrandedAtTheBound(n: nat) returns (s: Free)
    requires 3 <= n < NOSLOT
    ensures Reaches(Start(n), s) && s.issued == n && s.writers == map[] && s.k.hwtail == 1 && s.k.hwlease == n - 1
    ensures forall s' :: Reaches(s, s') ==> s'.k.hwtail == 1
  {
    var es, s1 := ManyBehind(n, n - 1);
    var s2 := Do(s1, Reserve(1));
    LeadsAppend(Start(n), es, s1, Reserve(1));
    assert s2.writers == map[0 := Writer(0, 0, 1, 0), n - 1 := Writer(n - 1, n - 1, n - 1, 0)];
    var s3 := Do(s2, Complete(n - 1));
    LeadsAppend(Start(n), es + [Reserve(1)], s2, Complete(n - 1));
    assert s3.writers == map[0 := Writer(0, 0, 1, 0)];
    s := Do(s3, Complete(0));
    LeadsAppend(Start(n), es + [Reserve(1)] + [Complete(n - 1)], s3, Complete(0));
    StrandedForEver(s);
  }

  /* ---- a ring of 2 slots needs no bound ---- */

  predicate HoldsNothing(w: Writer) {
    w.howmany == 0 && w.j == w.myStart
  }

  /** The writer holds the one slot, filled or not. */
  predicate HoldsSlot(w: Writer, hwtail: nat) {
    w.myStart == hwtail && if w.howmany == 1 then w.j == w.myStart else w.howmany == 0 && w.j == Next(w.myStart, 1)
  }

  /** At most one slot is reserved, and its writer is active. */
  ghost predicate OneSlot(s: Free, owner: nat) {
    && Sized(s.k) && s.k.n == 2
    && (forall t {:trigger s.writers[t]} :: t in s.writers ==> Local(s.writers[t], 2))
    && (forall t {:trigger s.writers[t]} :: t in s.writers && (t != owner || s.k.hwlease == s.k.hwtail) ==> HoldsNothing(s.writers[t]))
    && (s.k.hwlease != s.k.hwtail ==> s.k.hwcur == s.k.hwtail && owner in s.writers && HoldsSlot(s.writers[owner], s.k.hwtail))
  }

  /** The scan of a report ring with 2 entries reaches one report at most. */
  lemma ScanOne(leases: seq<nat>, i: nat, stop: nat, j: nat)
    requires |leases| == 2 && i < 2 && stop < 2 && leases[i] == j < 2
    ensures Scan(leases, i, stop, j).1 == j
  {
    if i != stop {
      assert Scan(leases, i, stop, j) == Scan(leases[i := NOSLOT], Next(i, 1), stop, j);
    }
  }

  lemma CompletesSlot(k: Fields, w: Writer)
    requires Sized(k) && k.n == 2 && Local(w, 2) && k.hwcur == k.hwtail && k.hwlease != k.hwtail && HoldsSlot(w, k.hwtail)
    ensures Sized(Completed(k, w)) && Completed(k, w).hwtail == Completed(k, w).hwlease
  {
    var k1, e := Settled(k, w), EndOf(k, w);
    ScanOne(k1.leases[w.leaseIdx := e], w.leaseIdx, k1.leaseIdx, e);
  }

  lemma CompletesNothing(k: Fields, w: Writer)
    requires Sized(k) && k.n == 2 && Local(w, 2) && HoldsNothing(w)
    ensures Sized(Completed(k, w)) && Completed(k, w) == k.(leases := Completed(k, w).leases)
  {
    ScanOne(k.leases[w.leaseIdx := w.j], w.leaseIdx, k.leaseIdx, w.j);
  }

  lemma OneSlotStep(s: Free, e: Event, owner: nat) returns (owner': nat)
    requires OneSlot(s, owner) && May(s, e)
    ensures OneSlot(Do(s, e), owner')
  {
    owner' := owner;
    match e
    case Reserve(needed) =>
      if s.k.hwlease == s.k.hwtail { owner' := s.issued; }
    case Store(t, slot) => assert t == owner;
    case Complete(t) =>
      if HoldsNothing(s.writers[t]) { CompletesNothing(s.k, s.writers[t]); } else { CompletesSlot(s.k, s.writers[t]); }
    case RxSync(head) =>
    case UserWrites(slots) =>
  }

  /** On a ring of 2 slots, with any number of leases, nothing is ever stranded. */
  lemma {:induction false} TwoSlots(s: Free, es: seq<Event>, s': Free, owner: nat)
    requires OneSlot(s, owner) && Leads(s, es, s')
    ensures s'.writers == map[] ==> s'.k.hwtail == s'.k.hwlease
    decreases |es|
  {
    if es != [] {
      var o := OneSlotStep(s, es[0], owner);
      TwoSlots(Do(s, es[0]), es[1..], s', o);
    }
  }

  /** So a block can be stranded, however many leases are issued, exactly on rings of at least 3 slots. */
  lemma WhenTheBoundMatters(n: nat)
    requires 2 <= n < NOSLOT
    ensures (exists s :: Reaches(Start(n), s) && s.writers == map[] && s.k.hwtail != s.k.hwlease) <==> 3 <= n
  {
    if n == 2 {
      forall s | Reaches(Start(n), s) && s.writers == map[] ensures s.k.hwtail == s.k.hwlease {
        var es :| Leads(Start(n), es, s);
        TwoSlots(Start(n), es, s, 0);
      }
    } else {
      var s := StrandedAtTheBound(n);
    }
  }
}
