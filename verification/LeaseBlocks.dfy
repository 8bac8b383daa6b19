/** What becomes of the slots that one writer stores, whatever the others do in the meantime. */
module LeaseBlocks {
  import opened KringModel
  import opened Lease
  import opened LeaseRuns

  /** The slots that the writer of ticket t stores in these events. */
  ghost function StoresOf(es: seq<Event>, t: nat): seq<Slot> {
    if es == [] then [] else StoreOf(es[0], t) + StoresOf(es[1..], t)
  }

  ghost function StoreOf(e: Event, t: nat): seq<Slot> {
    if e.Store? && e.t == t then [e.slot] else []
  }

  /** The block of ticket t starts at position b with these slots; once the writer has completed, only empty packets
      follow in it. */
  ghost predicate Wrote(g: History, t: nat, b: nat, ss: seq<Slot>) {
    && |g.bounds| == |g.hist| + 1 && t < |g.hist| && g.bounds[t] == b && b + |ss| <= g.bounds[t + 1] <= |g.log|
    && (forall a {:trigger g.log[a]} :: b <= a < b + |ss| ==> g.log[a] == ss[a - b])
    && (g.hist[t].status == Held ==> g.hist[t].used == |ss|)
    && (g.hist[t].status != Held ==>
          forall a {:trigger g.log[a]} :: b + |ss| <= a < g.bounds[t + 1] ==> g.log[a].len == 0 && g.log[a].flags == 0)
  }

  lemma WroteStore(g: History, u: nat, slot: Slot, t: nat, b: nat, ss: seq<Slot>)
    requires Wrote(g, t, b, ss) && Tiled(g.hist, g.bounds)
    requires u < |g.hist| && g.hist[u].status == Held && g.bounds[u] + g.hist[u].used < g.bounds[u + 1] <= |g.log|
    ensures Wrote(AfterStore(g, u, slot), t, b, if u == t then ss + [slot] else ss)
  {
    if u < t {
      Monotone(g.hist, g.bounds, u + 1, t);
    } else if t < u {
      Monotone(g.hist, g.bounds, t + 1, u);
    }
  }

  /** The block is as the writer left it, with empty packets in the rest. */
  ghost predicate Closed(g: History, t: nat, b: nat, ss: seq<Slot>) {
    && |g.bounds| == |g.hist| + 1 && t < |g.hist| && g.bounds[t] == b && b + |ss| <= g.bounds[t + 1] <= |g.log|
    && (forall a {:trigger g.log[a]} :: b <= a < b + |ss| ==> g.log[a] == ss[a - b])
    && (forall a {:trigger g.log[a]} :: b + |ss| <= a < g.bounds[t + 1] ==> g.log[a].len == 0 && g.log[a].flags == 0)
  }

  lemma WroteSettle(g: History, u: nat, w: Writer, n: nat, t: nat, b: nat, ss: seq<Slot>)
    requires Wrote(g, t, b, ss) && Tiled(g.hist, g.bounds) && Shaped(g, n)
    requires u < |g.hist| && g.hist[u].status == Held
    requires g.bounds[u] + g.hist[u].used + w.howmany == g.bounds[u + 1] <= |g.log|
    ensures var g' := AfterSettle(g, u, w, n);
            if t == u then Closed(g', t, b, ss) else Wrote(g', t, b, ss)
  {
    if u < t {
      Monotone(g.hist, g.bounds, u + 1, t);
    } else if t < u {
      Monotone(g.hist, g.bounds, t + 1, u);
    }
  }

  /** A report changes the states of tickets only, and makes none held. */
  lemma WroteReport(g: History, u: nat, scan: bool, t: nat, b: nat, ss: seq<Slot>)
    requires u < |g.hist| && if t == u then Closed(g, t, b, ss) else Wrote(g, t, b, ss)
    ensures Wrote(AfterReport(g, u, scan), t, b, ss)
  {
  }

  /** What is known of an active writer. */
  lemma Active(s: System, u: nat)
    requires Good(s) && u in s.writers
    ensures Shaped(s.g, s.k.n) && Tiled(s.g.hist, s.g.bounds) && u < |s.g.hist| && s.g.hist[u].status == Held
    ensures s.g.bounds[u] + s.g.hist[u].used + s.writers[u].howmany == s.g.bounds[u + 1] <= |s.g.log|
  {
    assert Holds(s.k, s.g, u, s.writers[u]);
    WriterInRange(s.k, s.g, u, s.writers[u]);
  }

  lemma WroteComplete(s: System, u: nat, t: nat, b: nat, ss: seq<Slot>)
    requires Good(s) && Enabled(s, Complete(u)) && Wrote(s.g, t, b, ss)
    ensures Wrote(DoComplete(s, u).g, t, b, ss)
  {
    Active(s, u);
    var w := s.writers[u];
    WroteSettle(s.g, u, w, s.k.n, t, b, ss);
    WroteReport(AfterSettle(s.g, u, w, s.k.n), u, w.myStart == s.k.hwtail, t, b, ss);
  }

  lemma WroteReserve(k: Fields, g: History, needed: nat, t: nat, b: nat, ss: seq<Slot>)
    requires Sized(k) && Wrote(g, t, b, ss) && |g.log| == g.bounds[|g.hist|]
    ensures Wrote(AfterReserve(k, g, needed), t, b, ss)
  {
  }

  lemma WroteSame(g: History, g': History, t: nat, b: nat, ss: seq<Slot>)
    requires Wrote(g, t, b, ss) && g'.hist == g.hist && g'.bounds == g.bounds && g'.log == g.log
    ensures Wrote(g', t, b, ss)
  {
  }

  lemma WroteByStore(s: System, u: nat, slot: Slot, t: nat, b: nat, ss: seq<Slot>)
    requires Good(s) && Enabled(s, Store(u, slot)) && Wrote(s.g, t, b, ss)
    ensures Wrote(DoStore(s, u, slot).g, t, b, ss + StoreOf(Store(u, slot), t)) == true
  {
    assert ss + [] == ss;
    Active(s, u);
    WroteStore(s.g, u, slot, t, b, ss);
  }

  lemma WroteStep(s: System, e: Event, t: nat, b: nat, ss: seq<Slot>)
    requires Good(s) && Enabled(s, e) && Wrote(s.g, t, b, ss)
    ensures Wrote(Step(s, e).g, t, b, ss + StoreOf(e, t)) == true
  {
    assert ss + [] == ss;
    match e
    case Store(u, slot) => WroteByStore(s, u, slot, t, b, ss);
    case Complete(u) => WroteComplete(s, u, t, b, ss);
    case Reserve(needed) => WroteReserve(s.k, s.g, needed, t, b, ss);
    case RxSync(_) => WroteSame(s.g, Step(s, e).g, t, b, ss);
    case UserWrites(_) =>
  }

  lemma StoresFirst(es: seq<Event>, t: nat, ss: seq<Slot>)
    requires es != []
    ensures (ss + StoreOf(es[0], t)) + StoresOf(es[1..], t) == ss + StoresOf(es, t)
  {
  }

  /** In every run: what a writer stores is kept together, in its order. */
  lemma {:induction false} WroteRun(s: System, es: seq<Event>, s': System, t: nat, b: nat, ss: seq<Slot>)
    requires Good(s) && Run(s, es, s') && Wrote(s.g, t, b, ss)
    ensures Good(s') && Wrote(s'.g, t, b, ss + StoresOf(es, t))
    decreases |es|
  {
    if es == [] {
      assert ss + [] == ss;
    } else {
      WroteStep(s, es[0], t, b, ss);
      var s1 := StepGood(s, es[0]);
      StoresFirst(es, t, ss);
      WroteRun(s1, es[1..], s', t, b, ss + StoreOf(es[0], t));
    }
  }

  /** The slots of ticket t are in the stream from position b on, up to `end`; empty packets follow them. */
  ghost predicate InStream(stream: seq<Slot>, b: nat, end: nat, ss: seq<Slot>) {
    && b + |ss| <= end <= |stream| && stream[b..b + |ss|] == ss
    && forall a {:trigger stream[a]} :: b + |ss| <= a < end ==> stream[a].len == 0 && stream[a].flags == 0
  }

  lemma AllPublished(s: System, t: nat, b: nat, ss: seq<Slot>)
    requires Good(s) && s.writers == map[] && Wrote(s.g, t, b, ss)
    ensures InStream(Stream(s.g), b, s.g.bounds[t + 1], ss)
  {
    NothingStranded(s);
    assert s.g.hist[t].status == Held ==> t in s.writers;
    assert Stream(s.g) == s.g.log;
  }

  lemma Issued(s: System, needed: nat)
    requires Good(s) && Enabled(s, Reserve(needed))
    ensures Wrote(Step(s, Reserve(needed)).g, |s.g.hist|, |s.g.log|, [])
    ensures |Stream(s.g)| <= |s.g.log|
  {
  }

  /** The whole story of one delivery: from the reservation on, in any interleaving with other writers and the reader,
      until no writer is active.  What the writer stored is in the stream, in one piece and behind all that was
      reserved before, and the rest of its block are empty packets. */
  lemma DeliveredInOnePiece(s: System, needed: nat, es: seq<Event>, s1: System, s': System)
    requires Good(s) && Enabled(s, Reserve(needed)) && s1 == Step(s, Reserve(needed)) && Good(s1)
    requires Run(s1, es, s') && s'.writers == map[]
    ensures Good(s') && |s.g.hist| < |s'.g.hist| && |Stream(s.g)| <= |s.g.log|
    ensures InStream(Stream(s'.g), |s.g.log|, s'.g.bounds[|s.g.hist| + 1], StoresOf(es, |s.g.hist|))
  {
    var t, b := |s.g.hist|, |s.g.log|;
    Issued(s, needed);
    WroteRun(s1, es, s', t, b, []);
    assert [] + StoresOf(es, t) == StoresOf(es, t);
    AllPublished(s', t, b, StoresOf(es, t));
  }
}
