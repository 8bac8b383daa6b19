/** The handshake between threads that sync a ring, writers that reserve slots of it under the queue lock, and
    threads that stop it: nm_kr_tryget, nm_kr_put, nm_kr_get and netmap_disable_ring.

    Any number of threads take atomic steps in any order: each access to nkr_stopped, each test-and-set or clear
    of nr_busy, each operation on q_lock. */
module StopRing {

  /** Where a thread is. */
  datatype Pc =
    | Idle
    | Checked             // tryget has seen the ring not stopped
    | Locked              // ... and has set nr_busy
    | Inside              // tryget has returned 0: the thread is in a sync
    | Backing             // tryget has found the ring stopped and will clear nr_busy
    | Writing             // a writer holds q_lock
    | Reserving           // ... and has seen the ring not stopped
    | Stopping(at: nat)   // disable has set nkr_stopped, after `at` enables
    | Draining(at: nat)   // ... and has set nr_busy
    | Passed(at: nat)     // ... and has taken and dropped q_lock
    | Returned(at: nat)   // ... and has cleared nr_busy

  datatype Option = None | Some(t: nat)

  /** The ring and the threads; busyBy and queueBy say who holds nr_busy and q_lock. */
  datatype State = State(
    stopped: bool,
    busy: bool,
    locked: bool,
    pc: seq<Pc>,
    enables: nat,
    busyBy: Option,
    queueBy: Option)

  datatype Event =
    | Check(t: nat) | TestAndSet(t: nat) | Recheck(t: nat) | Put(t: nat)
    | LockQueue(t: nat) | SeeStopped(t: nat) | UnlockQueue(t: nat)
    | Stop(t: nat) | Get(t: nat) | PassQueue(t: nat) | Release(t: nat) | Leave(t: nat)
    | Enable

  predicate HoldsBusy(p: Pc) {
    p.Locked? || p.Inside? || p.Backing? || p.Draining? || p.Passed?
  }

  predicate HoldsQueue(p: Pc) {
    p.Writing? || p.Reserving?
  }

  function At(s: State, t: nat): Pc {
    if t < |s.pc| then s.pc[t] else Idle
  }

  function To(s: State, t: nat, p: Pc): State {
    if t < |s.pc| then s.(pc := s.pc[t := p]) else s
  }

  /** One step; an event that the thread cannot take does nothing. */
  function Step(s: State, e: Event): State {
    match e
    case Check(t) => if At(s, t).Idle? && t < |s.pc| && !s.stopped then To(s, t, Checked) else s
    case TestAndSet(t) =>
      if !At(s, t).Checked? then s
      else if s.busy then To(s, t, Idle)
      else To(s.(busy := true, busyBy := Some(t)), t, Locked)
    case Recheck(t) =>
      if !At(s, t).Locked? then s else To(s, t, if s.stopped then Backing else Inside)
    case Put(t) =>
      if !At(s, t).Inside? && !At(s, t).Backing? then s else To(s.(busy := false, busyBy := None), t, Idle)
    case LockQueue(t) =>
      if !At(s, t).Idle? || t >= |s.pc| || s.locked then s else To(s.(locked := true, queueBy := Some(t)), t, Writing)
    case SeeStopped(t) =>
      if !At(s, t).Writing? then s
      else if s.stopped then To(s.(locked := false, queueBy := None), t, Idle)
      else To(s, t, Reserving)
    case UnlockQueue(t) =>
      if !At(s, t).Reserving? then s else To(s.(locked := false, queueBy := None), t, Idle)
    case Stop(t) =>
      if !At(s, t).Idle? || t >= |s.pc| then s else To(s.(stopped := true), t, Stopping(s.enables))
    case Get(t) =>
      if !At(s, t).Stopping? || s.busy then s
      else To(s.(busy := true, busyBy := Some(t)), t, Draining(At(s, t).at))
    case PassQueue(t) =>
      if !At(s, t).Draining? || s.locked then s else To(s, t, Passed(At(s, t).at))
    case Release(t) =>
      if !At(s, t).Passed? then s else To(s.(busy := false, busyBy := None), t, Returned(At(s, t).at))
    case Leave(t) => if !At(s, t).Returned? then s else To(s, t, Idle)
    case Enable => s.(stopped := false, enables := s.enables + 1)
  }

  function Run(s: State, es: seq<Event>): State
    decreases es
  {
    if es == [] then s else Run(Step(s, es[0]), es[1..])
  }

  /** nr_busy has one holder, the one recorded. */
  ghost predicate OneBusy(s: State) {
    && (s.busy <==> s.busyBy.Some?) && (s.busyBy.Some? ==> s.busyBy.t < |s.pc|)
    && forall t {:trigger s.pc[t]} :: 0 <= t < |s.pc| ==> (HoldsBusy(s.pc[t]) <==> s.busyBy == Some(t))
  }

  /** So has q_lock. */
  ghost predicate OneWriter(s: State) {
    && (s.locked <==> s.queueBy.Some?) && (s.queueBy.Some? ==> s.queueBy.t < |s.pc|)
    && forall t {:trigger s.pc[t]} :: 0 <= t < |s.pc| ==> (HoldsQueue(s.pc[t]) <==> s.queueBy == Some(t))
  }

  /** Nobody is inside, with nr_busy seen free after a stop that still holds. */
  ghost predicate NoSync(s: State) {
    s.stopped && forall t {:trigger s.pc[t]} :: 0 <= t < |s.pc| ==> !s.pc[t].Inside?
  }

  ghost predicate NoReserve(s: State) {
    s.stopped && forall t {:trigger s.pc[t]} :: 0 <= t < |s.pc| ==> !s.pc[t].Reserving?
  }

  /** A stop without a later enable still holds. */
  ghost predicate Held(s: State) {
    forall t {:trigger s.pc[t]} :: 0 <= t < |s.pc| && Stops(s.pc[t]) ==>
      s.pc[t].at <= s.enables && (s.pc[t].at == s.enables ==> s.stopped)
  }

  predicate Stops(p: Pc) {
    p.Stopping? || p.Draining? || p.Passed? || p.Returned?
  }

  /** What a stopping thread has waited for stays so, until the ring is enabled again. */
  ghost predicate Drained(s: State) {
    forall t {:trigger s.pc[t]} :: 0 <= t < |s.pc| ==>
      (s.pc[t] == Draining(s.enables) || s.pc[t] == Passed(s.enables) || s.pc[t] == Returned(s.enables) ==> NoSync(s))
  }

  ghost predicate Flushed(s: State) {
    forall t {:trigger s.pc[t]} :: 0 <= t < |s.pc| ==>
      (s.pc[t] == Passed(s.enables) || s.pc[t] == Returned(s.enables) ==> NoReserve(s))
  }

  ghost predicate Inv(s: State) {
    OneBusy(s) && OneWriter(s) && Held(s) && Drained(s) && Flushed(s)
  }

  /* ---- every step keeps the invariant; the proofs take the parties one at a time ---- */

  predicate BySync(e: Event) {
    e.Check? || e.TestAndSet? || e.Recheck? || e.Put?
  }

  predicate ByWriter(e: Event) {
    e.LockQueue? || e.SeeStopped? || e.UnlockQueue?
  }

  lemma SyncOneBusy(s: State, e: Event)
    requires OneBusy(s) && BySync(e)
    ensures OneBusy(Step(s, e))
  {
  }

  lemma StepOneBusy(s: State, e: Event)
    requires OneBusy(s)
    ensures OneBusy(Step(s, e))
  {
    if BySync(e) { SyncOneBusy(s, e); }
  }

  lemma StepOneWriter(s: State, e: Event)
    requires OneWriter(s)
    ensures OneWriter(Step(s, e)) == true
  {
  }

  lemma SyncHeld(s: State, e: Event)
    requires Held(s) && (BySync(e) || ByWriter(e))
    ensures Held(Step(s, e))
  {
  }

  lemma StepHeld(s: State, e: Event)
    requires Held(s)
    ensures Held(Step(s, e))
  {
    if BySync(e) || ByWriter(e) { SyncHeld(s, e); }
  }

  lemma SyncDrained(s: State, e: Event)
    requires OneBusy(s) && Drained(s) && BySync(e)
    ensures Drained(Step(s, e))
  {
  }

  lemma WriterDrained(s: State, e: Event)
    requires Drained(s) && ByWriter(e)
    ensures Drained(Step(s, e))
  {
  }

  lemma StepDrained(s: State, e: Event)
    requires OneBusy(s) && Held(s) && Drained(s)
    ensures Drained(Step(s, e))
  {
    if BySync(e) { SyncDrained(s, e); } else if ByWriter(e) { WriterDrained(s, e); }
  }

  lemma SyncFlushed(s: State, e: Event)
    requires Flushed(s) && BySync(e)
    ensures Flushed(Step(s, e))
  {
  }

  lemma WriterFlushed(s: State, e: Event)
    requires OneWriter(s) && Flushed(s) && ByWriter(e)
    ensures Flushed(Step(s, e))
  {
  }

  lemma StepFlushed(s: State, e: Event)
    requires OneWriter(s) && Held(s) && Flushed(s)
    ensures Flushed(Step(s, e))
  {
    if BySync(e) { SyncFlushed(s, e); } else if ByWriter(e) { WriterFlushed(s, e); }
  }

  /** Every step of every thread keeps the invariant. */
  lemma StepInv(s: State, e: Event)
    requires Inv(s)
    ensures Inv(Step(s, e))
  {
    StepOneBusy(s, e);
    StepOneWriter(s, e);
    StepHeld(s, e);
    StepDrained(s, e);
    StepFlushed(s, e);
  }

  lemma {:induction false} RunInv(s: State, es: seq<Event>)
    requires Inv(s)
    ensures Inv(Run(s, es))
    decreases es
  {
    if es != [] {
      StepInv(s, es[0]);
      RunInv(Step(s, es[0]), es[1..]);
    }
  }

  /** A new ring: nothing is held, and any number of threads are about to use it. */
  function Initial(threads: nat): (s: State)
    ensures |s.pc| == threads
  {
    State(false, false, false, seq(threads, _ => Idle), 0, None, None)
  }

  /** In every run, at most one thread is inside a sync, and none while another drains the ring. */
  lemma AtMostOneInside(threads: nat, es: seq<Event>, t: nat, u: nat)
    requires t < u
    ensures var s := Run(Initial(threads), es);
            !(At(s, t).Inside? && HoldsBusy(At(s, u))) && !(HoldsBusy(At(s, t)) && At(s, u).Inside?)
  {
    RunInv(Initial(threads), es);
  }

  /** Once netmap_disable_ring has returned, and until the ring is enabled again, no thread is or gets inside a
      sync, and no writer reserves slots. */
  lemma DisabledExcludes(threads: nat, before: seq<Event>, after: seq<Event>, d: nat, t: nat)
    requires At(Run(Initial(threads), before), d) == Returned(Run(Initial(threads), before).enables)
    requires Enable !in after
    ensures var s := Run(Run(Initial(threads), before), after);
            s.stopped && !At(s, t).Inside? && !At(s, t).Reserving?
  {
    var s := Run(Initial(threads), before);
    RunInv(Initial(threads), before);
    assert s.pc[d] == Returned(s.enables);
    StaysExcluded(s, after);
  }

  lemma StepExcluded(s: State, e: Event)
    requires NoSync(s) && NoReserve(s) && e != Enable
    ensures NoSync(Step(s, e)) && NoReserve(Step(s, e))
  {
  }

  lemma {:induction false} StaysExcluded(s: State, es: seq<Event>)
    requires NoSync(s) && NoReserve(s) && Enable !in es
    ensures NoSync(Run(s, es)) && NoReserve(Run(s, es))
    decreases es
  {
    if es != [] {
      assert es[0] in es;
      StepExcluded(s, es[0]);
      StaysExcluded(Step(s, es[0]), es[1..]);
    }
  }

  /* ---- nobody is shut out for ever: from every state the run can go on so that a thread gets where it wants ---- */

  lemma {:induction false} RunNext(s: State, es: seq<Event>, e: Event)
    ensures Run(s, es + [e]) == Step(Run(s, es), e)
    decreases es
  {
    if es == [] {
      assert [] + [e] == [e] && [e][1..] == [];
    } else {
      assert (es + [e])[1..] == es[1..] + [e];
      RunNext(Step(s, es[0]), es[1..], e);
    }
  }

  /** A good state r that the run es' leads to, after es, with no Enable since. */
  ghost predicate Reached(s: State, es: seq<Event>, es': seq<Event>, r: State) {
    es <= es' && Enable !in es'[|es|..] && r == Run(s, es') && Inv(r)
  }

  lemma Then(s: State, es: seq<Event>, es': seq<Event>, r: State, e: Event) returns (es1: seq<Event>, r1: State)
    requires Reached(s, es, es', r) && e != Enable
    ensures es1 == es' + [e] && r1 == Step(r, e) && Reached(s, es, es1, r1) == true
  {
    es1, r1 := es' + [e], Step(r, e);
    RunNext(s, es', e);
    StepInv(r, e);
    assert es1[|es|..] == es'[|es|..] + [e];
  }

  /** The holder of q_lock drops it. */
  lemma QueueFreed(s: State, es: seq<Event>, es': seq<Event>, r: State) returns (es1: seq<Event>, r1: State)
    requires Reached(s, es, es', r)
    ensures Reached(s, es, es1, r1) == true && !r1.locked && |r1.pc| == |r.pc| && r1.stopped == r.stopped
  {
    es1, r1 := es', r;
    if r.locked {
      var t := r.queueBy.t;
      es1, r1 := Then(s, es, es1, r1, SeeStopped(t));
      es1, r1 := Then(s, es, es1, r1, UnlockQueue(t));
    }
  }

  /** A thread that syncs the ring leaves. */
  lemma SyncLeaves(s: State, es: seq<Event>, es': seq<Event>, r: State, t: nat) returns (es1: seq<Event>, r1: State)
    requires Reached(s, es, es', r) && t < |r.pc| && (r.pc[t].Locked? || r.pc[t].Inside? || r.pc[t].Backing?)
    ensures Reached(s, es, es1, r1) == true && r1.locked == r.locked && !r1.busy && |r1.pc| == |r.pc|
    ensures r1.stopped == r.stopped
    ensures At(r1, t).Idle?
  {
    es1, r1 := Then(s, es, es', r, Recheck(t));
    es1, r1 := Then(s, es, es1, r1, Put(t));
  }

  /** A thread that stops the ring is done. */
  lemma StopReturns(s: State, es: seq<Event>, es': seq<Event>, r: State, t: nat) returns (es1: seq<Event>, r1: State)
    requires Reached(s, es, es', r) && t < |r.pc| && (r.pc[t].Draining? || r.pc[t].Passed?) && !r.locked
    ensures Reached(s, es, es1, r1) == true && !r1.locked && !r1.busy && |r1.pc| == |r.pc| && r1.stopped == r.stopped
    ensures At(r1, t) == Returned(r.pc[t].at) && r1.enables == r.enables
  {
    es1, r1 := Then(s, es, es', r, PassQueue(t));
    es1, r1 := Then(s, es, es1, r1, Release(t));
  }

  /** The holder of nr_busy clears it. */
  lemma BusyFreed(s: State, es: seq<Event>, es': seq<Event>, r: State) returns (es1: seq<Event>, r1: State)
    requires Reached(s, es, es', r) && !r.locked
    ensures Reached(s, es, es1, r1) == true && !r1.locked && !r1.busy && |r1.pc| == |r.pc| && r1.stopped == r.stopped
  {
    es1, r1 := es', r;
    if r.busy {
      var t := r.busyBy.t;
      if r.pc[t].Draining? || r.pc[t].Passed? {
        es1, r1 := StopReturns(s, es, es', r, t);
      } else {
        es1, r1 := SyncLeaves(s, es, es', r, t);
      }
    }
  }

  /** A thread that has decided to stop the ring does so. */
  lemma StopSucceeds(s: State, es: seq<Event>, es': seq<Event>, r: State, t: nat) returns (es1: seq<Event>, r1: State)
    requires Reached(s, es, es', r) && !r.locked && !r.busy && t < |r.pc| && r.pc[t].Stopping?
    ensures Reached(s, es, es1, r1) == true && !r1.locked && !r1.busy && |r1.pc| == |r.pc| && r1.stopped == r.stopped
    ensures At(r1, t) == Returned(r.pc[t].at) && r1.enables == r.enables
  {
    es1, r1 := Then(s, es, es', r, Get(t));
    es1, r1 := StopReturns(s, es, es1, r1, t);
  }

  /** A thread finishes what it does. */
  lemma ThreadFinishes(s: State, es: seq<Event>, es': seq<Event>, r: State, t: nat) returns (es1: seq<Event>, r1: State)
    requires Reached(s, es, es', r) && !r.locked && !r.busy && t < |r.pc|
    ensures Reached(s, es, es1, r1) == true && !r1.locked && !r1.busy && |r1.pc| == |r.pc| && r1.stopped == r.stopped
    ensures At(r1, t).Idle?
  {
    es1, r1 := es', r;
    assert !HoldsBusy(r.pc[t]) && !HoldsQueue(r.pc[t]);
    if r.pc[t].Checked? {
      es1, r1 := Then(s, es, es1, r1, TestAndSet(t));
      es1, r1 := SyncLeaves(s, es, es1, r1, t);
    } else {
      if r.pc[t].Stopping? {
        es1, r1 := StopSucceeds(s, es, es1, r1, t);
      }
      es1, r1 := Then(s, es, es1, r1, Leave(t));
    }
  }

  lemma BeforeAll(threads: nat, es: seq<Event>, t: nat) returns (es1: seq<Event>, r: State)
    requires t < threads
    ensures Reached(Initial(threads), es, es1, r) == true && At(r, t).Idle? && t < |r.pc| && !r.locked && !r.busy
    ensures r.stopped == Run(Initial(threads), es).stopped
  {
    var s := Initial(threads);
    RunInv(s, es);
    RunThreads(s, es);
    es1, r := QueueFreed(s, es, es, Run(s, es));
    es1, r := BusyFreed(s, es, es1, r);
    es1, r := ThreadFinishes(s, es, es1, r, t);
  }

  lemma {:induction false} RunThreads(s: State, es: seq<Event>)
    ensures |Run(s, es).pc| == |s.pc|
    decreases es
  {
    if es != [] { RunThreads(Step(s, es[0]), es[1..]); }
  }

  /** In every run, every thread can still get inside a sync; an enable is needed exactly if the ring is stopped. */
  lemma CanEnter(threads: nat, es: seq<Event>, t: nat) returns (es': seq<Event>)
    requires t < threads
    ensures es <= es' && At(Run(Initial(threads), es'), t).Inside?
    ensures Enable in es'[|es|..] <==> Run(Initial(threads), es).stopped
  {
    var s := Initial(threads);
    var r;
    es', r := BeforeAll(threads, es, t);
    var steps := (if r.stopped then [Enable] else []) + [Check(t), TestAndSet(t), Recheck(t)];
    FourSteps(s, es', r, t);
    assert (es' + steps)[|es|..] == es'[|es|..] + steps;
    es' := es' + steps;
  }

  lemma FourSteps(s: State, es: seq<Event>, r: State, t: nat)
    requires r == Run(s, es) && At(r, t).Idle? && t < |r.pc| && !r.busy
    ensures At(Run(s, es + ((if r.stopped then [Enable] else []) + [Check(t), TestAndSet(t), Recheck(t)])), t).Inside?
  {
    var e0, e1, e2, e3 := if r.stopped then es + [Enable] else es, [Check(t)], [TestAndSet(t)], [Recheck(t)];
    RunNext(s, es, Enable);
    RunNext(s, e0, Check(t));
    RunNext(s, e0 + e1, TestAndSet(t));
    RunNext(s, e0 + e1 + e2, Recheck(t));
    assert es + ((if r.stopped then [Enable] else []) + [Check(t), TestAndSet(t), Recheck(t)]) == e0 + e1 + e2 + e3;
  }

  /** So can every writer reserve slots. */
  lemma CanReserve(threads: nat, es: seq<Event>, t: nat) returns (es': seq<Event>)
    requires t < threads
    ensures es <= es' && At(Run(Initial(threads), es'), t).Reserving?
    ensures Enable in es'[|es|..] <==> Run(Initial(threads), es).stopped
  {
    var s := Initial(threads);
    var r;
    es', r := BeforeAll(threads, es, t);
    var steps := (if r.stopped then [Enable] else []) + [LockQueue(t), SeeStopped(t)];
    ThreeSteps(s, es', r, t);
    assert (es' + steps)[|es|..] == es'[|es|..] + steps;
    es' := es' + steps;
  }

  lemma ThreeSteps(s: State, es: seq<Event>, r: State, t: nat)
    requires r == Run(s, es) && At(r, t).Idle? && t < |r.pc| && !r.locked
    ensures At(Run(s, es + ((if r.stopped then [Enable] else []) + [LockQueue(t), SeeStopped(t)])), t).Reserving?
  {
    var e0 := if r.stopped then es + [Enable] else es;
    RunNext(s, es, Enable);
    RunNext(s, e0, LockQueue(t));
    RunNext(s, e0 + [LockQueue(t)], SeeStopped(t));
    assert es + ((if r.stopped then [Enable] else []) + [LockQueue(t), SeeStopped(t)]) == e0 + [LockQueue(t)] + [SeeStopped(t)];
  }

  /** And every thread can still stop the ring: netmap_disable_ring returns. */
  lemma CanStop(threads: nat, es: seq<Event>, d: nat) returns (es': seq<Event>)
    requires d < threads
    ensures es <= es' && Enable !in es'[|es|..]
    ensures var r := Run(Initial(threads), es'); At(r, d) == Returned(r.enables) && r.stopped
  {
    var s := Initial(threads);
    var r;
    es', r := BeforeAll(threads, es, d);
    es', r := Then(s, es, es', r, Stop(d));
    es', r := StopSucceeds(s, es, es', r, d);
  }
}
