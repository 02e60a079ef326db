/** How mutators and the collector agree on a cycle (runtime/gc/garbage-collection.c:287-391, 458-472,
  898-1010): `rtSync`, `dirty`, `isGCRunning` and rtSync_lock.

  A step is one access to the shared state; any thread that can move may be next, and a wait on the
  condition may end at any time the lock is free. */
module Handshake {

  const GC_THREAD := 1
  const NOBODY := -1

  /** Where a mutator is in GC_collect. */
  datatype Pc =
    | Mutating
    | Waiting              // found rtSync false, wants the lock (line 929)
    | Locked               // about to check isGCRunning (line 932)
    | Marking              // in markStack, about to check dirty (line 471)
    | Marked               // about to set its rtSync (line 953)
    | Scanning(next: nat)  // looks at rtSync of the other threads (lines 956-962)
    | LastToSync           // about to set dirty (line 971)
    | Leaving              // about to unlock (line 981)

  /** Where the collector is in GCrunner. */
  datatype GcPc =
    | Idle                 // before RTSYNC_LOCK (line 324)
    | Testing              // tests dirty (line 326)
    | Asleep               // in RTSYNC_BLOCK, without the lock (line 327)
    | Starting             // about to set isGCRunning (line 344)
    | Running              // in performGC_helper, then clears dirty (lines 361-371)
    | Resetting            // about to reset rtSync (line 373)
    | Stopping             // about to clear isGCRunning (line 377)
    | Unlocking            // about to unlock (line 385)

  /** `marked[t]` records that thread `t` has marked its stack since the last collection. */
  datatype State = State(lock: int, dirty: bool, isGCRunning: bool, rtSync: seq<bool>, pc: seq<Pc>, gc: GcPc,
                         marked: seq<bool>)

  datatype Step = Mutator(thread: nat) | Collector

  /** init.c:431-436: threads from 2 on count as synchronised for good. */
  function Initial(threads: nat): State
    requires threads >= 2
  {
    State(NOBODY, false, false, seq(threads, t => t >= 2), seq(threads, _ => Mutating), Idle, seq(threads, _ => false))
  }

  predicate Ok(s: State) {
    |s.rtSync| == |s.pc| == |s.marked| >= 2
  }

  function MutatorStep(s: State, t: nat): State
    requires Ok(s) && t < |s.pc|
  {
    match s.pc[t]
    case Mutating => if s.rtSync[t] then s else s.(pc := s.pc[t := Waiting])
    case Waiting => if s.lock == NOBODY then s.(lock := t, pc := s.pc[t := Locked]) else s
    case Locked => s.(pc := s.pc[t := Marking])
    case Marking => s.(marked := s.marked[t := true], pc := s.pc[t := Marked])
    case Marked => s.(rtSync := s.rtSync[t := true], pc := s.pc[t := Scanning(0)])
    case Scanning(i) =>
      s.(pc := s.pc[t := if i >= |s.rtSync| then LastToSync
                         else if i == GC_THREAD || i == t || s.rtSync[i] then Scanning(i + 1)
                         else Leaving])
    case LastToSync => s.(dirty := true, pc := s.pc[t := Leaving])
    case Leaving => s.(lock := NOBODY, pc := s.pc[t := Mutating])
  }

  function CollectorStep(s: State): State
    requires Ok(s)
  {
    match s.gc
    case Idle => if s.lock == NOBODY then s.(lock := GC_THREAD, gc := Testing) else s
    case Testing => if s.dirty then s.(gc := Starting) else s.(lock := NOBODY, gc := Asleep)
    case Asleep => if s.lock == NOBODY then s.(lock := GC_THREAD, gc := Testing) else s
    case Starting => s.(isGCRunning := true, gc := Running)
    case Running => s.(dirty := false, gc := Resetting, marked := seq(|s.marked|, _ => false))
    case Resetting => s.(rtSync := s.rtSync[0 := false], gc := Stopping)
    case Stopping => s.(isGCRunning := false, gc := Unlocking)
    case Unlocking => s.(lock := NOBODY, gc := Idle)
  }

  /** Thread 1 is the collector; it does not call GC_collect. */
  function Next(s: State, step: Step): State
    requires Ok(s)
  {
    match step
    case Mutator(t) => if t < |s.pc| && t != GC_THREAD then MutatorStep(s, t) else s
    case Collector => CollectorStep(s)
  }

  // ------------------------------------------------------------------ the invariant

  predicate InSection(pc: Pc) { !pc.Mutating? && !pc.Waiting? }

  predicate HoldsLock(gc: GcPc) { !gc.Idle? && !gc.Asleep? }

  /** Who is where holds the lock. */
  ghost predicate Exclusive(s: State)
    requires Ok(s)
  {
    && s.pc[GC_THREAD].Mutating?
    && (HoldsLock(s.gc) <==> s.lock == GC_THREAD)
    && (forall t | 0 <= t < |s.pc| && t != GC_THREAD :: InSection(s.pc[t]) <==> s.lock == t)
  }

  ghost predicate AllSynced(s: State, n: nat)
    requires Ok(s) && n <= |s.rtSync|
  {
    forall t | 0 <= t < n && t != GC_THREAD :: s.rtSync[t]
  }

  /** What mutator `t` knows at its place. */
  ghost predicate Knows(s: State, t: nat)
    requires Ok(s) && t < |s.pc|
  {
    match s.pc[t]
    case Mutating | Leaving => true
    case Waiting | Locked | Marking | Marked => !s.rtSync[t]
    case Scanning(i) => i <= |s.rtSync| && s.rtSync[t] && AllSynced(s, i)
    case LastToSync => AllSynced(s, |s.rtSync|)
  }

  ghost predicate Inv(s: State) {
    && Ok(s) && Exclusive(s)
    && (forall t | 0 <= t < |s.pc| && t != GC_THREAD :: Knows(s, t))
    && (s.dirty ==> AllSynced(s, |s.rtSync|))
    && (s.isGCRunning <==> s.gc.Running? || s.gc.Resetting? || s.gc.Stopping?)
    && (s.gc.Starting? || s.gc.Running? ==> s.dirty)
    && (s.gc.Resetting? || s.gc.Stopping? || s.gc.Unlocking? ==> !s.dirty)
    && (s.pc[0].Marked? ==> s.marked[0])
    && (s.rtSync[0] ==> s.marked[0] || s.gc.Resetting?)
  }

  lemma InitialInv(threads: nat)
    requires threads >= 2
    ensures Inv(Initial(threads))
  {}

  lemma MutatorInv(s: State, t: nat)
    requires Inv(s) && t < |s.pc| && t != GC_THREAD
    ensures Inv(MutatorStep(s, t))
  {
    var s' := MutatorStep(s, t);
    forall u | 0 <= u < |s'.pc| && u != GC_THREAD ensures Knows(s', u) { MutatorKnows(s, t, u); }
    MutatorExclusive(s, t);
    assert Knows(s, t);
    hide Exclusive, InSection;
  }

  /** The lock stays with whoever is in a section, and while it is a mutator's, the collector is in none. */
  lemma MutatorExclusive(s: State, t: nat)
    requires Inv(s) && t < |s.pc| && t != GC_THREAD
    ensures Exclusive(MutatorStep(s, t))
    ensures InSection(s.pc[t]) ==> !HoldsLock(s.gc)
  {
    hide Knows, AllSynced;
    var s' := MutatorStep(s, t);
    forall u | 0 <= u < |s'.pc| && u != GC_THREAD ensures InSection(s'.pc[u]) <==> s'.lock == u {
      assert InSection(s.pc[u]) <==> s.lock == u;
    }
  }

  /** A step of `t` leaves what `u` knows true. */
  lemma MutatorKnows(s: State, t: nat, u: nat)
    requires Inv(s) && t < |s.pc| && u < |s.pc| && t != GC_THREAD && u != GC_THREAD
    ensures Knows(MutatorStep(s, t), u)
  {
    assert Knows(s, t) && Knows(s, u);
    if u != t {
      SyncedMore(s, t);
      hide Exclusive, AllSynced;
    } else {
      hide Exclusive;
    }
  }

  lemma SyncedMore(s: State, t: nat)
    requires Inv(s) && t < |s.pc|
    ensures |MutatorStep(s, t).rtSync| == |s.rtSync|
    ensures forall n: nat | n <= |s.rtSync| && AllSynced(s, n) :: AllSynced(MutatorStep(s, t), n)
  {}

  lemma CollectorInv(s: State)
    requires Inv(s)
    ensures Inv(CollectorStep(s))
  {
    var s' := CollectorStep(s);
    forall u | 0 <= u < |s'.pc| && u != GC_THREAD ensures Knows(s', u) {
      assert Knows(s, u);
    }
  }

  function After(s: State, steps: seq<Step>, n: nat): (r: State)
    requires Ok(s) && n <= |steps|
    ensures Ok(r) && |r.pc| == |s.pc|
  {
    if n == 0 then s else Next(After(s, steps, n - 1), steps[n - 1])
  }

  lemma {:induction false} RunInv(s: State, steps: seq<Step>, n: nat)
    requires Inv(s) && n <= |steps|
    ensures Inv(After(s, steps, n))
  {
    if n > 0 {
      RunInv(s, steps, n - 1);
      var r := After(s, steps, n - 1);
      match steps[n - 1]
      case Mutator(t) => if t < |r.pc| && t != GC_THREAD { MutatorInv(r, t); }
      case Collector => CollectorInv(r);
    }
  }

  /** For any number of threads and every interleaving: the collector runs only with the lock held and
    all mutators synchronised, at most one mutator is in GC_collect's critical section, and the
    assertions on isGCRunning (line 932) and dirty (line 471) hold. */
  lemma AgreementHolds(threads: nat, steps: seq<Step>, t: nat)
    requires 2 <= threads && t < threads && t != GC_THREAD
    ensures var s := After(Initial(threads), steps, |steps|);
            && (s.dirty ==> AllSynced(s, threads))
            && (s.isGCRunning ==> s.lock == GC_THREAD && (s.gc.Running? ==> s.dirty))
            && (InSection(s.pc[t]) ==> s.lock == t && !s.isGCRunning)
            && (s.pc[t].Locked? || s.pc[t].Marking? ==> !s.isGCRunning && !s.dirty)
  {
    RunInv0(threads, steps);
    var s := After(Initial(threads), steps, |steps|);
    assert Knows(s, t);
  }

  lemma RunInv0(threads: nat, steps: seq<Step>)
    requires 2 <= threads
    ensures Inv(After(Initial(threads), steps, |steps|))
  {
    InitialInv(threads);
    RunInv(Initial(threads), steps, |steps|);
  }

  /** Mutual exclusion among mutators. */
  lemma OneInSection(threads: nat, steps: seq<Step>, t: nat, u: nat)
    requires 2 <= threads && t < threads && u < threads && t != GC_THREAD && u != GC_THREAD
    ensures var s := After(Initial(threads), steps, |steps|);
            InSection(s.pc[t]) && InSection(s.pc[u]) ==> t == u
  {
    RunInv0(threads, steps);
  }

  /** When a collection starts the main thread has marked its stack since the last one. */
  lemma MainStackMarked(threads: nat, steps: seq<Step>)
    requires 2 <= threads
    ensures var s := After(Initial(threads), steps, |steps|);
            s.dirty ==> s.marked[0]
  {
    RunInv0(threads, steps);
  }

  /** A thread that counts as synchronised from the start stays so, since the collector resets only
    `rtSync[0]`: it never enters GC_collect and its stack is never marked. */
  lemma {:induction false} SyncedForGood(s: State, steps: seq<Step>, n: nat, t: nat)
    requires Ok(s) && n <= |steps| && 2 <= t < |s.pc| && s.rtSync[t] && s.pc[t].Mutating? && !s.marked[t]
    ensures var r := After(s, steps, n); r.rtSync[t] && r.pc[t].Mutating? && !r.marked[t]
  {
    if n > 0 {
      SyncedForGood(s, steps, n - 1, t);
      SyncedStep(After(s, steps, n - 1), steps[n - 1], t);
    }
  }

  lemma SyncedStep(s: State, step: Step, t: nat)
    requires Ok(s) && 2 <= t < |s.pc| && s.rtSync[t] && s.pc[t].Mutating? && !s.marked[t]
    ensures var r := Next(s, step); r.rtSync[t] && r.pc[t].Mutating? && !r.marked[t]
  {}

  // ------------------------------------------------------------------ a collection is done when it is asked for

  function Repeated(step: Step, k: nat): (r: seq<Step>)
    ensures |r| == k && forall i | 0 <= i < k :: r[i] == step
  {
    seq(k, i requires 0 <= i < k => step)
  }

  /** The collector gets the lock when nobody has it, and goes on waiting otherwise. */
  lemma CollectorGetsLock(s: State)
    requires Inv(s) && (s.gc.Idle? || s.gc.Asleep?)
    ensures After(s, [Collector], 1) == if s.lock == NOBODY then s.(lock := GC_THREAD, gc := Testing) else s
  {
    assert After(s, [Collector], 0) == s;
  }

  /** When nobody has asked for a collection it lets go of the lock and sleeps. */
  lemma CollectorSleeps(s: State)
    requires Inv(s) && s.gc.Testing? && !s.dirty
    ensures After(s, [Collector], 1) == s.(lock := NOBODY, gc := Asleep)
  {
    assert After(s, [Collector], 0) == s;
  }

  /** When one is asked for, it is done: two steps on it runs, with the lock held and everything else as it was;
    four steps later it has ended, the request is gone, the main thread has to synchronise again, no thread counts as
    having marked its stack, and the lock is free. */
  lemma CollectorCollects(s: State)
    requires Inv(s) && s.gc.Testing? && s.dirty
    ensures var r := After(s, Repeated(Collector, 6), 2);
            && r.isGCRunning && r.lock == GC_THREAD && r.gc.Running? && r.dirty
            && r.rtSync == s.rtSync && r.marked == s.marked && r.pc == s.pc
    ensures var r := After(s, Repeated(Collector, 6), 6);
            && !r.dirty && !r.isGCRunning && !r.rtSync[0] && r.lock == NOBODY && r.gc.Idle?
            && (forall t | 0 <= t < |s.pc| :: !r.marked[t])
            && |r.rtSync| == |s.rtSync| && (forall t | 0 < t < |s.rtSync| :: r.rtSync[t] == s.rtSync[t])
            && r.pc == s.pc
  {
    AfterCollector(s, 2);
    AfterCollector(s, 6);
  }

  lemma AfterCollector(s: State, k: nat)
    requires Inv(s) && s.gc.Testing? && s.dirty && k <= 6
    ensures InCycle(s, After(s, Repeated(Collector, 6), k), k) && After(s, Repeated(Collector, 6), k).pc == s.pc
  {
    PcsStay(s, 6, k);
    CollectorCount(6, k);
    hide InCycle, Inv, After;
    CycleTurn(s, Repeated(Collector, 6), k);
  }

  lemma {:induction false} PcsStay(s: State, k: nat, n: nat)
    requires Ok(s) && n <= k
    ensures After(s, Repeated(Collector, k), n).pc == s.pc
  {
    if n > 0 { PcsStay(s, k, n - 1); }
  }

  /** The rest of a cycle from its collection on. */
  lemma CollectionEnds(s: State)
    requires Ok(s) && s.gc.Running?
    ensures var r := After(s, Repeated(Collector, 4), 4);
            && !r.dirty && !r.isGCRunning && !r.rtSync[0] && r.lock == NOBODY && r.gc.Idle? && r.pc == s.pc
            && (forall t | 0 <= t < |s.pc| :: !r.marked[t])
            && |r.rtSync| == |s.rtSync| && forall t | 0 < t < |s.rtSync| :: r.rtSync[t] == s.rtSync[t]
  {
    var steps := Repeated(Collector, 4);
    var s1 := s.(dirty := false, gc := Resetting, marked := seq(|s.marked|, _ => false));
    var s2 := s1.(rtSync := s.rtSync[0 := false], gc := Stopping);
    assert After(s, steps, 0) == s;
    assert After(s, steps, 1) == s1;
    assert After(s, steps, 2) == s2;
    assert After(s, steps, 3) == s2.(isGCRunning := false, gc := Unlocking);
  }

  /** The collector's steps among the first `n`. */
  function CollectorSteps(steps: seq<Step>, n: nat): nat
    requires n <= |steps|
  {
    if n == 0 then 0 else CollectorSteps(steps, n - 1) + if steps[n - 1].Collector? then 1 else 0
  }

  lemma {:induction false} CollectorCount(k: nat, n: nat)
    requires n <= k
    ensures CollectorSteps(Repeated(Collector, k), n) == n
  {
    if n > 0 { CollectorCount(k, n - 1); }
  }

  /** The state after `k` steps of the collector from one in which it has found a request, whatever the mutators do
    in between: they can only find that they have to call GC_collect again. */
  ghost predicate InCycle(s: State, r: State, k: nat)
    requires Ok(s)
  {
    && Ok(r) && |r.pc| == |s.pc|
    && r.lock == (if k < 6 then GC_THREAD else NOBODY) && (r.dirty <==> k < 3) && (r.isGCRunning <==> 2 <= k < 5)
    && r.rtSync == (if k < 4 then s.rtSync else s.rtSync[0 := false])
    && (forall t | 0 <= t < |s.pc| :: r.marked[t] <==> k < 3 && s.marked[t])
    && (forall t | 0 < t < |s.pc| :: r.pc[t] == s.pc[t])
    && (r.pc[0] == s.pc[0] || (k >= 4 && r.pc[0].Waiting?))
    && r.gc == match k case 0 => Testing case 1 => Starting case 2 => Running case 3 => Resetting case 4 => Stopping
                       case 5 => Unlocking case _ => Idle
  }

  lemma {:induction false} CycleTurn(s: State, steps: seq<Step>, n: nat)
    requires Inv(s) && s.gc.Testing? && s.dirty && n <= |steps|
    requires CollectorSteps(steps, n) < 6 || (CollectorSteps(steps, n) == 6 && n > 0 && steps[n - 1].Collector?)
    ensures InCycle(s, After(s, steps, n), CollectorSteps(steps, n))
  {
    if n > 0 {
      CycleTurn(s, steps, n - 1);
      CycleStep(s, After(s, steps, n - 1), CollectorSteps(steps, n - 1), steps[n - 1]);
    }
  }

  lemma CycleStep(s: State, r: State, k: nat, step: Step)
    requires Inv(s) && s.gc.Testing? && s.dirty && k < 6 && InCycle(s, r, k)
    ensures InCycle(s, Next(r, step), if step.Collector? then k + 1 else k)
  {
    if step.Mutator? && step.thread < |s.pc| && step.thread != GC_THREAD { assert Knows(s, step.thread); }
  }

  /** The same in every interleaving, however many steps the mutators take in between. */
  lemma CollectsAnyway(s: State, steps: seq<Step>)
    requires Inv(s) && s.gc.Testing? && s.dirty
    requires steps != [] && steps[|steps| - 1].Collector? && CollectorSteps(steps, |steps|) == 6
    ensures var r := After(s, steps, |steps|);
            && !r.dirty && !r.isGCRunning && !r.rtSync[0] && r.lock == NOBODY && r.gc.Idle?
            && (forall t | 0 <= t < |s.pc| :: !r.marked[t])
            && |r.rtSync| == |s.rtSync| && (forall t | 0 < t < |s.rtSync| :: r.rtSync[t] == s.rtSync[t])
            && (forall t | 0 < t < |s.pc| :: r.pc[t] == s.pc[t]) && (r.pc[0] == s.pc[0] || r.pc[0].Waiting?)
  {
    CycleTurn(s, steps, |steps|);
  }

  // ------------------------------------------------------------------ a call of GC_collect

  /** A thread that has synchronised does not call GC_collect; one that has not waits for the lock, takes it when
    nobody has it, and goes on to mark its stack. */
  lemma CallBegins(s: State, t: nat)
    requires Inv(s) && t < |s.pc| && t != GC_THREAD
    ensures var r := After(s, [Mutator(t)], 1);
            && (s.pc[t].Mutating? ==> r == if s.rtSync[t] then s else s.(pc := s.pc[t := Waiting]))
            && (s.pc[t].Waiting? ==> r == if s.lock == NOBODY then s.(lock := t, pc := s.pc[t := Locked]) else s)
            && (s.pc[t].Locked? ==> r == s.(pc := s.pc[t := Marking]))
  {
    assert After(s, [Mutator(t)], 0) == s;
  }

  /** With the lock free, three steps take it to where it marks its stack. */
  lemma CallReachesMark(s: State, t: nat)
    requires Inv(s) && t < |s.pc| && t != GC_THREAD && s.pc[t].Mutating? && !s.rtSync[t] && s.lock == NOBODY
    ensures After(s, Repeated(Mutator(t), 3), 3) == s.(lock := t, pc := s.pc[t := Marking])
  {
    var steps := Repeated(Mutator(t), 3);
    assert After(s, steps, 0) == s;
    assert After(s, steps, 1) == s.(pc := s.pc[t := Waiting]);
    assert s.pc[t := Waiting][t := Locked] == s.pc[t := Locked];
    assert After(s, steps, 2) == s.(lock := t, pc := s.pc[t := Locked]);
    assert s.pc[t := Locked][t := Marking] == s.pc[t := Marking];
  }

  /** From where it has the lock on, the call ends: the thread has marked its stack and synchronised, a collection has
    been asked for if and only if all others have synchronised too, the lock is free and nothing else has changed. */
  lemma CallEnds(s: State, t: nat) returns (k: nat)
    requires Inv(s) && t < |s.pc| && t != GC_THREAD && s.pc[t].Marking?
    ensures var r := After(s, Repeated(Mutator(t), k), k);
            && r.lock == NOBODY && r.isGCRunning == s.isGCRunning && r.gc == s.gc
            && (r.dirty <==> forall u | 0 <= u < |s.pc| && u != GC_THREAD && u != t :: s.rtSync[u])
            && r.rtSync == s.rtSync[t := true] && r.marked == s.marked[t := true] && r.pc == s.pc[t := Mutating]
  {
    var u := FirstUnsynced(s, t, 0);
    k := if u < |s.rtSync| then u + 4 else u + 5;
    Scans(s, t, Repeated(Mutator(t), k), u);
    Leaves(s, t, Repeated(Mutator(t), k), u);
  }

  /** The first thread from `i` on that thread `t` finds not synchronised. */
  ghost function FirstUnsynced(s: State, t: nat, i: nat): (u: nat)
    requires Ok(s) && i <= |s.rtSync|
    ensures i <= u <= |s.rtSync| && forall v | i <= v < u :: v == GC_THREAD || v == t || s.rtSync[v]
    ensures u < |s.rtSync| ==> u != GC_THREAD && u != t && !s.rtSync[u]
    decreases |s.rtSync| - i
  {
    if i == |s.rtSync| || (i != GC_THREAD && i != t && !s.rtSync[i]) then i else FirstUnsynced(s, t, i + 1)
  }

  /** The state of `s` with thread `t` synchronised and at `pc`. */
  ghost function Synced(s: State, t: nat, pc: Pc): State
    requires Ok(s) && t < |s.pc|
  {
    s.(marked := s.marked[t := true], rtSync := s.rtSync[t := true], pc := s.pc[t := pc])
  }

  lemma Moved(s: State, t: nat, pc: Pc, pc': Pc)
    requires Ok(s) && t < |s.pc|
    ensures Synced(s, t, pc).(pc := Synced(s, t, pc).pc[t := pc']) == Synced(s, t, pc')
  {
    assert s.pc[t := pc][t := pc'] == s.pc[t := pc'];
  }

  lemma ScanTurn(s: State, t: nat, i: nat)
    requires Ok(s) && t < |s.pc| && t != GC_THREAD
    ensures Next(Synced(s, t, Scanning(i)), Mutator(t)) ==
            Synced(s, t, if i >= |s.rtSync| then LastToSync
                         else if i == GC_THREAD || i == t || s.rtSync[i] then Scanning(i + 1) else Leaving)
  {
    Moved(s, t, Scanning(i), LastToSync);
    Moved(s, t, Scanning(i), Scanning(i + 1));
    Moved(s, t, Scanning(i), Leaving);
  }

  lemma LastTurn(s: State, t: nat)
    requires Ok(s) && t < |s.pc| && t != GC_THREAD
    ensures Next(Synced(s, t, LastToSync), Mutator(t)) == Synced(s, t, Leaving).(dirty := true)
  {
    Moved(s, t, LastToSync, Leaving);
  }

  lemma LeaveTurn(s: State, t: nat, d: bool)
    requires Ok(s) && t < |s.pc| && t != GC_THREAD
    ensures Next(Synced(s, t, Leaving).(dirty := d), Mutator(t)) ==
            Synced(s, t, Mutating).(lock := NOBODY, dirty := d)
  {
    Moved(s, t, Leaving, Mutating);
  }

  lemma {:induction false} Scans(s: State, t: nat, steps: seq<Step>, i: nat)
    requires Ok(s) && t < |s.pc| && t != GC_THREAD && s.pc[t].Marking? && i <= |s.rtSync| && 2 + i <= |steps|
    requires (forall j | 0 <= j < |steps| :: steps[j] == Mutator(t))
    requires forall v | 0 <= v < i :: v == GC_THREAD || v == t || s.rtSync[v]
    ensures After(s, steps, 2 + i) == Synced(s, t, Scanning(i))
  {
    if i > 0 {
      Scans(s, t, steps, i - 1);
      ScanTurn(s, t, i - 1);
      hide Synced, Next;
    } else {
      assert After(s, steps, 0) == s;
      assert After(s, steps, 1) == s.(marked := s.marked[t := true], pc := s.pc[t := Marked]);
    }
  }

  lemma NotAsked(s: State, t: nat)
    requires Inv(s) && t < |s.pc| && t != GC_THREAD && s.pc[t].Marking?
    ensures !s.dirty
  {
    assert Knows(s, t);
  }

  lemma AllOthers(s: State, t: nat, u: nat)
    requires Ok(s) && t < |s.pc| && u == FirstUnsynced(s, t, 0)
    ensures u == |s.rtSync| <==> forall v | 0 <= v < |s.pc| && v != GC_THREAD && v != t :: s.rtSync[v]
  {}

  lemma Leaves(s: State, t: nat, steps: seq<Step>, u: nat)
    requires Inv(s) && t < |s.pc| && t != GC_THREAD && s.pc[t].Marking? && u == FirstUnsynced(s, t, 0)
    requires |steps| == if u < |s.rtSync| then u + 4 else u + 5
    requires (forall j | 0 <= j < |steps| :: steps[j] == Mutator(t))
    requires After(s, steps, 2 + u) == Synced(s, t, Scanning(u))
    ensures After(s, steps, |steps|) ==
            Synced(s, t, Mutating).(lock := NOBODY, dirty := u == |s.rtSync|)
    ensures u == |s.rtSync| <==> forall v | 0 <= v < |s.pc| && v != GC_THREAD && v != t :: s.rtSync[v]
  {
    NotAsked(s, t);
    AllOthers(s, t, u);
    hide Inv, Knows, AllSynced, Next, FirstUnsynced;
    assert Synced(s, t, Leaving) == Synced(s, t, Leaving).(dirty := false);
    hide Synced;
    ScanTurn(s, t, u);
    LastTurn(s, t);
    LeaveTurn(s, t, u == |s.rtSync|);
    if u == |s.rtSync| { assert After(s, steps, u + 4) == Synced(s, t, Leaving).(dirty := true); }
  }
}
