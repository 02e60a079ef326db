/** Mutators, marker and sweep at work together (include/c-chunk.h:97-107, runtime/gc/um.c:147-206,
  ummark.c:459-613, garbage-collection.c:319-391, 458-521 and 545-702, 922-982).

  The protocol of `Handshake` says who may do what; the colours are those of `TriColour`. A step is one access
  of the protocol, the shading of one value, the marking or sweeping of one object, a write barrier, or a
  store. A header stands for all chunks of its object. */
module ConcurrentMarking {
  import opened Arithmetic
  import opened Chunk
  import opened Wrappers
  import H = Handshake
  import T = TriColour

  /** Where the marker is: between two objects, or at a child of an object that it has shaded. */
  datatype Scanner = Resting | Scanning(marker: nat, obj: nat, next: nat)

  /** A write that has passed its barrier and not yet been stored. */
  datatype Pending = Pending(dst: Value, field: nat, src: Value)

  /** `unswept` is None but for the time of a sweep, when it holds the objects still to be looked at. */
  datatype State = State(control: H.State, headers: seq<Header>, fields: seq<seq<Value>>, scan: Scanner,
                         unswept: Option<set<nat>>, pending: seq<Option<Pending>>)
  {
    function Heap(): T.State { T.State(headers, fields, control.rtSync) }

    /** Thread `t` marks: a mutator inside markStack, or the collector before its sweep. */
    predicate Marks(t: nat) {
      if t == H.GC_THREAD then control.gc.Running? && unswept.None?
      else t < |control.pc| && control.pc[t].Marking?
    }

    /** Thread `t` runs the program: it is not in the critical section of GC_collect. */
    predicate Runs(t: nat) {
      t < |control.pc| && t < |control.rtSync| && t < |pending| && t != H.GC_THREAD && !H.InSection(control.pc[t])
    }

    /** Slot `i` of object `o` counts as scanned: the object is marked, or the scan under way is past it. */
    predicate Hot(o: nat, i: nat) {
      o < |headers| && (headers[o].mark || (scan.Scanning? && scan.obj == o && i < scan.next))
    }

    /** No slot that counts as scanned holds a white reference. */
    ghost predicate Dark() {
      |fields| == |headers| &&
      forall o, i | 0 <= o < |fields| && 0 <= i < |fields[o]| && Hot(o, i) :: Heap().Coloured(fields[o][i])
    }

    ghost predicate Unmarked() {
      forall o | 0 <= o < |headers| :: !headers[o].mark
    }

    ghost predicate WriteOk(w: Pending) {
      && Heap().ValueOk(w.dst) && Heap().ValueOk(w.src)
      && (w.dst.Ref? ==> w.dst.obj < |fields| && w.field < |fields[w.dst.obj]|)
    }
  }

  datatype Step =
    | Control(thread: nat)                                       // an access of GC_collect
    | Collector                                                  // an access of GCrunner
    | StartScan(marker: nat, obj: nat)                           // the object is shaded, if not marked
    | ShadeChild                                                 // umShadeObject on the next child
    | EndScan                                                    // the object is marked
    | StartSweep
    | SweepObject(obj: nat)
    | Barrier(thread: nat, dst: Value, field: nat, src: Value)   // WB before the store
    | Store(thread: nat)                                         // the store of WB
    | WriteStack(thread: nat, src: Value)
    | Allocate(thread: nat, size: nat)

  ghost predicate Enabled(s: State, step: Step) {
    match step
    case Control(t) =>
      && H.Ok(s.control) && t < |s.control.pc| && t != H.GC_THREAD && t < |s.pending| && s.pending[t].None?
      && (s.control.pc[t].Marking? ==> s.scan.Resting?)
    case Collector => H.Ok(s.control) && (s.control.gc.Running? ==> s.unswept == Some({}))
    case StartScan(t, p) => s.Marks(t) && s.scan.Resting? && p < |s.headers|
    case ShadeChild => s.scan.Scanning? && s.scan.obj < |s.fields| && s.scan.next < |s.fields[s.scan.obj]|
    case EndScan =>
      s.scan.Scanning? && s.scan.obj < |s.fields| == |s.headers| && s.scan.next >= |s.fields[s.scan.obj]|
    case StartSweep => s.control.gc.Running? && s.unswept.None? && s.scan.Resting?
    case SweepObject(p) => s.unswept.Some? && p < |s.headers|
    case Barrier(t, dst, i, src) => s.Runs(t) && s.pending[t].None? && s.WriteOk(Pending(dst, i, src))
    case Store(t) => s.Runs(t) && s.pending[t].Some? && s.WriteOk(s.pending[t].value)
    case WriteStack(t, src) => s.Runs(t) && s.pending[t].None? && s.Heap().ValueOk(src)
    case Allocate(t, _) => s.Runs(t) && s.pending[t].None?
  }

  /** A step that cannot be taken changes nothing. */
  ghost function Next(s: State, step: Step): State {
    if Enabled(s, step) then Taken(s, step) else s
  }

  ghost function Taken(s: State, step: Step): State
    requires Enabled(s, step)
  {
    match step
    case Control(t) => s.(control := H.MutatorStep(s.control, t))
    case Collector =>
      s.(control := H.CollectorStep(s.control), unswept := if s.control.gc.Running? then None else s.unswept)
    case StartScan(t, p) =>
      if s.headers[p].mark then s
      else s.(headers := s.Heap().Shaded([Ref(p)]), scan := Scanning(t, p, 0))
    case ShadeChild =>
      s.(headers := s.Heap().Shaded([s.fields[s.scan.obj][s.scan.next]]), scan := s.scan.(next := s.scan.next + 1))
    case EndScan =>
      s.(headers := s.headers[s.scan.obj := Paint(Mark, s.headers[s.scan.obj])], scan := Resting)
    case StartSweep => s.(unswept := Some(Below(|s.headers|)))
    case SweepObject(p) =>
      s.(headers := s.headers[p := Swept(NormalChunk, s.headers[p])], unswept := Some(s.unswept.value - {p}))
    case Barrier(t, dst, i, src) =>
      s.(headers := if s.control.rtSync[t] && dst.Ref? && s.headers[dst.obj].mark
                    then s.Heap().Shaded([src]) else s.headers,
         pending := s.pending[t := Some(Pending(dst, i, src))])
    case Store(t) =>
      var w := s.pending[t].value;
      s.(fields := if w.dst.Ref? then s.fields[w.dst.obj := s.fields[w.dst.obj][w.field := w.src]] else s.fields,
         pending := s.pending[t := None])
    case WriteStack(t, src) =>
      s.(headers := if s.control.rtSync[t] then s.Heap().Shaded([src]) else s.headers)
    case Allocate(t, size) =>
      s.(headers := s.headers + [NewHeader(NormalChunk, s.control.rtSync[t])],
         fields := s.fields + [seq(size, _ => NonPointer)])
  }

  /** A store that puts a white reference where the marker will not look again. */
  ghost predicate Racy(s: State, step: Step) {
    && step.Store? && Enabled(s, step) && s.unswept.None?
    && var w := s.pending[step.thread].value;
       w.dst.Ref? && s.Hot(w.dst.obj, w.field) && !s.Heap().Coloured(w.src)
  }

  /** Any heap without marks, no cycle under way. */
  ghost predicate Initial(s: State) {
    && |s.control.pc| >= 2 && s.control == H.Initial(|s.control.pc|)
    && s.Heap().Ok() && s.Unmarked() && (forall o | 0 <= o < |s.headers| :: s.headers[o].inUse)
    && s.scan.Resting? && s.unswept.None?
    && |s.pending| == |s.control.pc| && forall t | 0 <= t < |s.pending| :: s.pending[t].None?
  }

  // ------------------------------------------------------------------ the invariant

  /** Threads from 2 on stay synchronised and never enter the critical section. */
  ghost predicate Late(c: H.State)
    requires H.Ok(c)
  {
    forall t | 2 <= t < |c.pc| :: c.rtSync[t] && c.pc[t].Mutating?
  }

  /** Where the protocol is when nothing can be marked. */
  predicate Quiet(c: H.State)
    requires H.Ok(c)
  {
    || c.gc.Resetting? || c.gc.Stopping? || c.gc.Unlocking?
    || (!c.rtSync[0] && !c.pc[0].Marking? && !c.pc[0].Marked?)
  }

  ghost predicate HeadersOk(hs: seq<Header>) {
    forall o | 0 <= o < |hs| :: hs[o].inUse && !(hs[o].mark && hs[o].red)
  }

  ghost predicate PendingOk(s: State) {
    && |s.pending| == |s.control.pc| == |s.control.rtSync|
    && forall t | 0 <= t < |s.pending| && s.pending[t].Some? :: s.Runs(t) && s.WriteOk(s.pending[t].value)
  }

  ghost predicate ScanOk(s: State) {
    s.scan.Scanning? ==>
      && s.Marks(s.scan.marker) && s.scan.obj < |s.headers| == |s.fields|
      && !s.headers[s.scan.obj].mark && s.scan.next <= |s.fields[s.scan.obj]|
  }

  ghost predicate SweepOk(s: State) {
    s.unswept.Some? ==>
      && s.control.gc.Running? && s.scan.Resting?
      && forall o | 0 <= o < |s.headers| && s.headers[o].mark :: o in s.unswept.value
  }

  /** What holds whatever the mutators write. */
  ghost predicate Core(s: State) {
    && H.Inv(s.control) && Late(s.control)
    && s.Heap().Ok() && HeadersOk(s.headers) && PendingOk(s) && ScanOk(s) && SweepOk(s)
    && (Quiet(s.control) ==> s.Unmarked())
  }

  /** Outside of a sweep no scanned slot holds a white reference. */
  ghost predicate Kept(s: State) {
    s.unswept.None? ==> s.Dark()
  }

  /** Only the main thread and the collector mark, the collector when the main thread has synchronised. */
  lemma WhoMarks(s: State, t: nat)
    requires Core(s) && s.Marks(t)
    ensures t == 0 || (t == H.GC_THREAD && s.control.rtSync[0])
  {}

  /** A program thread that has not synchronised finds nothing marked and no scan under way. */
  lemma UnsyncedFindsNoMark(s: State, t: nat)
    requires Core(s) && s.Runs(t) && !s.control.rtSync[t]
    ensures t == 0 && s.Unmarked() && s.scan.Resting? && !Racy(s, Store(t))
  {
    assert t == 0;
    if s.scan.Scanning? { WhoMarks(s, s.scan.marker); }
  }

  // ------------------------------------------------------------------ steps of the protocol

  lemma ControlCore(s: State, t: nat)
    requires Core(s) && Enabled(s, Control(t))
    ensures Core(Taken(s, Control(t)))
  {
    hide HeadersOk;
    H.MutatorInv(s.control, t);
    assert H.Knows(s.control, t);
    assert t >= 2 ==> s.control.pc[t].Mutating?;
  }

  lemma CollectorCore(s: State)
    requires Core(s) && Enabled(s, Collector)
    ensures Core(Taken(s, Collector))
  {
    hide HeadersOk;
    H.CollectorInv(s.control);
  }

  // ------------------------------------------------------------------ steps of marker and sweep

  /** Shading changes no mark and darkens only. */
  lemma ShadeCore(s: State, v: Value)
    requires Core(s)
    ensures Core(s.(headers := s.Heap().Shaded([v])))
    ensures s.Dark() ==> s.(headers := s.Heap().Shaded([v])).Dark()
  {}

  /** Raising the header of an object to marked. */
  lemma EndScanKeeps(s: State)
    requires Core(s) && Enabled(s, EndScan)
    ensures Core(Taken(s, EndScan)) && (Kept(s) ==> Kept(Taken(s, EndScan)))
  {
    WhoMarks(s, s.scan.marker);
  }

  lemma ScanKeeps(s: State, step: Step)
    requires Core(s) && Enabled(s, step) && (step.StartScan? || step.ShadeChild?)
    ensures Core(Taken(s, step)) && (Kept(s) ==> Kept(Taken(s, step)))
  {
    if step.StartScan? {
      ShadeCore(s, Ref(step.obj));
    } else {
      ShadeCore(s, s.fields[s.scan.obj][s.scan.next]);
    }
    ScanMoves(s, step);
  }

  /** Moving the scanner after the shading. */
  lemma ScanMoves(s: State, step: Step)
    requires Core(s) && Enabled(s, step) && (step.StartScan? || step.ShadeChild?)
    requires Core(s.(headers := Taken(s, step).headers))
    ensures Core(Taken(s, step))
    ensures s.(headers := Taken(s, step).headers).Dark() ==> Taken(s, step).Dark()
  {}

  lemma SweepKeeps(s: State, step: Step)
    requires Core(s) && Enabled(s, step) && (step.StartSweep? || step.SweepObject?)
    ensures Core(Taken(s, step)) && Kept(Taken(s, step))
  {}

  /** After the sweep nothing is marked, so nothing counts as scanned. */
  lemma CollectorKeeps(s: State)
    requires Core(s) && Enabled(s, Collector) && Kept(s)
    ensures Kept(Taken(s, Collector))
  {}

  lemma ControlKeeps(s: State, t: nat)
    requires Core(s) && Enabled(s, Control(t)) && Kept(s)
    ensures Kept(Taken(s, Control(t)))
  {}

  // ------------------------------------------------------------------ steps of the program

  /** The barrier shades, if at all, and notes the write. */
  lemma BarrierKeeps(s: State, step: Step)
    requires Core(s) && Enabled(s, step) && (step.Barrier? || step.WriteStack?)
    ensures Core(Taken(s, step)) && (Kept(s) ==> Kept(Taken(s, step)))
  {
    ShadeCore(s, step.src);
    var r := s.(headers := Taken(s, step).headers);
    assert Core(r) && (s.Dark() ==> r.Dark());
  }

  lemma AllocateKeeps(s: State, t: nat, size: nat)
    requires Core(s) && Enabled(s, Allocate(t, size))
    ensures Core(Taken(s, Allocate(t, size))) && (Kept(s) ==> Kept(Taken(s, Allocate(t, size))))
  {}

  lemma StoreCore(s: State, t: nat)
    requires Core(s) && Enabled(s, Store(t))
    ensures Core(Taken(s, Store(t)))
  {}

  /** A store keeps the invariant exactly when it is not racy. */
  lemma StoreKeeps(s: State, t: nat)
    requires Core(s) && Enabled(s, Store(t)) && Kept(s)
    ensures Kept(Taken(s, Store(t))) <==> !Racy(s, Store(t))
  {
    var s', w := Taken(s, Store(t)), s.pending[t].value;
    if s.unswept.None? && w.dst.Ref? {
      assert s'.fields[w.dst.obj][w.field] == w.src;
      if Racy(s, Store(t)) {
        assert s'.Hot(w.dst.obj, w.field) && !s'.Heap().Coloured(s'.fields[w.dst.obj][w.field]);
      } else {
        forall o, i | 0 <= o < |s'.fields| && 0 <= i < |s'.fields[o]| && s'.Hot(o, i)
          ensures s'.Heap().Coloured(s'.fields[o][i])
        {
          assert s.Hot(o, i);
          if o != w.dst.obj || i != w.field { assert s.Heap().Coloured(s.fields[o][i]); }
        }
      }
    }
  }

  // ------------------------------------------------------------------ every run

  lemma StepCore(s: State, step: Step)
    requires Core(s)
    ensures Core(Next(s, step))
  {
    hide Core, Enabled, Taken;
    if Enabled(s, step) {
      match step
      case Control(t) => ControlCore(s, t);
      case Collector => CollectorCore(s);
      case StartScan(t, p) => ScanKeeps(s, step);
      case ShadeChild => ScanKeeps(s, step);
      case EndScan => EndScanKeeps(s);
      case StartSweep => SweepKeeps(s, step);
      case SweepObject(p) => SweepKeeps(s, step);
      case Barrier(t, dst, i, src) => BarrierKeeps(s, step);
      case Store(t) => StoreCore(s, t);
      case WriteStack(t, src) => BarrierKeeps(s, step);
      case Allocate(t, size) => AllocateKeeps(s, t, size);
    }
  }

  /** Every step of protocol, marker, sweep and program keeps the invariant, but for a racy store, which
    breaks it. */
  lemma StepKeeps(s: State, step: Step)
    requires Core(s) && Kept(s)
    ensures Kept(Next(s, step)) <==> !Racy(s, step)
  {
    hide Core, Enabled, Taken, State.Dark;
    if Enabled(s, step) {
      match step
      case Control(t) => ControlKeeps(s, t);
      case Collector => CollectorKeeps(s);
      case StartScan(t, p) => ScanKeeps(s, step);
      case ShadeChild => ScanKeeps(s, step);
      case EndScan => EndScanKeeps(s);
      case StartSweep => SweepKeeps(s, step);
      case SweepObject(p) => SweepKeeps(s, step);
      case Barrier(t, dst, i, src) => BarrierKeeps(s, step);
      case Store(t) => StoreKeeps(s, t);
      case WriteStack(t, src) => BarrierKeeps(s, step);
      case Allocate(t, size) => AllocateKeeps(s, t, size);
    }
  }

  ghost function After(s: State, steps: seq<Step>, n: nat): State
    requires n <= |steps|
  {
    if n == 0 then s else Next(After(s, steps, n - 1), steps[n - 1])
  }

  lemma InitialCore(s: State)
    requires Initial(s)
    ensures Core(s) && Kept(s)
  {
    H.InitialInv(|s.control.pc|);
  }

  lemma {:induction false} RunCore(s: State, steps: seq<Step>, n: nat)
    requires Initial(s) && n <= |steps|
    ensures Core(After(s, steps, n))
  {
    if n == 0 {
      InitialCore(s);
    } else {
      RunCore(s, steps, n - 1);
      StepCore(After(s, steps, n - 1), steps[n - 1]);
    }
  }

  /** In every reachable state a thread that has not synchronised finds no object marked: its writes need no
    barrier. Threads from 2 on are always synchronised. */
  lemma UnsyncedNeedsNoBarrier(s: State, steps: seq<Step>, t: nat)
    requires Initial(s) && After(s, steps, |steps|).Runs(t)
    ensures var r := After(s, steps, |steps|);
            !r.control.rtSync[t] ==> t == 0 && r.Unmarked() && r.scan.Resting? && !Racy(r, Store(t))
  {
    hide Core, Enabled, Next, Initial;
    RunCore(s, steps, |steps|);
    var r := After(s, steps, |steps|);
    if !r.control.rtSync[t] { UnsyncedFindsNoMark(r, t); }
  }

  /** The run's first racy store, if there is one, is where the invariant fails first. */
  lemma {:induction false} RunKeeps(s: State, steps: seq<Step>, n: nat)
    requires Initial(s) && n <= |steps|
    requires forall i | 0 <= i < n :: !Racy(After(s, steps, i), steps[i])
    ensures Core(After(s, steps, n)) && Kept(After(s, steps, n))
    ensures n < |steps| ==> (Kept(After(s, steps, n + 1)) <==> !Racy(After(s, steps, n), steps[n]))
  {
    hide Core, Kept, Racy, Enabled, Next, Initial;
    if n == 0 {
      InitialCore(s);
    } else {
      RunKeeps(s, steps, n - 1);
      RunCore(s, steps, n);
    }
    if n < |steps| { StepKeeps(After(s, steps, n), steps[n]); }
  }

  /** Barrier and store of every write come together, and no scan is under way then. */
  ghost predicate Whole(s: State, steps: seq<Step>) {
    forall i | 0 <= i < |steps| && steps[i].Store? && Enabled(After(s, steps, i), steps[i]) ::
      i > 0 && steps[i - 1].Barrier? && steps[i - 1].thread == steps[i].thread &&
      Enabled(After(s, steps, i - 1), steps[i - 1]) && After(s, steps, i).scan.Resting?
  }

  /** A store right after its barrier is not racy: the barrier has shaded what goes into a marked object. */
  lemma WholeNotRacy(s: State, t: nat, dst: Value, i: nat, src: Value)
    requires Core(s) && Enabled(s, Barrier(t, dst, i, src)) && Taken(s, Barrier(t, dst, i, src)).scan.Resting?
    ensures !Racy(Taken(s, Barrier(t, dst, i, src)), Store(t))
  {
    if !s.control.rtSync[t] { UnsyncedFindsNoMark(s, t); }
  }

  lemma RacyIsStore(s: State, step: Step)
    requires Racy(s, step)
    ensures step.Store? && Enabled(s, step)
  {}

  lemma WholeStep(s: State, steps: seq<Step>, n: nat)
    requires Initial(s) && Whole(s, steps) && n < |steps|
    ensures !Racy(After(s, steps, n), steps[n])
  {
    hide Core, Initial, Taken, Enabled, Racy;
    if Racy(After(s, steps, n), steps[n]) {
      RacyIsStore(After(s, steps, n), steps[n]);
      RunCore(s, steps, n - 1);
      var b := steps[n - 1];
      assert steps[n] == Store(b.thread);
      assert After(s, steps, n) == Taken(After(s, steps, n - 1), b);
      WholeNotRacy(After(s, steps, n - 1), b.thread, b.dst, b.field, b.src);
    }
  }

  /** When scans and writes are taken as single steps, no interleaving of any number of mutators, marker, sweep
    and protocol ever lets a marked object hold a white reference, outside of a sweep. */
  lemma WholeStrong(s: State, steps: seq<Step>, n: nat)
    requires Initial(s) && n <= |steps| && Whole(s, steps)
    ensures After(s, steps, n).unswept.None? ==> After(s, steps, n).Heap().Strong()
  {
    hide Core, Initial, Next, Racy, Whole, T.State.Strong, State.Dark;
    forall i | 0 <= i < n ensures !Racy(After(s, steps, i), steps[i]) { WholeStep(s, steps, i); }
    RunKeeps(s, steps, n);
    DarkStrong(After(s, steps, n));
  }

  lemma DarkStrong(s: State)
    ensures s.Dark() ==> s.Heap().Strong()
  {}

  // ------------------------------------------------------------------ when steps come in between

  /** Three threads, object 0 with one field, object 1 unshaded, thread 0 about to mark its stack. */
  ghost function Racers(): State {
    State(H.Initial(3).(lock := 0, pc := [H.Marking, H.Mutating, H.Mutating]),
          [Header(true, false, false, true), Header(true, false, false, true)], [[NonPointer], []],
          Resting, None, [None, None, None])
  }

  /** ... and before thread 0 has called GC_collect. */
  ghost function Start(): State { Racers().(control := H.Initial(3)) }

  const CALL: seq<Step> := [Control(0), Control(0), Control(0)]

  lemma RacersReached()
    ensures Initial(Start()) && After(Start(), CALL, 3) == Racers()
  {
    var s := Start();
    var s1 := s.(control := s.control.(pc := [H.Waiting, H.Mutating, H.Mutating]));
    assert s.control.pc[0 := H.Waiting] == s1.control.pc;
    assert After(s, CALL, 0) == s && After(s, CALL, 1) == s1;
    var s2 := s1.(control := s1.control.(lock := 0, pc := [H.Locked, H.Mutating, H.Mutating]));
    assert s1.control.pc[0 := H.Locked] == s2.control.pc;
    assert After(s, CALL, 2) == s2;
    assert s2.control.pc[0 := H.Marking] == Racers().control.pc;
  }

  lemma {:induction false} AfterBoth(s: State, a: seq<Step>, b: seq<Step>, n: nat)
    requires n <= |b|
    ensures After(s, a + b, |a| + n) == After(After(s, a, |a|), b, n)
  {
    hide Next;
    if n == 0 { AfterFirst(s, a, b, |a|); } else { AfterBoth(s, a, b, n - 1); }
  }

  lemma Follow(s: State, a: seq<Step>, b: seq<Step>)
    ensures After(s, a + b, |a + b|) == After(After(s, a, |a|), b, |b|)
    ensures |a| <= |a + b| && After(s, a + b, |a|) == After(s, a, |a|)
  {
    AfterBoth(s, a, b, |b|);
    AfterFirst(s, a, b, |a|);
  }

  lemma {:induction false} AfterFirst(s: State, a: seq<Step>, b: seq<Step>, n: nat)
    requires n <= |a|
    ensures After(s, a + b, n) == After(s, a, n)
  {
    hide Next;
    if n > 0 { AfterFirst(s, a, b, n - 1); }
  }

  const GREY := Header(true, false, true, false)
  const BLACK := Header(true, true, true, false)
  const RED := Header(true, false, false, true)

  const DURING_SCAN: seq<Step> := [StartScan(0, 0), ShadeChild, Barrier(2, Ref(0), 0, Ref(1)), Store(2), EndScan]

  const DURING_WRITE: seq<Step> := [Barrier(2, Ref(0), 0, Ref(1)), StartScan(0, 0), ShadeChild, EndScan, Store(2)]

  const WRITE := Pending(Ref(0), 0, Ref(1))

  /** The scan of object 0 has shaded the object and passed its field. */
  ghost function FieldPassed(): State { Racers().(headers := [GREY, RED], scan := Scanning(0, 0, 1)) }

  lemma PassesField()
    ensures After(Racers(), DURING_SCAN, 2) == FieldPassed()
  {
    var s := Racers();
    var s1 := s.(headers := [GREY, RED], scan := Scanning(0, 0, 0));
    assert s.Heap().Shaded([Ref(0)]) == s1.headers;
    assert s1.Heap().Shaded([NonPointer]) == s1.headers;
    assert After(s, DURING_SCAN, 1) == s1;
  }

  lemma PassesFieldPending()
    ensures After(Racers(), DURING_WRITE, 3) == FieldPassed().(pending := [None, None, Some(WRITE)])
  {
    var s := Racers();
    var s1 := s.(pending := [None, None, Some(WRITE)]);
    assert s.pending[2 := Some(WRITE)] == s1.pending;
    var s2 := s1.(headers := [GREY, RED], scan := Scanning(0, 0, 0));
    assert s1.Heap().Shaded([Ref(0)]) == s2.headers;
    assert s2.Heap().Shaded([NonPointer]) == s2.headers;
    assert After(s, DURING_WRITE, 1) == s1;
    assert After(s, DURING_WRITE, 2) == s2;
  }

  lemma AfterScan()
    ensures var r := After(Racers(), DURING_SCAN, 5); r.unswept.None? && !r.Heap().Strong()
  {
    var s, s2 := Racers(), FieldPassed();
    PassesField();
    var s3 := s2.(pending := [None, None, Some(WRITE)]);
    assert s2.pending[2 := Some(WRITE)] == s3.pending;
    var s4 := s2.(fields := [[Ref(1)], []]);
    assert s3.fields[0][0 := Ref(1)] == [Ref(1)];
    assert s3.fields[0 := s3.fields[0][0 := Ref(1)]] == s4.fields && s3.pending[2 := None] == s4.pending;
    var s5 := s4.(headers := [BLACK, RED], scan := Resting);
    assert s4.headers[0 := BLACK] == s5.headers;
    assert After(s, DURING_SCAN, 3) == s3;
    assert After(s, DURING_SCAN, 4) == s4;
    assert After(s, DURING_SCAN, 5) == s5;
    assert !s5.Heap().Coloured(s5.fields[0][0]);
  }

  lemma AfterWrite()
    ensures var r := After(Racers(), DURING_WRITE, 5); r.unswept.None? && !r.Heap().Strong()
  {
    var s, s3 := Racers(), FieldPassed().(pending := [None, None, Some(WRITE)]);
    PassesFieldPending();
    var s4 := s3.(headers := [BLACK, RED], scan := Resting);
    assert s3.headers[0 := BLACK] == s4.headers;
    var s5 := s4.(fields := [[Ref(1)], []], pending := [None, None, None]);
    assert s4.fields[0][0 := Ref(1)] == [Ref(1)];
    assert s4.fields[0 := s4.fields[0][0 := Ref(1)]] == s5.fields && s4.pending[2 := None] == s5.pending;
    assert After(s, DURING_WRITE, 4) == s4;
    assert After(s, DURING_WRITE, 5) == s5;
    assert !s5.Heap().Coloured(s5.fields[0][0]);
  }

  /** Thread 2 is always synchronised and uses the barrier. Yet its store may leave a white reference in a
    marked object: it stores into a field that the scan under way is past, or the object is marked between
    barrier and store. */
  lemma RacesBreak()
    ensures Initial(Start())
    ensures var r := After(Start(), CALL + DURING_SCAN, 8); r.unswept.None? && !r.Heap().Strong()
    ensures var r := After(Start(), CALL + DURING_WRITE, 8); r.unswept.None? && !r.Heap().Strong()
  {
    hide Initial, Next, Racers, Start, T.State.Strong;
    RacersReached();
    AfterScan();
    AfterBoth(Start(), CALL, DURING_SCAN, 5);
    AfterWrite();
    AfterBoth(Start(), CALL, DURING_WRITE, 5);
  }

  // ------------------------------------------------------------------ the steps make up those of TriColour

  /** Barrier and store together are the WB of `TriColour`, and change nothing but the heap. */
  lemma WriteRefines(s: State, t: nat, dst: Value, i: nat, src: Value)
    requires Core(s) && Enabled(s, Barrier(t, dst, i, src))
    ensures T.Enabled(s.Heap(), T.Write(t, dst, i, src))
    ensures var r := Next(Next(s, Barrier(t, dst, i, src)), Store(t));
            && r.Heap() == T.Next(s.Heap(), T.Write(t, dst, i, src))
            && r == s.(headers := r.headers, fields := r.fields)
  {
    var b := Next(s, Barrier(t, dst, i, src));
    assert b.pending[t := None] == s.pending;
  }

  lemma StackWriteRefines(s: State, t: nat, src: Value)
    requires Core(s) && Enabled(s, WriteStack(t, src))
    ensures T.Enabled(s.Heap(), T.WriteStack(t, src))
    ensures var r := Next(s, WriteStack(t, src));
            r.Heap() == T.Next(s.Heap(), T.WriteStack(t, src)) && r == s.(headers := r.headers)
  {}

  /** A thread synchronises when it has marked its stack. */
  lemma SyncRefines(s: State, t: nat)
    requires Core(s) && Enabled(s, Control(t)) && s.control.pc[t].Marked?
    ensures T.Enabled(s.Heap(), T.Sync(t))
    ensures var r := Next(s, Control(t));
            && r.Heap() == T.Next(s.Heap(), T.Sync(t)) && r == s.(control := r.control)
            && r.control.rtSync == s.control.rtSync[t := true]
  {}

  lemma AllocateRefines(s: State, t: nat, size: nat)
    requires Core(s) && Enabled(s, Allocate(t, size))
    ensures T.Enabled(s.Heap(), T.Alloc(t, size))
    ensures var r := Next(s, Allocate(t, size));
            r.Heap() == T.Next(s.Heap(), T.Alloc(t, size)) && r == s.(headers := r.headers, fields := r.fields)
  {}

  /** The steps of a scan of an object with `n` fields. */
  function ScanSteps(t: nat, p: nat, n: nat): (r: seq<Step>)
    ensures |r| == n + 2 && r[0] == StartScan(t, p) && r[n + 1].EndScan? && forall k | 0 < k <= n :: r[k].ShadeChild?
  {
    [StartScan(t, p)] + seq(n, i requires 0 <= i < n => ShadeChild) + [EndScan]
  }

  /** One after the other they are the scan of `TriColour`, and change nothing but headers. */
  lemma ScanRefines(s: State, t: nat, p: nat)
    requires Core(s) && Enabled(s, StartScan(t, p))
    ensures p < |s.fields|
    ensures var steps := ScanSteps(t, p, |s.fields[p]|); var r := After(s, steps, |steps|);
            r.Heap() == T.Next(s.Heap(), T.Scan(p)) && r == s.(headers := r.headers)
  {
    var n := |s.fields[p]|;
    var steps := ScanSteps(t, p, n);
    if s.headers[p].mark {
      ScanNothing(s, steps, n + 2);
    } else {
      ScanTo(s, t, p, steps, n);
      assert s.fields[p][..n] == s.fields[p];
      hide Core, Enabled;
      ScanLast(s, After(s, steps, n + 1), t, p);
    }
  }

  lemma ScanLast(s: State, r: State, t: nat, p: nat)
    requires p < |s.headers| == |s.fields| && s.scan.Resting? && !s.headers[p].mark
    requires r == s.(headers := s.Heap().Shaded([Ref(p)] + s.fields[p]), scan := Scanning(t, p, |s.fields[p]|))
    ensures var r' := Next(r, EndScan);
            r'.Heap() == T.Next(s.Heap(), T.Scan(p)) && r' == s.(headers := r'.headers)
  {}

  lemma {:induction false} ScanNothing(s: State, steps: seq<Step>, k: nat)
    requires Core(s) && s.scan.Resting? && 0 < k <= |steps| && steps[0].StartScan?
    requires steps[0].obj < |s.headers| && s.headers[steps[0].obj].mark
    requires forall i | 0 < i < k :: steps[i].ShadeChild? || steps[i].EndScan?
    ensures After(s, steps, k) == s
  {
    if k > 1 { ScanNothing(s, steps, k - 1); } else { assert After(s, steps, 0) == s; }
  }

  lemma {:induction false} ScanTo(s: State, t: nat, p: nat, steps: seq<Step>, k: nat)
    requires Core(s) && Enabled(s, StartScan(t, p)) && !s.headers[p].mark && k <= |s.fields[p]|
    requires steps == ScanSteps(t, p, |s.fields[p]|)
    ensures After(s, steps, k + 1) ==
            s.(headers := s.Heap().Shaded([Ref(p)] + s.fields[p][..k]), scan := Scanning(t, p, k))
  {
    var vs := s.fields[p];
    if k == 0 {
      assert After(s, steps, 0) == s && [Ref(p)] + vs[..0] == [Ref(p)];
    } else {
      ScanTo(s, t, p, steps, k - 1);
      hide Core, T.State.Ok;
      assert [Ref(p)] + vs[..k] == [Ref(p)] + vs[..k - 1] + [vs[k - 1]];
      T.ShadedPush(s.Heap(), [Ref(p)] + vs[..k - 1], vs[k - 1]);
    }
  }

  // ------------------------------------------------------------------ a whole cycle

  /** The sweep of one object: red ones stay as they are, else the mark is dropped, or the shade if there is none. */
  lemma SweepObjectIs(s: State, p: nat)
    requires Enabled(s, SweepObject(p)) && s.headers[p].inUse
    ensures var r := Next(s, SweepObject(p)); var h := s.headers[p];
            && r == s.(headers := r.headers, unswept := r.unswept) && r.unswept == Some(s.unswept.value - {p})
            && r.headers == s.headers[p := if h.red then h else if h.mark then h.(mark := false) else h.(grey := false)]
  {}

  /** The sweep. */
  function SweepSteps(n: nat): (r: seq<Step>)
    ensures |r| == n + 1 && r[0].StartSweep? && forall k: nat | k < n :: r[k + 1] == SweepObject(k)
  {
    [StartSweep] + seq(n, i requires 0 <= i < n => SweepObject(i))
  }

  function Repeated(step: Step, k: nat): (r: seq<Step>)
    ensures |r| == k && forall i | 0 <= i < k :: r[i] == step
  {
    seq(k, i requires 0 <= i < k => step)
  }

  ghost predicate SweptUpTo(hs0: seq<Header>, hs: seq<Header>, k: nat) {
    |hs| == |hs0| && forall o | 0 <= o < |hs| ::
      var h := hs0[o];
      hs[o] == if o >= k || h.red then h else if h.mark then h.(mark := false) else h.(grey := false)
  }

  lemma {:induction false} SweepTo(s: State, steps: seq<Step>, k: nat)
    requires HeadersOk(s.headers) && Enabled(s, StartSweep) && k <= |s.headers| && steps == SweepSteps(|s.headers|)
    ensures var r := After(s, steps, k + 1);
            && r == s.(headers := r.headers, unswept := r.unswept) && SweptUpTo(s.headers, r.headers, k)
            && r.unswept == Some(Below(|s.headers|) - Below(k))
  {
    if k == 0 {
      SweepStarts(s, steps);
    } else {
      hide Enabled, Taken, Below, SweptUpTo, HeadersOk, Next;
      SweepTo(s, steps, k - 1);
      var r := After(s, steps, k);
      assert steps[k] == SweepObject(k - 1);
      SweepMore(s, r, k);
    }
  }

  lemma SweepStarts(s: State, steps: seq<Step>)
    requires Enabled(s, StartSweep) && steps != [] && steps[0].StartSweep?
    ensures After(s, steps, 1) == s.(unswept := Some(Below(|s.headers|) - Below(0)))
  {
    assert Below(|s.headers|) - Below(0) == Below(|s.headers|);
    assert After(s, steps, 0) == s;
    hide Below;
  }

  lemma SweepMore(s: State, r: State, k: nat)
    requires HeadersOk(s.headers) && 0 < k <= |s.headers| && SweptUpTo(s.headers, r.headers, k - 1)
    requires r == s.(headers := r.headers, unswept := Some(Below(|s.headers|) - Below(k - 1)))
    ensures var r' := Next(r, SweepObject(k - 1));
            && r' == s.(headers := r'.headers, unswept := r'.unswept) && SweptUpTo(s.headers, r'.headers, k)
            && r'.unswept == Some(Below(|s.headers|) - Below(k))
  {
    hide Below, HeadersOk, SweptUpTo, Next, Taken;
    BelowLess(|s.headers|, k);
    NotYetSwept(s.headers, r.headers, k);
    SweepObjectIs(r, k - 1);
    SweptMore(s.headers, r.headers, k);
  }

  lemma NotYetSwept(hs0: seq<Header>, hs: seq<Header>, k: nat)
    requires HeadersOk(hs0) && 0 < k <= |hs0| && SweptUpTo(hs0, hs, k - 1)
    ensures |hs| == |hs0| && hs[k - 1] == hs0[k - 1] && hs[k - 1].inUse
  {}

  lemma BelowLess(n: nat, k: nat)
    requires 0 < k <= n
    ensures Below(n) - Below(k) == Below(n) - Below(k - 1) - {k - 1}
  {}

  lemma SweptMore(hs0: seq<Header>, hs: seq<Header>, k: nat)
    requires 0 < k <= |hs0| && SweptUpTo(hs0, hs, k - 1)
    ensures var h := hs[k - 1];
            SweptUpTo(hs0, hs[k - 1 := if h.red then h else if h.mark then h.(mark := false) else h.(grey := false)], k)
  {}

  /** From a state in which the collector runs and nothing is being scanned, sweep and cycle can be ended: nothing is
    marked then, no object has changed otherwise, and the next cycle can be asked for. */
  lemma SweepEnds(s: State)
    requires HeadersOk(s.headers) && H.Ok(s.control) && Enabled(s, StartSweep)
    ensures var steps := RestSteps(|s.headers|); var r := After(s, steps, |steps|);
            && SweptUpTo(s.headers, r.headers, |s.headers|) && r.Unmarked() && r.unswept.None?
            && r == s.(headers := r.headers, control := r.control)
            && r.control == H.After(s.control, H.Repeated(H.Collector, 4), 4)
  {
    hide After, Taken, Below, SweptUpTo, SweepSteps, HeadersOk, Next, H.After, Repeated, H.Repeated;
    var n := |s.headers|;
    SweepTo(s, SweepSteps(n), n);
    var swept := After(s, SweepSteps(n), n + 1);
    assert Below(n) - Below(n) == {};
    SweptAll(s.headers, swept.headers);
    AfterBoth(s, SweepSteps(n), Repeated(Collector, 4), 4);
    LastSteps(swept);
  }

  function RestSteps(n: nat): seq<Step> { SweepSteps(n) + Repeated(Collector, 4) }

  lemma SweptAll(hs0: seq<Header>, hs: seq<Header>)
    requires HeadersOk(hs0) && SweptUpTo(hs0, hs, |hs0|)
    ensures forall o | 0 <= o < |hs| :: !hs[o].mark
  {}

  lemma LastSteps(s: State)
    requires H.Ok(s.control) && s.control.gc.Running? && s.unswept == Some({})
    ensures After(s, Repeated(Collector, 4), 4) ==
            s.(control := H.After(s.control, H.Repeated(H.Collector, 4), 4), unswept := None)
  {
    var steps, turns := Repeated(Collector, 4), H.Repeated(H.Collector, 4);
    assert After(s, steps, 0) == s && H.After(s.control, turns, 0) == s.control;
    assert After(s, steps, 1) == s.(control := H.After(s.control, turns, 1), unswept := None);
    assert After(s, steps, 2) == s.(control := H.After(s.control, turns, 2), unswept := None);
    assert After(s, steps, 3) == s.(control := H.After(s.control, turns, 3), unswept := None);
  }

  /** While a thread is in GC_collect and nothing is scanned, only the protocol moves. */
  lemma {:induction false} Controls(s: State, t: nat, n: nat, k: nat)
    requires H.Ok(s.control) && t < |s.control.pc| && t != H.GC_THREAD && t < |s.pending| && s.pending[t].None?
    requires s.scan.Resting? && k <= n
    ensures After(s, Repeated(Control(t), n), k) ==
            s.(control := H.After(s.control, H.Repeated(H.Mutator(t), n), k))
  {
    if k > 0 {
      Controls(s, t, n, k - 1);
      ControlTurn(After(s, Repeated(Control(t), n), k - 1), t);
      hide Next, H.Next;
    }
  }

  lemma ControlTurn(s: State, t: nat)
    requires H.Ok(s.control) && t < |s.control.pc| && t != H.GC_THREAD && t < |s.pending| && s.pending[t].None?
    requires s.scan.Resting?
    ensures Next(s, Control(t)) == s.(control := H.Next(s.control, H.Mutator(t)))
  {}

  /** The collector finds the request. */
  lemma FirstSteps(s: State)
    requires H.Inv(s.control) && s.control.gc.Idle? && s.control.lock == H.NOBODY && s.control.dirty
    ensures After(s, Repeated(Collector, 3), 3) ==
            s.(control := s.control.(lock := H.GC_THREAD, isGCRunning := true, gc := H.Running))
  {
    var steps, c := Repeated(Collector, 3), s.control;
    assert After(s, steps, 0) == s;
    assert After(s, steps, 1) == s.(control := c.(lock := H.GC_THREAD, gc := H.Testing));
    assert After(s, steps, 2) == s.(control := c.(lock := H.GC_THREAD, gc := H.Starting));
  }

  /** In any heap the main thread may call GC_collect ... */
  lemma MarkBegins(s: State)
    requires Initial(s)
    ensures var r := After(s, Repeated(Control(0), 3), 3);
            && r == s.(control := s.control.(lock := 0, pc := s.control.pc[0 := H.Marking]))
            && Core(r) && Enabled(r, StartScan(0, 0)) == (0 < |s.headers|)
  {
    RunCore(s, Repeated(Control(0), 3), 3);
    H.InitialInv(|s.control.pc|);
    hide Core, H.Inv, T.State.Ok, State.Unmarked;
    Controls(s, 0, 3, 3);
    H.CallReachesMark(s.control, 0);
  }

  lemma ScannedIs(h: T.State, p: nat)
    requires p < |h.headers| == |h.fields| && !h.headers[p].mark
    ensures var hs := T.Next(h, T.Scan(p)).headers;
            |hs| == |h.headers| && hs[p] == h.headers[p].(mark := true, grey := true, red := false)
  {}

  /** ... and mark object `p`. */
  lemma MarkReached(s: State, p: nat) returns (steps: seq<Step>)
    requires Initial(s) && p < |s.headers|
    ensures var r := After(s, steps, |steps|);
            && r == s.(headers := r.headers, control := s.control.(lock := 0, pc := s.control.pc[0 := H.Marking]))
            && H.Inv(r.control) && |r.headers| == |s.headers|
            && r.headers[p] == s.headers[p].(mark := true, grey := true, red := false)
  {
    MarkBegins(s);
    ScannedIs(s.Heap(), p);
    var call, scan := Repeated(Control(0), 3), ScanSteps(0, p, |s.fields[p]|);
    var now := After(s, call, 3);
    assert Enabled(now, StartScan(0, p));
    RunCore(s, call + scan, |call + scan|);
    assert H.Inv(After(s, call + scan, |call + scan|).control);
    hide Core, After, Next, T.Next, H.After, H.Inv;
    ScanRefines(now, 0, p);
    AfterBoth(s, call, scan, |scan|);
    steps := call + scan;
  }

  /** The main thread ends its call with a request for a collection if all others count as synchronised. */
  lemma Asked(s: State) returns (k: nat)
    requires H.Inv(s.control) && s.control.pc[0].Marking? && s.control.gc.Idle?
    requires s.scan.Resting? && s.pending != [] && s.pending[0].None?
    requires forall u | 2 <= u < |s.control.pc| :: s.control.rtSync[u]
    ensures var r := After(s, Repeated(Control(0), k), k);
            && r == s.(control := r.control) && H.Ok(r.control)
            && r.control.dirty && r.control.gc.Idle? && r.control.lock == H.NOBODY && r.control.rtSync[0]
  {
    k := H.CallEnds(s.control, 0);
    Controls(s, 0, k, k);
  }

  /** Object `p` of `s` has been marked, and nothing but headers and protocol has changed. */
  ghost predicate Marked(s: State, r: State, p: nat) {
    && p < |r.headers| == |s.headers| && r == s.(headers := r.headers, control := r.control) && H.Ok(r.control)
    && r.headers[p] == s.headers[p].(mark := true, grey := true, red := false)
  }

  /** The request is waiting. */
  lemma AskReached(s: State, p: nat) returns (steps: seq<Step>)
    requires Initial(s) && p < |s.headers|
    ensures var r := After(s, steps, |steps|);
            && Marked(s, r, p) && H.Inv(r.control) && HeadersOk(r.headers)
            && r.control.dirty && r.control.gc.Idle? && r.control.lock == H.NOBODY && r.control.rtSync[0]
  {
    InitialFacts(s);
    hide Next, After, Enabled, Initial, H.Inv, H.After, HeadersOk, Repeated;
    steps := MarkReached(s, p);
    var now := After(s, steps, |steps|);
    var k := Asked(now);
    Follow(s, steps, Repeated(Control(0), k));
    steps := steps + Repeated(Control(0), k);
    ReachedOk(s, steps);
  }

  lemma InitialFacts(s: State)
    requires Initial(s)
    ensures |s.control.rtSync| == |s.control.pc| >= 2 && s.control.gc.Idle?
    ensures s.scan.Resting? && s.unswept.None? && s.pending != [] && s.pending[0].None?
    ensures forall u | 2 <= u < |s.control.pc| :: s.control.rtSync[u]
  {}

  lemma ReachedOk(s: State, steps: seq<Step>)
    requires Initial(s)
    ensures var r := After(s, steps, |steps|); H.Inv(r.control) && HeadersOk(r.headers)
  {
    RunCore(s, steps, |steps|);
  }

  /** The collector runs. */
  lemma RunReached(s: State, p: nat) returns (steps: seq<Step>)
    requires Initial(s) && p < |s.headers|
    ensures var r := After(s, steps, |steps|);
            && Marked(s, r, p) && HeadersOk(r.headers) && r.control.isGCRunning && r.control.gc.Running?
            && r.control.dirty && r.control.lock == H.GC_THREAD && r.control.rtSync[0]
  {
    steps := AskReached(s, p);
    var now := After(s, steps, |steps|);
    hide Next, After, Enabled, Initial, H.Inv, HeadersOk;
    FirstSteps(now);
    Follow(s, steps, Repeated(Collector, 3));
    steps := steps + Repeated(Collector, 3);
  }

  /** Nobody collects or has asked to, the main thread has to synchronise again, and nothing is marked. */
  ghost predicate Settled(r: State) {
    && !r.control.isGCRunning && !r.control.dirty && r.control.lock == H.NOBODY && r.unswept.None?
    && r.control.rtSync != [] && !r.control.rtSync[0] && r.Unmarked()
  }

  /** A whole cycle can be run in any heap, for any number of threads: the main thread calls GC_collect and marks an
    object, the collector runs with the object marked, and at the end the object has lost its mark and kept its
    shade, nothing is marked, the request is gone and the main thread has to synchronise again. */
  lemma WholeCycle(s: State, p: nat) returns (steps: seq<Step>, m: nat)
    requires Initial(s) && p < |s.headers|
    ensures m <= |steps|
    ensures var r := After(s, steps, m);
            && Marked(s, r, p) && r.control.isGCRunning && r.control.dirty && r.control.lock == H.GC_THREAD
            && r.control.rtSync[0]
    ensures var r := After(s, steps, |steps|);
            && Settled(r) && r.fields == s.fields && |r.headers| == |s.headers|
            && r.headers[p] == s.headers[p].(mark := false, grey := true, red := false)
  {
    InitialFacts(s);
    hide Initial, After, H.After, Next, RestSteps, HeadersOk, Settled, Taken, H.Ok;
    var a := RunReached(s, p);
    var now := After(s, a, |a|);
    CycleEnds(now, p);
    var d := RestSteps(|now.headers|);
    Follow(s, a, d);
    steps, m := a + d, |a|;
  }

  lemma CycleEnds(s: State, p: nat)
    requires HeadersOk(s.headers) && H.Ok(s.control) && Enabled(s, StartSweep) && p < |s.headers| && s.headers[p].mark
    ensures var d := RestSteps(|s.headers|); var r := After(s, d, |d|);
            && Settled(r) && r.fields == s.fields && |r.headers| == |s.headers|
            && r.headers[p] == s.headers[p].(mark := false)
  {
    assert !s.headers[p].red;
    hide After, H.After, Next, RestSteps, HeadersOk, Taken;
    SweepEnds(s);
    H.CollectionEnds(s.control);
  }
}
