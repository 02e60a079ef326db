/** Which stacks a collection sees (runtime/gc/garbage-collection.c:319-391, 458-521 and 922-982,
  init.c:431-436): the protocol of `Handshake` decides who has marked, `Sweep` what becomes of the rest. */
module ThreadStacks {
  import opened Chunk
  import opened Wrappers
  import opened Marking
  import opened Sweep
  import H = Handshake

  // ------------------------------------------------------------------ who has marked

  lemma {:induction false} CollectorNeverMarks(threads: nat, steps: seq<H.Step>, n: nat)
    requires 2 <= threads && n <= |steps|
    ensures !H.After(H.Initial(threads), steps, n).marked[H.GC_THREAD]
  {
    if n > 0 {
      CollectorNeverMarks(threads, steps, n - 1);
      OthersMark(H.After(H.Initial(threads), steps, n - 1), steps[n - 1]);
    }
  }

  lemma OthersMark(s: H.State, step: H.Step)
    requires H.Ok(s) && !s.marked[H.GC_THREAD]
    ensures !H.Next(s, step).marked[H.GC_THREAD]
  {}

  /** When a collection is under way the main thread has marked its stack, and no other thread has. */
  lemma OnlyMainMarks(threads: nat, steps: seq<H.Step>, t: nat)
    requires 2 <= threads && t < threads
    ensures var s := H.After(H.Initial(threads), steps, |steps|); s.dirty ==> (s.marked[t] <==> t == 0)
  {
    if t == 0 {
      H.MainStackMarked(threads, steps);
    } else if t == H.GC_THREAD {
      CollectorNeverMarks(threads, steps, |steps|);
    } else {
      H.SyncedForGood(H.Initial(threads), steps, |steps|, t);
    }
  }

  // ------------------------------------------------------------------ what a cycle keeps

  ghost predicate FramesOk(stacks: seq<ThreadStack>) { forall t | t in stacks :: t.current <= |t.frames| }

  /** What the stacks point to that have been marked. */
  ghost function MarkedRoots(g: Graph, stacks: seq<ThreadStack>, marked: seq<bool>, k: nat): set<nat>
    requires k <= |stacks| == |marked| && FramesOk(stacks)
  {
    if k == 0 then {} else MarkedRoots(g, stacks, marked, k - 1) + if marked[k - 1] then Roots(g, stacks[k - 1]) else {}
  }

  lemma {:induction false} OnlyFirst(g: Graph, stacks: seq<ThreadStack>, marked: seq<bool>, k: nat)
    requires 0 < k <= |stacks| == |marked| && FramesOk(stacks)
    requires forall t | 0 <= t < k :: marked[t] <==> t == 0
    ensures MarkedRoots(g, stacks, marked, k) == Roots(g, stacks[0])
  {
    if k > 1 { OnlyFirst(g, stacks, marked, k - 1); }
  }

  /** A cycle of the collector: what has been marked when it starts and the worklist are those of the threads that
    have marked their stacks. */
  datatype Collection = Collection(y: Cycle, n: set<nat>, items: seq<Slot>, globals: set<nat>,
                                   stacks: seq<ThreadStack>, steps: seq<H.Step>)
  {
    ghost predicate Ok() {
      && 2 <= |stacks| && FramesOk(stacks)
      && y.Ran(n, true) && y.g.Closed(y.marked) && y.g.Queue(y.start, items, -1, 0)
      && y.roots == globals + y.g.SlotTargets(items) && (forall q | q in globals :: q < |y.g.objs|)
      && var s := H.After(H.Initial(|stacks|), steps, |steps|);
         s.dirty && y.g.Marked(y.start) == MarkedRoots(y.g, stacks, s.marked, |stacks|)
    }

    /** An object that the program can still get at: from globals or from the stack of some thread. */
    ghost predicate InUse(p: nat)
      requires FramesOk(stacks)
    {
      y.g.Reached(globals, p) || exists t :: 0 <= t < |stacks| && y.g.Reached(Roots(y.g, stacks[t]), p)
    }

    /** The chunk holds an object that neither globals nor the stack of the main thread reach. */
    ghost predicate Missed(chunk: nat)
      requires FramesOk(stacks) && stacks != []
    {
      && chunk < |y.g.owner| && y.g.owner[chunk] >= 0
      && !y.g.Reached(globals + Roots(y.g, stacks[0]), y.g.owner[chunk])
    }

    ghost predicate Frees(chunk: nat) {
      |y.types0| == |y.marked| && chunk in FreedList(y.types0, y.marked, |y.marked|, true)
    }
  }

  /** A cycle keeps what globals and the stack of the main thread reach, and nothing else. */
  lemma KeptByMain(c: Collection, p: nat)
    requires c.Ok() && p < |c.y.g.objs|
    ensures c.y.Live(p) <==> c.y.g.Reached(c.globals + Roots(c.y.g, c.stacks[0]), p)
  {
    forall t: nat | t < |c.stacks|
      ensures H.After(H.Initial(|c.stacks|), c.steps, |c.steps|).marked[t] <==> t == 0
    {
      OnlyMainMarks(|c.stacks|, c.steps, t);
    }
    var s := H.After(H.Initial(|c.stacks|), c.steps, |c.steps|);
    OnlyFirst(c.y.g, c.stacks, s.marked, |c.stacks|);
    LiveIsReached(c.y, c.items, c.globals, Roots(c.y.g, c.stacks[0]), c.n, true, p);
  }

  /** Nothing touches the chunk between the two cycles. */
  ghost predicate Untouched(c: Collection, c': Collection, chunk: nat) {
    && chunk < |c.y.types| && chunk < |c'.y.types0| && c'.y.types0[chunk] == c.y.types[chunk]
    && chunk < |c.y.end| && chunk < |c'.y.start| && c'.y.start[chunk] == c.y.end[chunk]
  }

  /** A chunk of an object that only the stacks of other threads reach is freed by the second of two cycles at the
    latest, in use or not. */
  lemma OtherStacksFreed(c: Collection, c': Collection, chunk: nat)
    requires c.Ok() && c'.Ok() && |c.y.g.owner| == |c'.y.g.owner| && c.Missed(chunk)
    requires c.Frees(chunk) || (Untouched(c, c', chunk) && c'.Missed(chunk))
    ensures c.Frees(chunk) || c'.Frees(chunk)
  {
    if !c.Frees(chunk) {
      KeptByMain(c, c.y.g.owner[chunk]);
      KeptByMain(c', c'.y.g.owner[chunk]);
      FloatingGarbage(c.y, c.n, c'.y, c'.n, chunk);
    }
  }

  // ------------------------------------------------------------------ an object in use that is freed

  const FIVE: seq<H.Step> := [H.Mutator(0), H.Mutator(0), H.Mutator(0), H.Mutator(0), H.Mutator(0)]
  const CALL: seq<H.Step> := FIVE + FIVE

  /** A run of three threads up to the request of a collection: the main thread marks its stack and finds all
    others synchronised. */
  lemma Requested()
    ensures var s := H.After(H.Initial(3), CALL, 10); s.dirty && s.marked == [true, false, false]
  {
    var s, s5 := H.Initial(3), HasMarked();
    MarkedFirst();
    assert H.After(s, CALL, 6) == s5.(pc := [H.Scanning(1), H.Mutating, H.Mutating]);
    assert H.After(s, CALL, 7) == s5.(pc := [H.Scanning(2), H.Mutating, H.Mutating]);
    assert H.After(s, CALL, 8) == s5.(pc := [H.Scanning(3), H.Mutating, H.Mutating]);
    assert H.After(s, CALL, 9) == s5.(pc := [H.LastToSync, H.Mutating, H.Mutating]);
    assert H.After(s, CALL, 10) == s5.(dirty := true, pc := [H.Leaving, H.Mutating, H.Mutating]);
  }

  /** The main thread after five steps: it is about to look at the others. */
  function HasMarked(): H.State {
    H.State(0, false, false, [true, false, true], [H.Scanning(0), H.Mutating, H.Mutating], H.Idle, [true, false, false])
  }

  lemma MarkedFirst()
    ensures H.After(H.Initial(3), CALL, 5) == HasMarked()
  {
    var s := H.Initial(3);
    assert H.After(s, CALL, 1).pc == [H.Waiting, H.Mutating, H.Mutating];
    assert H.After(s, CALL, 2).pc == [H.Locked, H.Mutating, H.Mutating];
    assert H.After(s, CALL, 3).pc == [H.Marking, H.Mutating, H.Mutating];
    assert H.After(s, CALL, 4).pc == [H.Marked, H.Mutating, H.Mutating];
    assert H.After(s, CALL, 4).marked == [true, false, false];
  }

  const WHITE := Header(true, false, false, false)

  /** One object in chunk 0, which nothing but a frame of thread 2 points to. */
  ghost function Lost(): Collection {
    var g := Graph([Obj(Normal(0, None), [])], [0, -1, -1]);
    var hs := [WHITE, CLEAN, CLEAN];
    var types := [NormalChunk, StackChunk, StackChunk];
    var none := ThreadStack([], [], [[], []], 1);
    Collection(Cycle(g, {}, types, hs, hs, types[0 := Empty], hs), {}, [], {},
               [none, none, ThreadStack([], [1, 2], [[Ref(0)], []], 1)], CALL)
  }

  lemma LostGraph()
    ensures var g, hs := Lost().y.g, Lost().y.start;
            g.Ok() && |hs| == |g.owner| && g.Marked(hs) == {} && g.Colours(hs) && g.Closed(hs)
  {
    var g := Lost().y.g;
    assert g.objs[0].shape == Normal(0, None) && Chunks(g.objs[0].shape) == {0};
    assert g.ObjOk(g.objs[0]) && g.Held(0, 0);
  }

  lemma NothingReached(g: Graph, p: nat)
    ensures !g.Reached({}, p)
  {
    if g.Reached({}, p) { g.ClosedHolds({}, p, {}); }
  }

  lemma LostRan()
    ensures Lost().y.Ran({}, true)
  {
    var y := Lost().y;
    LostGraph();
    LostSwept();
    y.g.RunBegins(y.start, {});
    NothingReached(y.g, 0);
    hide SweptTo, Graph.Run, Graph.Colours, Graph.Reached, Graph.Marked;
    assert y.TypesOk();
  }

  lemma LostSwept()
    ensures var y := Lost().y; SweptTo(y.types0, y.marked, y.types, y.end, 3, true)
  {
    var y := Lost().y;
    assert Swept(NormalChunk, WHITE) == WHITE && Swept(StackChunk, CLEAN) == CLEAN;
    assert Freed(NormalChunk, WHITE, true) && !Freed(StackChunk, CLEAN, true);
  }

  lemma LostRoots()
    ensures var c := Lost();
            Roots(c.y.g, c.stacks[0]) == {} && Roots(c.y.g, c.stacks[2]) == {0}
  {
    var c := Lost();
    var g, frames := c.y.g, c.stacks[2].frames;
    assert g.FrameTargets(frames, 1) == g.FrameTargets(frames, 0) + g.Targets(frames[0]);
    assert g.Targets([Ref(0)]) == {0} && g.Targets([]) == {};
    var none := c.stacks[0].frames;
    assert g.FrameTargets(none, 1) == g.FrameTargets(none, 0) + g.Targets(none[0]);
  }

  /** The first cycle frees it. */
  lemma LostObject()
    ensures var c := Lost();
            c.Ok() && c.InUse(0) && c.y.g.owner[0] == 0 && c.Frees(0)
  {
    var c := Lost();
    var g, hs := c.y.g, c.y.start;
    LostGraph();
    Requested();
    g.RunBegins(hs, {});
    NothingQueued(g, hs);
    LostRan();
    LostRoots();
    OnlyFirst(g, c.stacks, [true, false, false], 3);
    g.RootReached({0}, 0);
    FreedListHas(c.y.types0, hs, 3, true, 0);
  }
}
