/** The sweep and the whole collection cycle (runtime/gc/garbage-collection.c:505-766). */
module Sweep {
  import opened Arithmetic
  import opened Chunk
  import opened ChunkHeap
  import opened Marking
  import Reachability

  predicate Freed(t: ChunkType, h: Header, collectAll: bool) {
    Looked(t, h) && if h.red then collectAll else !h.mark && !h.grey
  }

  /** The chunks among the first `n` that are freed, in address order. */
  ghost function FreedList(types: seq<ChunkType>, hs: seq<Header>, n: nat, all: bool): seq<nat>
    requires n <= |types| == |hs|
  {
    if n == 0 then []
    else FreedList(types, hs, n - 1, all) + if Freed(types[n - 1], hs[n - 1], all) then [n - 1] else []
  }

  ghost predicate Ascending(r: seq<nat>, n: nat) {
    && (forall i | 0 <= i < |r| :: r[i] < n)
    && (forall i, j | 0 <= i < j < |r| :: r[i] < r[j])
  }

  lemma {:induction false} FreedListOrdered(types: seq<ChunkType>, hs: seq<Header>, n: nat, all: bool)
    requires n <= |types| == |hs|
    ensures Ascending(FreedList(types, hs, n, all), n)
  {
    if n > 0 {
      FreedListOrdered(types, hs, n - 1, all);
      AscendingPush(FreedList(types, hs, n - 1, all), n - 1);
    }
  }

  lemma AscendingPush(q: seq<nat>, c: nat)
    requires Ascending(q, c)
    ensures Ascending(q + [c], c + 1) && Ascending(q + [], c + 1)
  {
    var r := q + [c];
    assert r[|q|] == c && forall i | 0 <= i < |q| :: r[i] == q[i];
  }

  lemma {:induction false} FreedListHas(types: seq<ChunkType>, hs: seq<Header>, n: nat, all: bool, c: nat)
    requires n <= |types| == |hs|
    ensures c in FreedList(types, hs, n, all) <==>
            && c < n && (types[c].NormalChunk? || types[c].ArrayChunk?) && hs[c].inUse
            && if hs[c].red then all else !hs[c].mark && !hs[c].grey
  {
    if n > 0 {
      FreedListHas(types, hs, n - 1, all, c);
      var q := FreedList(types, hs, n - 1, all);
      assert c in q + [n - 1] <==> c in q || c == n - 1;
    }
  }

  /** The state of a sweep that has reached chunk `p`. */
  ghost predicate SweptTo(types0: seq<ChunkType>, hs0: seq<Header>, types: seq<ChunkType>, hs: seq<Header>, p: nat,
                      all: bool) {
    && p <= |types0| == |hs0| == |types| == |hs|
    && (forall c | p <= c < |hs| :: hs[c] == hs0[c] && types[c] == types0[c])
    && (forall c | 0 <= c < p :: hs[c] == Swept(types0[c], hs0[c]))
    && (forall c | 0 <= c < p :: types[c] == if Freed(types0[c], hs0[c], all) then Empty else types0[c])
  }

  /** What the sweep does to a chunk, case by case: only chunks of normal objects and of arrays that are in use can
    change. */
  lemma SweptChunk(types0: seq<ChunkType>, hs0: seq<Header>, types: seq<ChunkType>, hs: seq<Header>, all: bool,
                   c: nat)
    requires SweptTo(types0, hs0, types, hs, |hs|, all) && c < |hs|
    ensures var t, h, freed := types0[c], hs0[c], c in FreedList(types0, hs0, |hs|, all);
            if (t.NormalChunk? || t.ArrayChunk?) && h.inUse then
              && (freed <==> if h.red then all else !h.mark && !h.grey)
              && types[c] == (if freed then Empty else t)
              && hs[c] == (if freed || h.red then h else if h.mark then h.(mark := false) else h.(grey := false))
            else types[c] == t && hs[c] == h && !freed
  {
    FreedListHas(types0, hs0, |hs|, all, c);
  }

  lemma SweptNext(types0: seq<ChunkType>, hs0: seq<Header>, types: seq<ChunkType>, hs: seq<Header>, p: nat, all: bool)
    requires SweptTo(types0, hs0, types, hs, p, all) && p < |hs|
    ensures Freed(types[p], hs[p], all) ==> SweptTo(types0, hs0, types[p := Empty], hs, p + 1, all)
    ensures !Freed(types[p], hs[p], all) ==> SweptTo(types0, hs0, types, hs[p := Swept(types[p], hs[p])], p + 1, all)
    ensures FreedList(types0, hs0, p + 1, all) ==
            FreedList(types0, hs0, p, all) + if Freed(types[p], hs[p], all) then [p] else []
  {}

  /** One chunk of the sweep (lines 545-702). */
  method SweepChunk(h: Heap, p: nat, oneByOne: bool, collectAll: bool)
    requires h.Valid() && p < h.n
    modifies h, h.chunkType, h.next, h.header
    ensures h.Valid() && h.reserved == old(h.reserved)
    ensures var freed := Freed(old(h.chunkType[p]), old(h.header[p]), collectAll);
            && h.chunkType[..] == (if freed then old(h.chunkType[..])[p := Empty] else old(h.chunkType[..]))
            && h.header[..] == (if freed then old(h.header[..])
                                else old(h.header[..])[p := Swept(old(h.chunkType[p]), old(h.header[p]))])
            && h.free == old(h.free) + (if freed && oneByOne then [p] else [])
            && h.sub == old(h.sub) + (if freed && !oneByOne then [p] else [])
  {
    hide IsList, Parted;
    if h.chunkType[p].StackChunk? {
      return;
    }
    if h.chunkType[p].NormalChunk? || h.chunkType[p].ArrayChunk? {
      var header := h.header[p];
      if header.inUse {
        if header.red {
          if collectAll { FreeChunk(h, p, oneByOne); }
        } else if header.mark {
          h.header[p] := header.(mark := false);
        } else if header.grey {
          h.header[p] := header.(grey := false);
        } else {
          FreeChunk(h, p, oneByOne);
        }
      }
    }
  }

  method FreeChunk(h: Heap, p: nat, oneByOne: bool)
    requires h.Valid() && p < h.n && !h.chunkType[p].Empty?
    modifies h, h.chunkType, h.next
    ensures h.Valid() && h.reserved == old(h.reserved) && h.chunkType[..] == old(h.chunkType[..])[p := Empty]
    ensures h.free == old(h.free) + (if oneByOne then [p] else [])
    ensures h.sub == old(h.sub) + (if oneByOne then [] else [p])
  {
    if oneByOne { h.InsertChunkToFL(p); } else { h.InsertChunkToSubList(p); }
  }

  /** sweep (lines 524-722). */
  method SweepHeap(h: Heap, oneByOne: bool, collectAll: bool)
    requires h.Valid() && h.sub == []
    modifies h, h.chunkType, h.next, h.header
    ensures h.Valid() && h.sub == [] && h.reserved == old(h.reserved)
    ensures h.free == old(h.free) + FreedList(old(h.chunkType[..]), old(h.header[..]), h.n, collectAll)
    ensures SweptTo(old(h.chunkType[..]), old(h.header[..]), h.chunkType[..], h.header[..], h.n, collectAll)
    ensures old(h.free) <= h.free && forall i, j | |old(h.free)| <= i < j < |h.free| :: h.free[i] < h.free[j]
    ensures forall c: nat | c < h.n &&
              (old(h.chunkType[c]).StackChunk? || old(h.chunkType[c]).WeakChunk? || old(h.chunkType[c]).Empty? ||
               !old(h.header[c]).inUse) ::
              && h.chunkType[c] == old(h.chunkType[c]) && h.header[c] == old(h.header[c])
              && c !in h.free[|old(h.free)|..]
    ensures forall c: nat | c < h.n && old(h.header[c]).inUse &&
              (old(h.chunkType[c]).NormalChunk? || old(h.chunkType[c]).ArrayChunk?) ::
              && (c in h.free[|old(h.free)|..] <==>
                    if old(h.header[c]).red then collectAll else !old(h.header[c]).mark && !old(h.header[c]).grey)
              && h.chunkType[c] == (if c in h.free[|old(h.free)|..] then Empty else old(h.chunkType[c]))
              && h.header[c] == (if old(h.header[c]).red then old(h.header[c])
                                 else if old(h.header[c]).mark then old(h.header[c]).(mark := false)
                                 else old(h.header[c]).(grey := false))
  {
    hide IsList, Parted, SweptTo, FreedList, Heap.Valid;
    ghost var f, ts, hs := h.free, h.chunkType[..], h.header[..];
    SweepAll(h, oneByOne, collectAll);
    assert h.free[|f|..] == FreedList(ts, hs, h.n, collectAll);
    FreedListOrdered(ts, hs, h.n, collectAll);
    forall i, j | |f| <= i < j < |h.free| ensures h.free[i] < h.free[j] {
      assert h.free[i] == h.free[|f|..][i - |f|] && h.free[j] == h.free[|f|..][j - |f|];
    }
    forall c: nat | c < h.n { SweptChunk(ts, hs, h.chunkType[..], h.header[..], collectAll, c); }
  }

  /** The loop over the chunks, with what it does to them expressed by `SweptTo`. */
  method SweepAll(h: Heap, oneByOne: bool, collectAll: bool)
    requires h.Valid() && h.sub == []
    modifies h, h.chunkType, h.next, h.header
    ensures h.Valid() && h.sub == [] && h.reserved == old(h.reserved)
    ensures h.chunkType.Length == h.header.Length == h.n
    ensures h.free == old(h.free) + FreedList(old(h.chunkType[..]), old(h.header[..]), h.n, collectAll)
    ensures SweptTo(old(h.chunkType[..]), old(h.header[..]), h.chunkType[..], h.header[..], h.n, collectAll)
  {
    hide IsList, Parted, Freed, Swept, SweptTo;
    ghost var ts, hs := h.chunkType[..], h.header[..];
    SweepBegins(ts, hs, collectAll);
    var p := 0;
    while p < h.n
      invariant p <= h.n && h.Valid() && h.reserved == old(h.reserved)
      invariant SweptTo(ts, hs, h.chunkType[..], h.header[..], p, collectAll)
      invariant h.free == old(h.free) + (if oneByOne then FreedList(ts, hs, p, collectAll) else [])
      invariant h.sub == if oneByOne then [] else FreedList(ts, hs, p, collectAll)
    {
      SweptNext(ts, hs, h.chunkType[..], h.header[..], p, collectAll);
      SweepChunk(h, p, oneByOne, collectAll);
      p := p + 1;
    }
    if !oneByOne { h.AddSweepListToFL(); }
  }

  lemma SweepBegins(types: seq<ChunkType>, hs: seq<Header>, all: bool)
    requires |types| == |hs|
    ensures SweptTo(types, hs, types, hs, 0, all)
  {}

  // ------------------------------------------------------------------ a collection cycle

  /** One cycle: the chunk types and headers at its start, the headers after marking, and what the
    sweep leaves. */
  datatype Cycle = Cycle(g: Graph, roots: set<nat>, types0: seq<ChunkType>, start: seq<Header>,
                         marked: seq<Header>, types: seq<ChunkType>, end: seq<Header>)
  {
    /** What survives: what was marked when the cycle began and what the roots reach. */
    ghost predicate Live(p: nat)
      requires g.Ok() && |start| == |g.owner|
    {
      p in g.Marked(start) || g.Reached(roots, p)
    }

    ghost predicate TypesOk() {
      |types0| == |g.owner| && forall c | 0 <= c < |types0| && g.owner[c] >= 0 ::
          types0[c].NormalChunk? || types0[c].ArrayChunk?
    }

    ghost predicate Ran(n: set<nat>, all: bool) {
      && TypesOk() && g.Run(start, marked, n, {}, {}, roots) && SweptTo(types0, marked, types, end, |end|, all)
      && |end| == |g.owner|
      && forall p: nat | p < |g.objs| :: p in g.Marked(marked) <==> Live(p)
    }
  }

  /** No chunk of a live object is freed, and its mark is cleared for the next cycle. */
  lemma LiveKept(y: Cycle, n: set<nat>, all: bool, c: nat)
    requires y.Ran(n, all) && c < |y.g.owner| && y.g.owner[c] >= 0
    requires y.Live(y.g.owner[c])
    ensures y.types[c] == y.types0[c] && c !in FreedList(y.types0, y.marked, |y.marked|, all)
    ensures y.marked[c].mark && !y.marked[c].red && y.end[c] == y.marked[c].(mark := false)
  {
    FreedListHas(y.types0, y.marked, |y.marked|, all, c);
  }

  /** A chunk of a dead object is freed by the first sweep exactly when it was red or not grey; a grey
    one loses its shade. */
  lemma DeadFreedWhen(y: Cycle, n: set<nat>, c: nat)
    requires y.Ran(n, true) && c < |y.g.owner| && y.g.owner[c] >= 0 && !y.Live(y.g.owner[c])
    ensures c in FreedList(y.types0, y.marked, |y.marked|, true) <==> y.start[c].red || !y.start[c].grey
    ensures y.types[c].Empty? <==> y.start[c].red || !y.start[c].grey
    ensures !y.types[c].Empty? ==> y.types[c] == y.types0[c] && y.end[c] == Header(true, false, false, false)
  {
    FreedListHas(y.types0, y.marked, |y.marked|, true, c);
  }

  /** After the sweep no chunk that is in use is marked, stack chunks aside. */
  lemma NothingMarked(y: Cycle, n: set<nat>, all: bool, c: nat)
    requires y.Ran(n, all) && c < |y.types| && !y.types[c].Empty? && y.end[c].inUse && y.g.owner[c] >= 0
    ensures !y.end[c].mark
  {}

  /** Floating garbage lives for one cycle at most: a chunk of a dead object that the first cycle does
    not free is freed by the next one, if its object is dead then too and nothing has touched it
    (whatever the graph has become). */
  lemma FloatingGarbage(y: Cycle, n: set<nat>, y': Cycle, n': set<nat>, c: nat)
    requires y.Ran(n, true) && y'.Ran(n', true)
    requires c < |y.g.owner| == |y'.g.owner| && y.g.owner[c] >= 0 && !y.Live(y.g.owner[c])
    requires !y.types[c].Empty? ==>
               && y'.types0[c] == y.types[c] && y'.start[c] == y.end[c]
               && y'.g.owner[c] >= 0 && !y'.Live(y'.g.owner[c])
    ensures c in FreedList(y.types0, y.marked, |y.marked|, true) ||
            c in FreedList(y'.types0, y'.marked, |y'.marked|, true)
  {
    DeadFreedWhen(y, n, c);
    if !y.types[c].Empty? { DeadFreedWhen(y', n', c); }
  }

  /** performUMGC (lines 724-766): mark, then sweep. */
  method PerformUMGC(h: Heap, m: Marker, globals: seq<Value>, oneByOne: bool, collectAll: bool)
    returns (ghost n: set<nat>, ghost y: Cycle)
    requires h.Valid() && h.sub == [] && m.Valid() && m.headers == h.header
    requires m.g.ValuesOk(globals) && m.g.Queue(m.headers[..], m.Items(), -1, 0)
    requires forall c | 0 <= c < h.n && m.g.owner[c] >= 0 :: h.chunkType[c].NormalChunk? || h.chunkType[c].ArrayChunk?
    modifies h, h.chunkType, h.next, h.header, m, m.worklist
    ensures h.Valid() && h.sub == [] && m.wlLength == 0 && h.reserved == old(h.reserved)
    ensures y == Cycle(m.g, m.g.Targets(globals) + m.g.SlotTargets(old(m.Items())),
                       old(h.chunkType[..]), old(h.header[..]),
                       y.marked, h.chunkType[..], h.header[..])
    ensures y.Ran(n, collectAll) && y.g.Closed(y.marked)
    ensures h.free == old(h.free) + FreedList(y.types0, y.marked, |y.marked|, collectAll) && old(h.free) <= h.free
    ensures forall c: nat | c < h.n &&
              (old(h.chunkType[c]).StackChunk? || old(h.chunkType[c]).WeakChunk? || old(h.chunkType[c]).Empty? ||
               !old(h.header[c]).inUse) ::
              && h.chunkType[c] == old(h.chunkType[c]) && h.header[c] == old(h.header[c])
              && c !in h.free[|old(h.free)|..]
    ensures forall c: nat | c < h.n && old(h.header[c]).inUse &&
              (old(h.chunkType[c]).NormalChunk? || old(h.chunkType[c]).ArrayChunk?) ::
              && c < |y.marked|
              && (c in h.free[|old(h.free)|..] <==>
                    if y.marked[c].red then collectAll else !y.marked[c].mark && !y.marked[c].grey)
              && h.chunkType[c] == (if c in h.free[|old(h.free)|..] then Empty else old(h.chunkType[c]))
              && h.header[c] == (if y.marked[c].red then y.marked[c]
                                 else if y.marked[c].mark then y.marked[c].(mark := false)
                                 else y.marked[c].(grey := false))
  {
    hide IsList, Parted, Freed, Swept, SweptTo, Graph.Queue, Graph.Queued, Graph.Run, Graph.Marked, Graph.Since,
      Graph.Closed,
         Graph.Targets, Graph.SlotTargets, Graph.Reached, Graph.Colours, Graph.Filled, Contents, FreedList;
    ghost var roots := m.g.Targets(globals) + m.g.SlotTargets(m.Items());
    ghost var ts, hs := h.chunkType[..], h.header[..];
    var shaded := m.IsWorklistShaded();
    assert shaded;
    QueueQueued(m.g, hs, m.Items());
    n := m.StartMarking(globals);
    ghost var marked := h.header[..];
    m.g.RunFacts(hs, marked, n, {}, {}, roots);
    RunElsewhere(m.g, ts, hs, marked, n, roots);
    SweepHeap(h, oneByOne, collectAll);
    y := Cycle(m.g, roots, ts, hs, marked, h.chunkType[..], h.header[..]);
  }

  /** Marking leaves chunks of no object alone, and what is in use and what not. */
  lemma RunElsewhere(g: Graph, types: seq<ChunkType>, hs: seq<Header>, hs': seq<Header>, n: set<nat>, roots: set<nat>)
    requires g.Run(hs, hs', n, {}, {}, roots) && |types| == |g.owner|
    requires forall c | 0 <= c < |types| && g.owner[c] >= 0 :: types[c].NormalChunk? || types[c].ArrayChunk?
    ensures |hs| == |hs'| == |types| && g.SameElsewhere(hs, hs')
    ensures forall c | 0 <= c < |hs| :: hs'[c].inUse == hs[c].inUse
    ensures forall c | 0 <= c < |hs| && !((types[c].NormalChunk? || types[c].ArrayChunk?) && hs[c].inUse) ::
              hs'[c] == hs[c]
  {}

  lemma QueueQueued(g: Graph, hs: seq<Header>, items: seq<Slot>)
    requires g.Queue(hs, items, -1, 0)
    ensures g.Ok() && |hs| == |g.owner| && g.Queued(hs, items, -1, 0)
  {}

  // ------------------------------------------------------------------ a collection from the stacks

  /** What a mutator thread contributes: its thread pointers, the chunks of its stack, the slots of the
    frame in each, and the number of the current one. */
  datatype ThreadStack = ThreadStack(ptrs: seq<Value>, chunks: seq<nat>, frames: seq<seq<Value>>, current: nat)

  /** Every thread has a frame below its current one, as markStack needs. */
  ghost predicate StacksOk(m: Marker, ts: seq<ThreadStack>) {
    forall t | t in ts :: m.g.ValuesOk(t.ptrs) && m.StackOk(t.chunks, t.frames, t.current) && t.current >= 1
  }

  /** What the frames in use of a stack and its thread pointers point to. */
  ghost function Roots(g: Graph, t: ThreadStack): set<nat>
    requires t.current <= |t.frames|
  {
    g.Targets(t.ptrs) + g.FrameTargets(t.frames, t.current)
  }

  ghost function StackChunks(ts: seq<ThreadStack>): set<nat> { set t, c | t in ts && c in t.chunks :: c }

  /** What the stacks of the first `k` threads point to. */
  ghost function StackRoots(g: Graph, ts: seq<ThreadStack>, k: nat): set<nat>
    requires k <= |ts| && forall t | t in ts :: t.current <= |t.frames|
  {
    if k == 0 then {} else StackRoots(g, ts, k - 1) + Roots(g, ts[k - 1])
  }

  lemma NothingQueued(g: Graph, hs: seq<Header>)
    requires g.Colours(hs) && g.Marked(hs) == {}
    ensures g.Queue(hs, [], -1, 0)
  {}

  /** Slots of marked objects lead nowhere but where the roots of the marked objects lead. */
  lemma SlotsReached(g: Graph, hs: seq<Header>, items: seq<Slot>, roots: set<nat>, p: nat)
    requires g.Queue(hs, items, -1, 0) && g.Marked(hs) <= roots
    requires g.Reached(roots + g.SlotTargets(items), p)
    ensures g.Reached(roots, p)
  {
    var live := set o | o in Below(|g.objs|) && g.Reached(roots, o);
    forall a, b | a in live && a < |g.objs| && Ref(b) in g.objs[a].slots ensures b in live {
      assert g.ObjOk(g.objs[a]);
      Reachability.EdgeReached(g.Edges(), roots, a, b);
    }
    forall a | a in roots + g.SlotTargets(items) && a < |g.objs| ensures a in live {
      StartReached(g, hs, items, roots, a);
    }
    g.ClosedHolds(roots + g.SlotTargets(items), p, live);
  }

  lemma StartReached(g: Graph, hs: seq<Header>, items: seq<Slot>, roots: set<nat>, a: nat)
    requires g.Queue(hs, items, -1, 0) && g.Marked(hs) <= roots
    requires a in roots + g.SlotTargets(items) && a < |g.objs|
    ensures g.Reached(roots, a)
  {
    if a in roots {
      g.RootReached(roots, a);
    } else {
      var e :| e in items && g.SlotOk(e) && g.Deref(e).Ref? && g.Deref(e).obj == a;
      g.RootReached(roots, e.obj);
      assert g.Deref(e) in g.objs[e.obj].slots;
      Reachability.EdgeReached(g.Edges(), roots, e.obj, a);
    }
  }

  /** With the stacks marked, a cycle keeps exactly what globals and stacks reach. */
  lemma LiveIsReached(y: Cycle, items: seq<Slot>, globals: set<nat>, stacks: set<nat>, n: set<nat>, all: bool, p: nat)
    requires y.Ran(n, all) && y.g.Queue(y.start, items, -1, 0) && y.g.Marked(y.start) == stacks
    requires y.roots == globals + y.g.SlotTargets(items) && p < |y.g.objs|
    requires y.g.Closed(y.marked) && forall q | q in globals :: q < |y.g.objs|
    ensures y.Live(p) <==> y.g.Reached(globals + stacks, p)
  {
    var roots := globals + stacks;
    if y.Live(p) {
      if p in y.g.Marked(y.start) {
        y.g.RootReached(roots, p);
      } else {
        Reachability.MoreRoots(y.g.Edges(), y.roots, roots + y.g.SlotTargets(items), p);
        SlotsReached(y.g, y.start, items, roots, p);
      }
    }
    if y.g.Reached(roots, p) {
      forall a, b | a in y.g.Marked(y.marked) && a < |y.g.objs| && Ref(b) in y.g.objs[a].slots
        ensures b in y.g.Marked(y.marked)
      {
        assert y.g.Scanned(y.marked, a);
      }
      forall q | q in roots ensures q in y.g.Marked(y.marked) {
        if q in globals { y.g.RootReached(y.roots, q); assert y.Live(q); } else { assert y.Live(q); }
      }
      y.g.ClosedHolds(roots, p, y.g.Marked(y.marked));
    }
  }

  /** The stacks of all mutators are marked, one after the other (markStack). */
  method MarkStacks(m: Marker, ts: seq<ThreadStack>)
    requires m.Valid() && StacksOk(m, ts) && m.g.Marked(m.headers[..]) == {} && m.wlLength == 0
    modifies m, m.worklist, m.headers
    ensures m.Valid() && m.g.Queue(m.headers[..], m.Items(), -1, 0) &&
            (m.worklist == old(m.worklist) || fresh(m.worklist))
    ensures m.g.Marked(m.headers[..]) == StackRoots(m.g, ts, |ts|)
    ensures m.g.StacksMarked(old(m.headers[..]), m.headers[..], StackChunks(ts))
  {
    hide Graph.Marked, Graph.Queue, Graph.Filled, Graph.Targets, Contents, Graph.StacksMarked;
    ghost var hs := m.headers[..];
    NothingQueued(m.g, hs);
    NoStackMarked(m.g, hs, ts);
    assert m.worklist[..m.wlLength] == [];
    for k := 0 to |ts|
      invariant m.Valid() && m.g.Queue(m.headers[..], m.Items(), -1, 0) &&
                (m.worklist == old(m.worklist) || fresh(m.worklist))
      invariant m.g.Marked(m.headers[..]) == StackRoots(m.g, ts, k)
      invariant m.g.StacksMarked(hs, m.headers[..], StackChunks(ts[..k]))
    {
      var t := ts[k];
      assert t in ts;
      ghost var now := m.headers[..];
      var ok := m.MarkStack(t.ptrs, t.chunks, t.frames, t.current);
      NextStackMarked(m.g, hs, now, m.headers[..], ts, k);
    }
    assert ts[..|ts|] == ts;
  }

  lemma NoStackMarked(g: Graph, hs: seq<Header>, ts: seq<ThreadStack>)
    requires |hs| == |g.owner|
    ensures g.StacksMarked(hs, hs, StackChunks(ts[..0]))
  {}

  lemma NextStackMarked(g: Graph, hs: seq<Header>, now: seq<Header>, hs': seq<Header>, ts: seq<ThreadStack>, k: nat)
    requires k < |ts| && g.StacksMarked(hs, now, StackChunks(ts[..k]))
    requires g.StacksMarked(now, hs', ChunkSet(ts[k].chunks))
    ensures g.StacksMarked(hs, hs', StackChunks(ts[..k + 1]))
  {
    g.StacksMarkedMore(hs, now, hs', StackChunks(ts[..k]), ChunkSet(ts[k].chunks));
    assert ts[..k + 1] == ts[..k] + [ts[k]];
    assert StackChunks(ts[..k + 1]) == StackChunks(ts[..k]) + ChunkSet(ts[k].chunks);
  }

  /** Stack marking by every mutator followed by a cycle of the collector, nothing else running. What globals and
    stacks reach is kept. Chunks that hold no object of the program's are left alone, but for the marks on the chunks
    of stacks. */
  method Collect(h: Heap, m: Marker, ts: seq<ThreadStack>, globals: seq<Value>, oneByOne: bool)
    returns (ghost n: set<nat>, ghost y: Cycle)
    requires h.Valid() && h.sub == [] && m.Valid() && m.headers == h.header
    requires StacksOk(m, ts) && m.g.Marked(m.headers[..]) == {} && m.wlLength == 0 && m.g.ValuesOk(globals)
    requires forall c | 0 <= c < h.n && m.g.owner[c] >= 0 :: h.chunkType[c].NormalChunk? || h.chunkType[c].ArrayChunk?
    modifies h, h.chunkType, h.next, h.header, m, m.worklist
    ensures h.Valid() && h.sub == [] && m.wlLength == 0
    ensures y.g == m.g && y.types0 == old(h.chunkType[..]) && y.types == h.chunkType[..] && y.end == h.header[..]
    ensures y.Ran(n, true) && h.free == old(h.free) + FreedList(y.types0, y.marked, |y.marked|, true)
    ensures forall p: nat | p < |m.g.objs| ::
              y.Live(p) <==> m.g.Reached(m.g.Targets(globals) + StackRoots(m.g, ts, |ts|), p)
    ensures old(h.free) <= h.free && |y.marked| == h.n
    ensures forall c: nat | c < h.n && m.g.owner[c] >= 0 &&
              m.g.Reached(m.g.Targets(globals) + StackRoots(m.g, ts, |ts|), m.g.owner[c]) ::
              && h.chunkType[c] == old(h.chunkType[c]) && c !in h.free[|old(h.free)|..] && !h.header[c].mark
    ensures forall c: nat | c < h.n &&
              (old(h.chunkType[c]).StackChunk? || old(h.chunkType[c]).WeakChunk? || old(h.chunkType[c]).Empty? ||
               !old(h.header[c]).inUse) ::
              && h.chunkType[c] == old(h.chunkType[c]) && c !in h.free[|old(h.free)|..]
              && h.header[c] == (if c in StackChunks(ts) then old(h.header[c]).(mark := true, red := false)
                                 else old(h.header[c]))
    ensures forall c: nat | c < h.n && old(h.header[c]).inUse &&
              (old(h.chunkType[c]).NormalChunk? || old(h.chunkType[c]).ArrayChunk?) ::
              && (c in h.free[|old(h.free)|..] <==> y.marked[c].red || (!y.marked[c].mark && !y.marked[c].grey))
              && h.chunkType[c] == (if c in h.free[|old(h.free)|..] then Empty else old(h.chunkType[c]))
              && h.header[c] == (if y.marked[c].red then y.marked[c]
                                 else if y.marked[c].mark then y.marked[c].(mark := false)
                                 else y.marked[c].(grey := false))
  {
    hide IsList, Parted, Graph.Marked, Graph.Targets, Graph.Reached, Graph.Filled, Contents, FreedList, Cycle.Ran,
         StacksOk, Cycle.Live, Graph.StacksMarked, Graph.ValuesOk, Heap.Valid, Graph.FrameTargets, StackRoots,
         StackChunks, Marker.Valid;
    HeapSizes(h, m);
    ghost var f, hs := h.free, h.header[..];
    n, y := MarkAndSweep(h, m, ts, globals, oneByOne);
    assert h.free[|f|..] == FreedList(y.types0, y.marked, |y.marked|, true);
    forall c: nat | c < h.n { CollectedChunk(y, n, hs, StackChunks(ts), c); }
  }

  lemma HeapSizes(h: Heap, m: Marker)
    requires h.Valid() && m.Valid() && m.headers == h.header
    ensures h.chunkType.Length == h.header.Length == h.n == |m.g.owner| && m.g.Ok()
    ensures forall c | 0 <= c < h.n && m.g.owner[c] >= 0 :: h.header[c].inUse
  {}

  /** One chunk after a cycle in which all was swept. */
  lemma CollectedChunk(y: Cycle, n: set<nat>, hs: seq<Header>, stacks: set<nat>, c: nat)
    requires y.Ran(n, true) && y.g.StacksMarked(hs, y.start, stacks) && c < |hs|
    requires |y.types0| == |y.marked| == |y.types| == |y.end| == |hs|
    requires forall k | 0 <= k < |hs| && y.g.owner[k] >= 0 :: hs[k].inUse
    ensures var t, h, freed := y.types0[c], hs[c], c in FreedList(y.types0, y.marked, |y.marked|, true);
            if (t.NormalChunk? || t.ArrayChunk?) && h.inUse then
              var k := y.marked[c];
              && (freed <==> k.red || (!k.mark && !k.grey)) && y.types[c] == (if freed then Empty else t)
              && y.end[c] == (if k.red then k else if k.mark then k.(mark := false) else k.(grey := false))
            else
              && y.types[c] == t && !freed
              && y.end[c] == if c in stacks then h.(mark := true, red := false) else h
    ensures y.g.owner[c] >= 0 && y.Live(y.g.owner[c]) ==>
              y.types[c] == y.types0[c] && c !in FreedList(y.types0, y.marked, |y.marked|, true) && !y.end[c].mark
  {
    SweptChunk(y.types0, y.marked, y.types, y.end, true, c);
    if y.g.owner[c] >= 0 && y.Live(y.g.owner[c]) { LiveKept(y, n, true, c); }
  }

  /** The marking of the stacks and the cycle, with what is in the chunks expressed by the latter. */
  method MarkAndSweep(h: Heap, m: Marker, ts: seq<ThreadStack>, globals: seq<Value>, oneByOne: bool)
    returns (ghost n: set<nat>, ghost y: Cycle)
    requires h.Valid() && h.sub == [] && m.Valid() && m.headers == h.header
    requires StacksOk(m, ts) && m.g.Marked(m.headers[..]) == {} && m.wlLength == 0 && m.g.ValuesOk(globals)
    requires forall c | 0 <= c < h.n && m.g.owner[c] >= 0 :: h.chunkType[c].NormalChunk? || h.chunkType[c].ArrayChunk?
    modifies h, h.chunkType, h.next, h.header, m, m.worklist
    ensures h.Valid() && h.sub == [] && m.wlLength == 0
    ensures y.g == m.g && y.types0 == old(h.chunkType[..]) && y.types == h.chunkType[..] && y.end == h.header[..]
    ensures y.Ran(n, true) && h.free == old(h.free) + FreedList(y.types0, y.marked, |y.marked|, true)
    ensures forall p: nat | p < |m.g.objs| ::
              y.Live(p) <==> m.g.Reached(m.g.Targets(globals) + StackRoots(m.g, ts, |ts|), p)
    ensures m.g.StacksMarked(old(h.header[..]), y.start, StackChunks(ts)) && |y.marked| == h.n
  {
    ghost var stacks, targets := StackRoots(m.g, ts, |ts|), m.g.Targets(globals);
    hide IsList, Parted, Graph.Queue, Graph.Marked, Graph.Targets, Graph.Reached, Graph.Filled, Graph.Closed,
         Contents, FreedList, Cycle.Ran, StacksOk, Cycle.Live, Graph.SlotTargets, Graph.StacksMarked, StackChunks;
    MarkStacks(m, ts);
    ghost var items := m.Items();
    ghost var before := m.headers[..];
    n, y := PerformUMGC(h, m, globals, oneByOne, true);
    assert y.start == before;
    TargetsOk(m.g, globals);
    forall p: nat | p < |m.g.objs| ensures y.Live(p) <==> m.g.Reached(targets + stacks, p) {
      LiveIsReached(y, items, targets, stacks, n, true, p);
    }
  }

  lemma TargetsOk(g: Graph, vs: seq<Value>)
    requires g.ValuesOk(vs)
    ensures forall q | q in g.Targets(vs) :: q < |g.objs|
  {}
}
