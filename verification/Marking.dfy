/** Tri-colour marking of the chunked heap (runtime/gc/ummark.c, garbage-collection.c:458-521).

  The object graph is fixed while the marker runs. Objects are named by their position in `objs`,
  chunks by their position in the heap. */
module Marking {
  import opened Arithmetic
  import opened Chunk
  import opened Wrappers
  import Reachability

  /** An array tree; `children` are the pointers before the first NULL one. */
  datatype Tree = Tree(chunk: nat, children: seq<Tree>)

  /** The chunks of an object: one or two linked ones, or an array tree. */
  datatype Shape = Normal(chunk: nat, next: Option<nat>) | Array(root: Tree)

  datatype Obj = Obj(shape: Shape, slots: seq<Value>)

  datatype Slot = Slot(obj: nat, index: nat)

  const ARRAY_INTERNAL_POINTERS: nat := 75

  ghost function TreeChunks(t: Tree): set<nat>
    decreases t, |t.children| + 1
  {
    FirstChunks(t, |t.children|)
  }

  /** The chunk of the root and the chunks below its first `n` pointers. */
  ghost function FirstChunks(t: Tree, n: nat): (r: set<nat>)
    requires n <= |t.children|
    ensures t.chunk in r
    decreases t, n
  {
    if n == 0 then {t.chunk} else FirstChunks(t, n - 1) + TreeChunks(t.children[n - 1])
  }

  lemma {:induction false} FirstMono(t: Tree, n: nat, m: nat)
    requires n <= m <= |t.children|
    ensures FirstChunks(t, n) <= FirstChunks(t, m)
    decreases m
  {
    if n < m { FirstMono(t, n, m - 1); }
  }

  lemma ChildChunks(t: Tree, i: nat)
    requires i < |t.children|
    ensures TreeChunks(t.children[i]) <= TreeChunks(t)
  {
    FirstMono(t, i + 1, |t.children|);
  }

  ghost predicate TreeOk(t: Tree) {
    |t.children| <= ARRAY_INTERNAL_POINTERS && forall i | 0 <= i < |t.children| :: TreeOk(t.children[i])
  }

  ghost function Chunks(s: Shape): set<nat> {
    match s
    case Normal(c, n) => {c} + if n.Some? then {n.value} else {}
    case Array(root) => TreeChunks(root)
  }

  /** The chunk whose header tells whether the object is marked. */
  function Container(s: Shape): (c: nat)
    ensures c in Chunks(s)
  {
    match s
    case Normal(c, _) => c
    case Array(root) => root.chunk
  }

  /** The headers after markChunk has gone over the chunks `cs`. */
  ghost function Painted(hs: seq<Header>, cs: set<nat>, m: Mode): (r: seq<Header>)
    ensures |r| == |hs| && forall c | 0 <= c < |hs| :: r[c] == if c in cs then Paint(m, hs[c]) else hs[c]
  {
    seq(|hs|, c requires 0 <= c < |hs| => if c in cs then Paint(m, hs[c]) else hs[c])
  }

  datatype Graph = Graph(objs: seq<Obj>, owner: seq<int>) {
    /** `owner` says for each chunk which object it belongs to, if any. */
    ghost predicate Ok() {
      && (forall c | 0 <= c < |owner| && owner[c] >= 0 :: owner[c] < |objs| && c in Chunks(objs[owner[c]].shape))
      && (forall o | 0 <= o < |objs| :: ObjOk(objs[o]) && forall c | c in Chunks(objs[o].shape) :: Held(o, c))
    }

    ghost predicate Held(o: int, c: int) { 0 <= c < |owner| && owner[c] == o }

    ghost predicate ObjOk(o: Obj) {
      && (o.shape.Array? ==> TreeOk(o.shape.root))
      && forall i | 0 <= i < |o.slots| && o.slots[i].Ref? :: o.slots[i].obj < |objs|
    }

    /** The objects whose container chunk is marked. */
    ghost function Marked(hs: seq<Header>): (r: set<nat>)
      requires Ok() && |hs| == |owner|
      ensures forall o | o in r :: o < |objs|
    {
      set o: nat | o < |objs| && Held(o, Container(objs[o].shape)) && hs[Container(objs[o].shape)].mark
    }

    /** The chunks of an object are in use and either all marked or none; marked ones are never red. */
    ghost predicate Colours(hs: seq<Header>) {
      && Ok() && |hs| == |owner|
      && forall c | 0 <= c < |hs| && owner[c] >= 0 ::
           hs[c].inUse && (hs[c].mark <==> owner[c] in Marked(hs)) && (hs[c].mark ==> hs[c].grey && !hs[c].red)
    }

    /** Since `hs` the objects `n` have been marked and the objects `s` shaded. */
    ghost predicate Since(hs: seq<Header>, hs': seq<Header>, n: set<nat>, s: set<nat>) {
      && |hs| == |hs'| == |owner|
      && forall c | 0 <= c < |hs| ::
           hs'[c] == if owner[c] < 0 then hs[c] else if owner[c] in n then Black(hs[c])
                     else if owner[c] in s then Paint(Grey, hs[c]) else hs[c]
    }

    /** The objects that each object points to. */
    ghost function Edges(): (r: Reachability.Edges)
      ensures |r| == |objs| && forall p: nat, q | p < |objs| :: q in r[p] <==> Ref(q) in objs[p].slots
    {
      seq(|objs|, p requires 0 <= p < |objs| => set v | v in objs[p].slots && v.Ref? :: v.obj)
    }

    ghost predicate Reached(roots: set<nat>, p: nat) { Reachability.Reached(Edges(), roots, p) }

    /** Every object that `p` points to is marked. */
    ghost predicate Scanned(hs: seq<Header>, p: nat)
      requires Ok() && |hs| == |owner| && p < |objs|
    {
      forall q | Ref(q) in objs[p].slots :: q in Marked(hs)
    }

    /** Every pointer from a marked object to an unmarked one is a slot on the worklist; the slots of
      `open` from number `n` on are still to be looked at. */
    ghost predicate Queued(hs: seq<Header>, items: seq<Slot>, open: int, n: nat)
      requires Ok() && |hs| == |owner|
    {
      forall p, i: nat | p in Marked(hs) && i < |objs[p].slots| && objs[p].slots[i].Ref? ::
        (p == open && n <= i) || objs[p].slots[i].obj in Marked(hs) || Slot(p, i) in items
    }

    /** The worklist: well formed, shaded, made of slots of marked objects, and complete. */
    ghost predicate Queue(hs: seq<Header>, items: seq<Slot>, open: int, n: nat) {
      && Colours(hs) && SlotsOk(items) && WorklistShaded(hs, items) && Queued(hs, items, open, n)
      && forall s | s in items :: s.obj in Marked(hs)
    }

    ghost predicate SlotOk(s: Slot) { s.obj < |objs| && s.index < |objs[s.obj].slots| }

    ghost predicate Filled(w: seq<Option<Slot>>) { forall e | e in w :: e.Some? && SlotOk(e.value) }

    ghost predicate SlotsOk(items: seq<Slot>) { forall s | s in items :: SlotOk(s) }

    function Deref(s: Slot): Value
      requires SlotOk(s)
    {
      objs[s.obj].slots[s.index]
    }

    /** The objects that the slots on the worklist lead to. */
    ghost function SlotTargets(items: seq<Slot>): set<nat> {
      set s | s in items && SlotOk(s) && Deref(s).Ref? :: Deref(s).obj
    }

    ghost predicate Shaded(hs: seq<Header>, p: nat) {
      |hs| == |owner| && forall c | 0 <= c < |hs| && owner[c] == p :: hs[c].grey
    }

    /** Every slot on the worklist leads to a shaded object (isWorklistShaded). */
    ghost predicate WorklistShaded(hs: seq<Header>, items: seq<Slot>) {
      forall s | s in items && SlotOk(s) && Deref(s).Ref? :: Shaded(hs, Deref(s).obj)
    }

    // ---------------------------------------------------------------- reachability

    lemma RootReached(roots: set<nat>, p: nat)
      requires p in roots && p < |objs|
      ensures Reached(roots, p)
    {
      Reachability.RootReached(Edges(), roots, p);
    }

    /** A marked set that is closed under pointers and holds the roots holds all that is reached. */
    lemma ClosedHolds(roots: set<nat>, p: nat, live: set<nat>)
      requires Reached(roots, p) && forall r | r in roots && r < |objs| :: r in live
      requires forall p, q | p in live && p < |objs| && Ref(q) in objs[p].slots :: q in live
      ensures p in live
    {
      Reachability.ClosedHolds(Edges(), roots, p, live);
    }

    // ---------------------------------------------------------------- painting

    lemma SinceRefl(hs: seq<Header>)
      requires |hs| == |owner|
      ensures Since(hs, hs, {}, {})
    {}

    lemma SinceColours(hs: seq<Header>, hs': seq<Header>, n: set<nat>, s: set<nat>)
      requires Colours(hs) && Since(hs, hs', n, s) && forall o | o in n :: o < |objs|
      ensures Colours(hs') && Marked(hs') == Marked(hs) + n
    {}

    lemma ShadeStep(hs: seq<Header>, hs': seq<Header>, n: set<nat>, s: set<nat>, q: nat)
      requires Ok() && Since(hs, hs', n, s) && q < |objs|
      ensures Since(hs, Painted(hs', Chunks(objs[q].shape), Grey), n, s + {q})
    {}

    lemma MarkStep(hs: seq<Header>, hs': seq<Header>, n: set<nat>, s: set<nat>, p: nat)
      requires Colours(hs) && Since(hs, hs', n, s) && p < |objs| && p in s && p !in Marked(hs)
      ensures Since(hs, Painted(hs', Chunks(objs[p].shape), Mark), n + {p}, s)
    {}

    // ---------------------------------------------------------------- runs of the marker

    /** What a run of the marker from `hs` to `hs'` has achieved: the objects `n` are newly marked,
      they are reached, and all but the `open` ones have been scanned; the objects `s` have been shaded. */
    ghost predicate Run(hs: seq<Header>, hs': seq<Header>, n: set<nat>, s: set<nat>, open: set<nat>, roots: set<nat>) {
      && Colours(hs) && Colours(hs') && Since(hs, hs', n, s)
      && n !! Marked(hs) && Marked(hs') == Marked(hs) + n
      && forall p | p in n :: p < |objs| && Reached(roots, p) && (p in open || Scanned(hs', p))
    }

    lemma RunBegins(hs: seq<Header>, roots: set<nat>)
      requires Colours(hs)
      ensures Run(hs, hs, {}, {}, {}, roots)
    {}

    lemma RunScan(hs: seq<Header>, hs': seq<Header>, p: nat, s: set<nat>, roots: set<nat>)
      requires Colours(hs) && Colours(hs') && Since(hs, hs', {p}, s) && p !in Marked(hs)
      requires Marked(hs') == Marked(hs) + {p} && p < |objs| && Reached(roots, p)
      ensures Run(hs, hs', {p}, s, {p}, roots)
    {}

    lemma RunFacts(hs: seq<Header>, hs': seq<Header>, n: set<nat>, s: set<nat>, open: set<nat>, roots: set<nat>)
      requires Run(hs, hs', n, s, open, roots)
      ensures Ok() && |hs| == |hs'| == |owner| && Colours(hs') && Marked(hs') == Marked(hs) + n
    {}

    lemma RunChild(hs: seq<Header>, hs': seq<Header>, n: set<nat>, s: set<nat>, roots: set<nat>, p: nat, q: nat)
      requires Run(hs, hs', n, s, {p}, roots) && p in n && p < |objs| && Ref(q) in objs[p].slots
      ensures Colours(hs') && q < |objs| && Reached(roots, q)
    {
      assert ObjOk(objs[p]);
      Reachability.EdgeReached(Edges(), roots, p, q);
    }

    lemma RunTrans(hs: seq<Header>, hs1: seq<Header>, hs2: seq<Header>, n: set<nat>, s: set<nat>, open: set<nat>,
                   m: set<nat>, roots: set<nat>)
      requires Run(hs, hs1, n, s, open, roots) && Run(hs1, hs2, m, {}, {}, roots)
      ensures Run(hs, hs2, n + m, s, open, roots)
      ensures Marked(hs1) <= Marked(hs2)
    {}

    /** Once the children of `p` are marked nothing is open and no shade is left to account for. */
    lemma RunClose(hs: seq<Header>, hs': seq<Header>, n: set<nat>, s: set<nat>, p: nat, roots: set<nat>)
      requires Run(hs, hs', n, s, {p}, roots) && p in n && p < |objs|
      requires forall q | q in s && q != p :: Ref(q) in objs[p].slots
      requires forall k | 0 <= k < |objs[p].slots| && objs[p].slots[k].Ref? :: objs[p].slots[k].obj in Marked(hs')
      ensures Run(hs, hs', n, {}, {}, roots)
    {}

    // ---------------------------------------------------------------- the worklist

    lemma ShadedKept(hs: seq<Header>, hs': seq<Header>, n: set<nat>, s: set<nat>, p: nat)
      requires Colours(hs) && Since(hs, hs', n, s) && (Shaded(hs, p) || p in s)
      ensures Shaded(hs', p)
    {}

    /** Marking `p` leaves only the slots of `p` to be queued. */
    lemma QueueScan(hs: seq<Header>, hs': seq<Header>, p: nat, s: set<nat>, items: seq<Slot>)
      requires Queue(hs, items, -1, 0) && Since(hs, hs', {p}, s) && p < |objs|
      requires Colours(hs') && Marked(hs') == Marked(hs) + {p}
      ensures Queue(hs', items, p, 0)
    {}

    lemma QueuePush(hs: seq<Header>, items: seq<Slot>, p: nat, n: nat)
      requires Queue(hs, items, p, n) && p in Marked(hs) && n < |objs[p].slots|
      requires objs[p].slots[n].Ref? ==> Shaded(hs, objs[p].slots[n].obj)
      ensures Queue(hs, if objs[p].slots[n].Ref? then items + [Slot(p, n)] else items, p, n + 1)
    {}

    /** Chunks that belong to no object of the graph keep their headers. */
    ghost predicate SameElsewhere(hs: seq<Header>, hs': seq<Header>) {
      |hs| == |hs'| == |owner| && forall c | 0 <= c < |hs| && owner[c] < 0 :: hs'[c] == hs[c]
    }

    /** ... but for chunks of stacks, which are marked. */
    ghost predicate StacksMarked(hs: seq<Header>, hs': seq<Header>, chunks: set<nat>) {
      |hs| == |hs'| == |owner| && forall c | 0 <= c < |hs| && owner[c] < 0 ::
        hs'[c] == if c in chunks then hs[c].(mark := true, red := false) else hs[c]
    }

    lemma StacksMarkedMore(hs: seq<Header>, now: seq<Header>, hs': seq<Header>, chunks: set<nat>, more: set<nat>)
      requires StacksMarked(hs, now, chunks) && StacksMarked(now, hs', more)
      ensures StacksMarked(hs, hs', chunks + more)
    {}

    lemma MarkedBefore(hs: seq<Header>, now: seq<Header>, hs': seq<Header>, chunks: set<nat>)
      requires StacksMarked(hs, now, chunks) && SameElsewhere(now, hs')
      ensures StacksMarked(hs, hs', chunks)
    {}

    lemma MarkedAfter(hs: seq<Header>, now: seq<Header>, hs': seq<Header>, chunks: set<nat>)
      requires SameElsewhere(hs, now) && StacksMarked(now, hs', chunks)
      ensures StacksMarked(hs, hs', chunks)
    {}

    lemma SinceElsewhere(hs: seq<Header>, hs': seq<Header>, n: set<nat>, s: set<nat>)
      requires Since(hs, hs', n, s)
      ensures SameElsewhere(hs, hs')
    {}

    /** A chunk of a stack can be marked without any effect on the objects. */
    lemma StackChunk(hs: seq<Header>, items: seq<Slot>, c: nat, h: Header)
      requires Queue(hs, items, -1, 0) && c < |owner| && owner[c] < 0
      ensures Queue(hs[c := h], items, -1, 0) && Marked(hs[c := h]) == Marked(hs)
    {}

    lemma QueueColours(hs: seq<Header>, items: seq<Slot>)
      requires Queue(hs, items, -1, 0)
      ensures Colours(hs)
    {}

    lemma QueueClose(hs: seq<Header>, items: seq<Slot>, p: nat)
      requires p < |objs| && Queue(hs, items, p, |objs[p].slots|)
      ensures Queue(hs, items, -1, 0)
    {}

    // ---------------------------------------------------------------- the whole mark phase

    /** What the slots of the first `n` frames point to. */
    ghost function FrameTargets(frames: seq<seq<Value>>, n: nat): set<nat>
      requires n <= |frames|
    {
      if n == 0 then {} else FrameTargets(frames, n - 1) + Targets(frames[n - 1])
    }

    /** The objects that some values lead to. */
    ghost function Targets(vs: seq<Value>): set<nat> {
      set v | v in vs && v.Ref? :: v.obj
    }

    ghost predicate ValuesOk(vs: seq<Value>) {
      forall v | v in vs && v.Ref? :: v.obj < |objs|
    }

    ghost predicate Closed(hs: seq<Header>) {
      Ok() && |hs| == |owner| && forall p | p in Marked(hs) :: Scanned(hs, p)
    }

    /** If the worklist was complete, marking from its slots and other roots leaves a closed set. */
    lemma RunCloses(hs: seq<Header>, hs': seq<Header>, n: set<nat>, items: seq<Slot>, roots: set<nat>)
      requires Run(hs, hs', n, {}, {}, roots) && Queued(hs, items, -1, 0) && SlotsOk(items)
      requires SlotTargets(items) <= Marked(hs')
      ensures Closed(hs')
    {}

    /** The marked set is then the old one and what the roots reach. */
    lemma MarkedExactly(hs: seq<Header>, hs': seq<Header>, n: set<nat>, roots: set<nat>, p: nat)
      requires Run(hs, hs', n, {}, {}, roots) && Closed(hs') && roots <= Marked(hs') && p < |objs|
      ensures p in Marked(hs') <==> p in Marked(hs) || Reached(roots, p)
    {
      if Reached(roots, p) {
        forall a, b | a in Marked(hs') && a < |objs| && Ref(b) in objs[a].slots ensures b in Marked(hs') {
          assert Scanned(hs', a);
        }
        ClosedHolds(roots, p, Marked(hs'));
      }
    }
  }

  function Contents(w: seq<Option<Slot>>): (r: seq<Slot>)
    requires forall e | e in w :: e.Some?
    ensures |r| == |w| && forall i | 0 <= i < |w| :: r[i] == w[i].value
  {
    seq(|w|, i requires 0 <= i < |w| => w[i].value)
  }

  /** The marker: the headers of all chunks and the worklist. */
  class Marker {
    const g: Graph
    const headers: array<Header>
    var worklist: array<Option<Slot>>
    var wlLength: nat

    constructor (graph: Graph, hs: array<Header>, wlSize: nat)
      requires wlSize > 0
      ensures g == graph && headers == hs && fresh(worklist) && worklist.Length == wlSize && wlLength == 0
    {
      g, headers, wlLength := graph, hs, 0;
      worklist := new Option<Slot>[wlSize](_ => None);
    }

    ghost predicate Valid()
      reads this, headers, worklist
    {
      && g.Colours(headers[..]) && wlLength <= worklist.Length && worklist.Length > 0
      && g.Filled(worklist[..wlLength])
    }

    ghost function Items(): (r: seq<Slot>)
      requires Valid()
      reads this, headers, worklist
      ensures g.SlotsOk(r)
    {
      Contents(worklist[..wlLength])
    }

    /** markUMArrayChunks (ummark.c:516-550). */
    method MarkUMArrayChunks(t: Tree, m: Mode)
      requires TreeOk(t) && forall c | c in TreeChunks(t) :: c < headers.Length
      modifies headers
      ensures headers[..] == Painted(old(headers[..]), TreeChunks(t), m)
    {
      ghost var hs := headers[..];
      assert t.chunk in TreeChunks(t);
      headers[t.chunk] := Paint(m, headers[t.chunk]);
      var i := 0;
      while i < ARRAY_INTERNAL_POINTERS
        invariant 0 <= i <= |t.children|
        invariant headers[..] == Painted(hs, FirstChunks(t, i), m)
      {
        if i == |t.children| { break; }
        ChildChunks(t, i);
        MarkUMArrayChunks(t.children[i], m);
        PaintedTwice(hs, FirstChunks(t, i), TreeChunks(t.children[i]), m);
        i := i + 1;
      }
    }

    /** markChunk (ummark.c:249-359) on an object of the chunked heap. */
    method MarkChunk(p: nat, m: Mode)
      requires g.Ok() && headers.Length == |g.owner| && p < |g.objs|
      modifies headers
      ensures headers[..] == Painted(old(headers[..]), Chunks(g.objs[p].shape), m)
    {
      match g.objs[p].shape
      case Normal(chunk, next) =>
        assert chunk in Chunks(g.objs[p].shape) && g.Held(p, chunk);
        headers[chunk] := Paint(m, headers[chunk]);
        if next.Some? {
          assert next.value in Chunks(g.objs[p].shape) && g.Held(p, next.value);
          PaintFacts(old(headers[chunk]));
          headers[next.value] := Paint(m, headers[next.value]);
        }
      case Array(root) =>
        forall c | c in TreeChunks(root) ensures g.Held(p, c) { assert c in Chunks(g.objs[p].shape); }
        MarkUMArrayChunks(root, m);
    }

    method IsMarked(p: nat) returns (r: bool)
      requires g.Colours(headers[..]) && p < |g.objs|
      ensures r <==> p in g.Marked(headers[..])
    {
      var c := Container(g.objs[p].shape);
      assert g.Held(p, c);
      r := headers[c].inUse && headers[c].mark;
    }

    /** umShadeObject over the slots of `p` (line 493). */
    method ShadeChildren(p: nat, ghost hs: seq<Header>) returns (ghost s: set<nat>)
      requires g.Colours(hs) && g.Since(hs, headers[..], {}, {p}) && p < |g.objs|
      modifies headers
      ensures g.Since(hs, headers[..], {}, s) && p in s
      ensures forall q | q in s && q != p :: Ref(q) in g.objs[p].slots
      ensures forall q | Ref(q) in g.objs[p].slots :: q in s
    {
      hide Graph.Since, Graph.Colours;
      ColoursOk(hs);
      SinceLength(hs, headers[..], {}, {p});
      s := {p};
      var slots := g.objs[p].slots;
      for i := 0 to |slots|
        invariant g.Since(hs, headers[..], {}, s) && p in s
        invariant forall q | q in s && q != p :: Ref(q) in slots
        invariant forall k | 0 <= k < i && slots[k].Ref? :: slots[k].obj in s
      {
        if slots[i].Ref? {
          var q := slots[i].obj;
          assert g.ObjOk(g.objs[p]);
          g.ShadeStep(hs, headers[..], {}, s, q);
          MarkChunk(q, Grey);
          s := s + {q};
        }
      }
    }

    lemma ColoursOk(hs: seq<Header>)
      requires g.Colours(hs)
      ensures g.Ok() && |hs| == |g.owner|
    {}

    lemma SinceLength(hs: seq<Header>, hs': seq<Header>, n: set<nat>, s: set<nat>)
      requires g.Since(hs, hs', n, s)
      ensures |hs'| == |hs| == |g.owner|
    {}

    /** Lines 490-498: shade the object and its children, then mark the object. */
    method Scan(p: nat) returns (ghost s: set<nat>)
      requires g.Colours(headers[..]) && p < |g.objs| && p !in g.Marked(headers[..])
      modifies headers
      ensures g.Colours(headers[..]) && g.Since(old(headers[..]), headers[..], {p}, s)
      ensures g.Marked(headers[..]) == g.Marked(old(headers[..])) + {p}
      ensures p in s && (forall q | q in s && q != p :: Ref(q) in g.objs[p].slots)
      ensures forall q | Ref(q) in g.objs[p].slots :: q in s
    {
      hide Graph.Since, Graph.Colours, Graph.Marked;
      ghost var hs := headers[..];
      ColoursOk(hs);
      g.SinceRefl(hs);
      g.ShadeStep(hs, hs, {}, {}, p);
      MarkChunk(p, Grey);
      assert {} + {p} == {p};
      s := ShadeChildren(p, hs);
      SinceLength(hs, headers[..], {}, s);
      g.MarkStep(hs, headers[..], {}, s, p);
      MarkChunk(p, Mark);
      g.SinceColours(hs, headers[..], {p}, s);
    }

    ghost function Unmarked(): set<nat>
      requires g.Ok() && headers.Length == |g.owner|
      reads headers
    {
      Below(|g.objs|) - g.Marked(headers[..])
    }

    /** umDfsMarkObjects (ummark.c:459-513) on a pointer to `p`. */
    method UmDfsMarkObjects(p: nat, ghost roots: set<nat>) returns (ghost n: set<nat>)
      requires g.Colours(headers[..]) && p < |g.objs| && g.Reached(roots, p)
      modifies headers
      ensures g.Run(old(headers[..]), headers[..], n, {}, {}, roots) && p in g.Marked(headers[..])
      decreases Unmarked(), 0
    {
      hide Graph.Since, Graph.Colours, Graph.Marked, Graph.Reached, Graph.Run;
      ghost var hs := headers[..];
      ColoursOk(hs);
      var marked := IsMarked(p);
      if marked {
        n := {};
        g.RunBegins(hs, roots);
        return;
      }
      ghost var s := Scan(p);
      g.RunScan(hs, headers[..], p, s, roots);
      n := MarkChildren(p, roots, hs, s);
    }

    /** Line 504: umDfsMarkObjectsMark over the slots of `p`. */
    method MarkChildren(p: nat, ghost roots: set<nat>, ghost hs: seq<Header>, ghost s: set<nat>)
      returns (ghost n: set<nat>)
      requires g.Run(hs, headers[..], {p}, s, {p}, roots) && p < |g.objs|
      requires forall q | q in s && q != p :: Ref(q) in g.objs[p].slots
      modifies headers
      ensures g.Run(hs, headers[..], n, {}, {}, roots) && p in g.Marked(headers[..])
      decreases Unmarked(), 1
    {
      hide Graph.Since, Graph.Colours, Graph.Marked, Graph.Reached, Graph.Run;
      n := {p};
      g.RunFacts(hs, headers[..], n, s, {p}, roots);
      ghost var unmarked := Unmarked();
      var slots := g.objs[p].slots;
      for i := 0 to |slots|
        invariant g.Run(hs, headers[..], n, s, {p}, roots) && p in n
        invariant g.Ok() && headers.Length == |g.owner| && Unmarked() <= unmarked
        invariant forall k | 0 <= k < i && slots[k].Ref? :: slots[k].obj in g.Marked(headers[..])
      {
        if slots[i].Ref? {
          var q := slots[i].obj;
          ghost var now := headers[..];
          g.RunChild(hs, now, n, s, roots, p, q);
          ghost var m := UmDfsMarkObjects(q, roots);
          g.RunTrans(hs, now, headers[..], n, s, {p}, m, roots);
          n := n + m;
        }
      }
      g.RunClose(hs, headers[..], n, s, p, roots);
      g.RunFacts(hs, headers[..], n, {}, {}, roots);
    }

    /** addToWorklist (ummark.c:51-95): the array is doubled when it is full. */
    method AddToWorklist(slot: Slot)
      requires Valid() && g.SlotOk(slot)
      modifies `worklist, `wlLength, worklist
      ensures Valid() && Items() == old(Items()) + [slot] && (worklist == old(worklist) || fresh(worklist))
    {
      hide Graph.Colours;
      ghost var was := worklist[..wlLength];
      if wlLength >= worklist.Length {
        var bigger := new Option<Slot>[worklist.Length * 2](_ => None);
        forall i | 0 <= i < worklist.Length { bigger[i] := worklist[i]; }
        assert bigger[..wlLength] == was;
        worklist := bigger;
      }
      worklist[wlLength] := Some(slot);
      wlLength := wlLength + 1;
      assert worklist[..wlLength] == was + [Some(slot)];
      assert forall e | e in was :: e.Some? && g.SlotOk(e.value);
      assert g.Filled(was + [Some(slot)]) && headers[..] == old(headers[..]);
    }

    /** umDfsMarkObjectsToWorklist (ummark.c:553-613). The assertion of addToWorklist (line 64) holds
      because every target is shaded before its slot is queued. */
    method UmDfsMarkObjectsToWorklist(p: nat)
      requires Valid() && p < |g.objs| && g.Queue(headers[..], Items(), -1, 0)
      modifies this, worklist, headers
      ensures Valid() && g.Queue(headers[..], Items(), -1, 0) && (worklist == old(worklist) || fresh(worklist))
      ensures g.Marked(headers[..]) == g.Marked(old(headers[..])) + {p}
      ensures g.SameElsewhere(old(headers[..]), headers[..])
    {
      hide Graph.Since, Graph.Colours, Graph.Marked, Graph.Queue, Graph.Shaded, Graph.Filled, Contents;
      ghost var hs, items := headers[..], Items();
      ColoursOk(hs);
      var marked := IsMarked(p);
      if marked { return; }
      ghost var s := Scan(p);
      g.SinceElsewhere(hs, headers[..], {p}, s);
      g.QueueScan(hs, headers[..], p, s, items);
      ghost var before := headers[..];
      var slots := g.objs[p].slots;
      for i := 0 to |slots|
        invariant Valid() && g.Queue(headers[..], Items(), p, i) && (worklist == old(worklist) || fresh(worklist))
        invariant headers[..] == before
      {
        if slots[i].Ref? {
          g.ShadedKept(hs, headers[..], {p}, s, slots[i].obj);
          assert g.Shaded(headers[..], slots[i].obj);
        }
        g.QueuePush(headers[..], Items(), p, i);
        if slots[i].Ref? { AddToWorklist(Slot(p, i)); }
      }
      g.QueueClose(headers[..], Items(), p);
    }

    /** isWorklistShaded (ummark.c:186-204), asserted at the start of a collection. */
    method IsWorklistShaded() returns (r: bool)
      requires Valid() && g.Queue(headers[..], Items(), -1, 0)
      ensures r
    {
      r := true;
      for i := 0 to wlLength
        invariant r
      {
        assert worklist[i] == worklist[..wlLength][i];
        var slot := worklist[i].value;
        assert slot == Items()[i];
        var v := g.Deref(slot);
        if v.Ref? {
          var c := Container(g.objs[v.obj].shape);
          assert g.ObjOk(g.objs[slot.obj]) && g.Held(v.obj, c);
          if !(headers[c].inUse && headers[c].grey) { return false; }
        }
      }
    }

    /** markWorklist (ummark.c:207-247). */
    method MarkWorklist(ghost roots: set<nat>) returns (ghost n: set<nat>)
      requires Valid() && g.SlotTargets(Items()) <= roots
      modifies `wlLength, worklist, headers
      ensures g.Run(old(headers[..]), headers[..], n, {}, {}, roots) && Valid() && wlLength == 0
      ensures g.SlotTargets(old(Items())) <= g.Marked(headers[..])
    {
      hide Graph.Since, Graph.Colours, Graph.Marked, Graph.Reached, Graph.Run, Graph.SlotTargets, Graph.Filled,
        Contents;
      ghost var hs, items := headers[..], Items();
      n := {};
      g.RunBegins(hs, roots);
      ColoursOk(hs);
      ItemsAre();
      var tmplength := wlLength;
      for i := 0 to wlLength
        invariant tmplength == wlLength - i && wlLength == old(wlLength) <= worklist.Length
        invariant forall k | i <= k < wlLength :: worklist[k] == Some(items[k])
        invariant g.Run(hs, headers[..], n, {}, {}, roots) && g.Ok() && headers.Length == |g.owner|
        invariant forall k | 0 <= k < i && g.Deref(items[k]).Ref? :: g.Deref(items[k]).obj in g.Marked(headers[..])
      {
        if worklist[i].Some? {
          var v := g.Deref(worklist[i].value);
          var gone := !v.Ref?;
          if v.Ref? {
            ghost var now := headers[..];
            RootOf(items, i, roots);
            g.RunFacts(hs, now, n, {}, {}, roots);
            ghost var m := UmDfsMarkObjects(v.obj, roots);
            g.RunTrans(hs, now, headers[..], n, {}, {}, m, roots);
            n := n + m;
            g.RunFacts(hs, headers[..], n, {}, {}, roots);
            gone := IsMarked(v.obj);
          }
          if gone { worklist[i] := None; }
        }
        tmplength := tmplength - 1;
      }
      wlLength := tmplength;
      g.RunFacts(hs, headers[..], n, {}, {}, roots);
      AllTargets(items);
      assert g.Filled(worklist[..wlLength]) by { EmptyFilled(); }
    }

    lemma EmptyFilled()
      ensures forall w: seq<Option<Slot>> | w == [] :: g.Filled(w)
    {}

    lemma ItemsAre()
      requires Valid()
      ensures |Items()| == wlLength && forall k | 0 <= k < wlLength :: worklist[k] == Some(Items()[k])
      ensures forall k | 0 <= k < wlLength :: g.SlotOk(Items()[k])
    {}

    lemma RootOf(items: seq<Slot>, i: nat, roots: set<nat>)
      requires g.Ok() && i < |items| && g.SlotOk(items[i]) && g.Deref(items[i]).Ref? && g.SlotTargets(items) <= roots
      ensures g.Deref(items[i]).obj < |g.objs| && g.Reached(roots, g.Deref(items[i]).obj)
    {
      assert g.ObjOk(g.objs[items[i].obj]);
      assert items[i] in items;
      g.RootReached(roots, g.Deref(items[i]).obj);
    }

    lemma AllTargets(items: seq<Slot>)
      requires g.Ok() && headers.Length == |g.owner| && g.SlotsOk(items)
      requires forall k | 0 <= k < |items| && g.Deref(items[k]).Ref? :: g.Deref(items[k]).obj in g.Marked(headers[..])
      ensures g.SlotTargets(items) <= g.Marked(headers[..])
    {}

    /** foreachGlobalObjptr (s, umDfsMarkObjectsMark). */
    method MarkGlobals(globals: seq<Value>, ghost roots: set<nat>) returns (ghost n: set<nat>)
      requires Valid() && g.ValuesOk(globals) && g.Targets(globals) <= roots
      modifies headers
      ensures g.Run(old(headers[..]), headers[..], n, {}, {}, roots) && Valid()
      ensures g.Targets(globals) <= g.Marked(headers[..])
    {
      hide Graph.Since, Graph.Colours, Graph.Marked, Graph.Reached, Graph.Run, Graph.Filled;
      ghost var hs := headers[..];
      n := {};
      g.RunBegins(hs, roots);
      ColoursOk(hs);
      for i := 0 to |globals|
        invariant g.Run(hs, headers[..], n, {}, {}, roots) && g.Ok() && headers.Length == |g.owner|
        invariant forall k | 0 <= k < i && globals[k].Ref? :: globals[k].obj in g.Marked(headers[..])
      {
        if globals[i].Ref? {
          ghost var now := headers[..];
          assert globals[i] in globals;
          g.RootReached(roots, globals[i].obj);
          g.RunFacts(hs, now, n, {}, {}, roots);
          ghost var m := UmDfsMarkObjects(globals[i].obj, roots);
          g.RunTrans(hs, now, headers[..], n, {}, {}, m, roots);
          n := n + m;
        }
      }
      g.RunFacts(hs, headers[..], n, {}, {}, roots);
    }

    /** startMarking (garbage-collection.c:505-521). */
    method StartMarking(globals: seq<Value>) returns (ghost n: set<nat>)
      requires Valid() && g.ValuesOk(globals) && g.Queued(headers[..], Items(), -1, 0)
      modifies `wlLength, worklist, headers
      ensures Valid() && wlLength == 0 && g.Closed(headers[..])
      ensures var roots := g.Targets(globals) + g.SlotTargets(old(Items()));
              && g.Run(old(headers[..]), headers[..], n, {}, {}, roots)
              && forall p: nat | p < |g.objs| ::
                   p in g.Marked(headers[..]) <==> p in g.Marked(old(headers[..])) || g.Reached(roots, p)
    {
      hide Graph.Since, Graph.Colours, Graph.Marked, Graph.Reached, Graph.Run, Graph.Filled, Graph.Closed,
           Graph.Targets, Graph.SlotTargets, Contents, Graph.Queued;
      ghost var hs, items := headers[..], Items();
      ghost var roots := g.Targets(globals) + g.SlotTargets(items);
      n := MarkGlobals(globals, roots);
      ghost var now := headers[..];
      ghost var m := MarkWorklist(roots);
      g.RunTrans(hs, now, headers[..], n, {}, {}, m, roots);
      n := n + m;
      g.RunFacts(hs, headers[..], n, {}, {}, roots);
      g.RunCloses(hs, headers[..], n, items, roots);
      forall p: nat | p < |g.objs|
        ensures p in g.Marked(headers[..]) <==> p in g.Marked(hs) || g.Reached(roots, p)
      {
        g.MarkedExactly(hs, headers[..], n, roots, p);
      }
    }

    /** callIfIsObjptr (s, umDfsMarkObjectsMarkToWL, ...) over some slots. */
    method MarkSlotsToWorklist(vs: seq<Value>)
      requires Valid() && g.ValuesOk(vs) && g.Queue(headers[..], Items(), -1, 0)
      modifies this, worklist, headers
      ensures Valid() && g.Queue(headers[..], Items(), -1, 0) && (worklist == old(worklist) || fresh(worklist))
      ensures g.Marked(headers[..]) == g.Marked(old(headers[..])) + g.Targets(vs)
      ensures g.SameElsewhere(old(headers[..]), headers[..])
    {
      hide Graph.Colours, Graph.Marked, Graph.Queue, Graph.Filled, Contents;
      ghost var hs := headers[..];
      ColoursOk(hs);
      assert vs[..0] == [] && g.Targets([]) == {};
      for i := 0 to |vs|
        invariant Valid() && g.Queue(headers[..], Items(), -1, 0) && (worklist == old(worklist) || fresh(worklist))
        invariant g.Ok() && headers.Length == |g.owner|
        invariant g.Marked(headers[..]) == g.Marked(hs) + g.Targets(vs[..i])
        invariant g.SameElsewhere(hs, headers[..])
      {
        assert vs[..i + 1] == vs[..i] + [vs[i]];
        TargetsPush(vs[..i], vs[i]);
        if vs[i].Ref? {
          assert vs[i] in vs;
          UmDfsMarkObjectsToWorklist(vs[i].obj);
        }
      }
      assert vs[..|vs|] == vs;
    }

    lemma TargetsPush(vs: seq<Value>, v: Value)
      ensures g.Targets(vs + [v]) == g.Targets(vs) + if v.Ref? then {v.obj} else {}
    {}

    /** markChunk on a stack chunk (garbage-collection.c:484, 493). */
    method MarkStackChunk(c: nat)
      requires Valid() && g.Queue(headers[..], Items(), -1, 0) && c < |g.owner| && g.owner[c] < 0
      modifies headers
      ensures Valid() && g.Queue(headers[..], Items(), -1, 0) && g.Marked(headers[..]) == g.Marked(old(headers[..]))
      ensures headers[..] == old(headers[..])[c := Paint(Mark, old(headers[c]))]
    {
      hide Graph.Marked, Graph.Queue, Graph.Filled, Contents;
      ghost var hs, items := headers[..], Items();
      ColoursOk(hs);
      g.StackChunk(hs, items, c, Paint(Mark, hs[c]));
      headers[c] := Paint(Mark, headers[c]);
      assert headers[..] == hs[c := Paint(Mark, hs[c])];
      g.QueueColours(headers[..], items);
    }

    /** A stack: its chunks in order, the slots that the frame in each chunk holds, and the number of
      the current chunk; the frames in use are those before it. */
    ghost predicate StackOk(stack: seq<nat>, frames: seq<seq<Value>>, current: nat) {
      && current < |stack| == |frames|
      && (forall c | c in stack :: c < |g.owner| && g.owner[c] < 0)
      && (forall f | f in frames :: g.ValuesOk(f))
    }

    ghost predicate ChunksMarked(stack: seq<nat>, n: nat)
      requires n <= |stack|
      reads headers
    {
      forall k | 0 <= k < n :: stack[k] < headers.Length && headers[stack[k]].mark && !headers[stack[k]].red
    }

    /** markStack (garbage-collection.c:458-502). The loop over the frames in use looks for the current chunk
      only after its first step; when the current chunk is the first one it misses it, goes through the whole
      stack and then follows a NULL link, and `ok` is false. */
    method MarkStack(threadPtrs: seq<Value>, stack: seq<nat>, frames: seq<seq<Value>>, current: nat)
      returns (ok: bool)
      requires Valid() && g.ValuesOk(threadPtrs) && StackOk(stack, frames, current)
      requires g.Queue(headers[..], Items(), -1, 0)
      modifies this, worklist, headers
      ensures ok <==> current >= 1
      ensures Valid() && g.Queue(headers[..], Items(), -1, 0) && (worklist == old(worklist) || fresh(worklist))
      ensures var used := if ok then current else |stack|;
              g.Marked(headers[..]) == g.Marked(old(headers[..])) + g.Targets(threadPtrs) + g.FrameTargets(frames, used)
      ensures ChunksMarked(stack, |stack|)
      ensures g.StacksMarked(old(headers[..]), headers[..], ChunkSet(stack))
    {
      hide Graph.Colours, Graph.Marked, Graph.Queue, Graph.Filled, Graph.Targets, Contents, Marker.Items,
           Graph.StacksMarked;
      ghost var hs0 := headers[..];
      ColoursOk(headers[..]);
      MarkSlotsToWorklist(threadPtrs);
      ghost var hs1 := headers[..];
      ghost var marked := g.Marked(old(headers[..])) + g.Targets(threadPtrs);
      var k := MarkUsedFrames(stack, frames, current, marked);
      StopsAtCurrent(0, current, |stack|);
      assert stack[..|stack|] == stack;
      g.MarkedAfter(hs0, hs1, headers[..], ChunkSet(stack[..k]));
      if k == |stack| { return false; }
      ok := true;
      ghost var before := worklist;
      while k < |stack|
        invariant g.Ok() && headers.Length == |g.owner|
        invariant Valid() && g.Queue(headers[..], Items(), -1, 0) && worklist == before && k <= |stack|
        invariant g.Marked(headers[..]) == marked + g.FrameTargets(frames, current)
        invariant ChunksMarked(stack, k) && g.StacksMarked(hs0, headers[..], ChunkSet(stack[..k]))
      {
        assert stack[k] in stack;
        ghost var now := headers[..];
        MarkStackChunk(stack[k]);
        OneMoreMarked(hs0, now, headers[..], stack, k);
        k := k + 1;
      }
    }

    /** The do loop of markStack; `k == |stack|` stands for a NULL link. */
    method MarkUsedFrames(stack: seq<nat>, frames: seq<seq<Value>>, current: nat, ghost marked: set<nat>)
      returns (k: nat)
      requires Valid() && StackOk(stack, frames, current)
      requires g.Queue(headers[..], Items(), -1, 0) && g.Marked(headers[..]) == marked
      modifies this, worklist, headers
      ensures Valid() && g.Queue(headers[..], Items(), -1, 0) && (worklist == old(worklist) || fresh(worklist))
      ensures k == StopsAt(0, current, |stack|) && g.Marked(headers[..]) == marked + g.FrameTargets(frames, k)
      ensures ChunksMarked(stack, k) && g.StacksMarked(old(headers[..]), headers[..], ChunkSet(stack[..k]))
    {
      hide Graph.Colours, Graph.Marked, Graph.Queue, Graph.Filled, Graph.Targets, Contents, Marker.Items,
           Graph.StacksMarked;
      k := 0;
      ghost var hs0 := headers[..];
      ColoursOk(hs0);
      NoneMarked(hs0, stack);
      while true
        invariant g.Ok() && headers.Length == |g.owner| && Valid() && g.Queue(headers[..], Items(), -1, 0) &&
                  (worklist == old(worklist) || fresh(worklist))
        invariant k < |stack| && StopsAt(0, current, |stack|) == StopsAt(k, current, |stack|)
        invariant g.Marked(headers[..]) == marked + g.FrameTargets(frames, k) && ChunksMarked(stack, k)
        invariant g.StacksMarked(hs0, headers[..], ChunkSet(stack[..k]))
        decreases |stack| - k
      {
        assert stack[k] in stack && frames[k] in frames;
        ghost var now := headers[..];
        MarkStackChunk(stack[k]);
        ghost var hs := headers[..];
        OneMoreMarked(hs0, now, hs, stack, k);
        MarkSlotsToWorklist(frames[k]);
        g.MarkedBefore(hs0, hs, headers[..], ChunkSet(stack[..k + 1]));
        StillMarked(stack, k + 1, hs);
        k := k + 1;
        if k == current || k == |stack| { break; }
      }
    }

    lemma NoneMarked(hs: seq<Header>, stack: seq<nat>)
      requires |hs| == |g.owner|
      ensures g.StacksMarked(hs, hs, ChunkSet(stack[..0]))
    {}

    lemma OneMoreMarked(hs0: seq<Header>, hs: seq<Header>, hs': seq<Header>, stack: seq<nat>, k: nat)
      requires k < |stack| && g.StacksMarked(hs0, hs, ChunkSet(stack[..k]))
      requires stack[k] < |hs| && hs' == hs[stack[k] := Paint(Mark, hs[stack[k]])]
      ensures g.StacksMarked(hs0, hs', ChunkSet(stack[..k + 1]))
    {
      assert stack[..k + 1] == stack[..k] + [stack[k]];
    }

    lemma StillMarked(stack: seq<nat>, n: nat, hs: seq<Header>)
      requires n <= |stack| && g.SameElsewhere(hs, headers[..])
      requires forall k | 0 <= k < n ::
                 stack[k] < |hs| && hs[stack[k]].mark && !hs[stack[k]].red && g.owner[stack[k]] < 0
      ensures ChunksMarked(stack, n)
    {}
  }

  ghost function ChunkSet(chunks: seq<nat>): set<nat> { set c | c in chunks }

  /** Where the do loop of markStack stops once it has come to chunk `k` of `n`: at the current chunk, or at
    the NULL link behind the last. */
  function StopsAt(k: nat, current: nat, n: nat): (r: nat)
    requires k < n
    ensures k < r <= n
    decreases n - k
  {
    if k + 1 == current || k + 1 == n then k + 1 else StopsAt(k + 1, current, n)
  }

  /** The loop meets the current chunk exactly when that is not the chunk where it starts, and else runs off
    the end of the stack. */
  lemma {:induction false} StopsAtCurrent(k: nat, current: nat, n: nat)
    requires k <= current < n
    ensures StopsAt(k, current, n) == if k < current then current else n
    ensures StopsAt(k, current, n) < n <==> k < current
    decreases n - k
  {
    if k + 1 < current {
      StopsAtCurrent(k + 1, current, n);
    } else if k == current {
      StopsPast(k, current, n);
    }
  }

  lemma {:induction false} StopsPast(k: nat, current: nat, n: nat)
    requires current <= k < n
    ensures StopsAt(k, current, n) == n
    decreases n - k
  {
    if k + 1 < n { StopsPast(k + 1, current, n); }
  }

  lemma PaintedTwice(hs: seq<Header>, a: set<nat>, b: set<nat>, m: Mode)
    ensures Painted(Painted(hs, a, m), b, m) == Painted(hs, a + b, m)
  {}
}
