/** Array trees as flat arrays: allocation, indexing, the walk over the leaves and the enumeration of
  pointer slots (runtime/gc/umarray-allocate.c:5-22, 163-293, um.c:208-383, foreach.c:188-257). */
module ArrayIndex {
  import opened Arithmetic
  import opened ArrayTree

  // ------------------------------------------------------------------ powers

  function Pow(b: int, e: nat): int {
    if e == 0 then 1 else b * Pow(b, e - 1)
  }

  lemma {:induction false} PowSquare(b: int, k: nat)
    ensures Pow(b, 2 * k) == Pow(b * b, k)
  {
    if k > 0 {
      PowSquare(b, k - 1);
      MulAssoc(b, b, Pow(b, 2 * (k - 1)));
    }
  }

  lemma {:induction false} WidthIsPow(h: nat)
    ensures Width(h) == Pow(INTERNAL_POINTERS, h)
  {
    if h > 0 { WidthIsPow(h - 1); }
  }

  /** ipow (umarray-allocate.c:6-22): powers by squaring. */
  method Ipow(b: int, e: nat) returns (result: int)
    ensures result == Pow(b, e)
  {
    if e == 0 { return 1; }
    result := 1;
    var base, exp := b, e;
    while true
      invariant exp > 0 && result * Pow(base, exp) == Pow(b, e)
      decreases exp
    {
      ghost var r, x := result, base;
      if exp % 2 == 1 {
        MulAssoc(result, base, Pow(base, exp - 1));
        result := result * base;
      }
      PowSquare(base, exp / 2);
      exp := exp / 2;
      if exp == 0 { break; }
      base := base * base;
    }
  }

  // ------------------------------------------------------------------ allocation

  function NumLeaves(length: nat, epc: nat): nat
    requires epc > 0
  {
    length / epc + if length % epc != 0 then 1 else 0
  }

  /** The memory holds an array of `length` elements of `elSize` bytes as a tree of height `h`. */
  ghost predicate IsArray(cs: seq<Chunk>, t: Tree, length: nat, elSize: nat, h: nat) {
    && 0 < elSize <= PAYLOAD_SIZE && RootOk(cs, t, length, elSize, h)
    && (t.Leaf? ==> cs[t.chunk].kind.LeafKind? && length <= PAYLOAD_SIZE / elSize)
    && (t.Node? ==> TreeOk(cs, t, length, h) && Packed(t, h, NumLeaves(length, PAYLOAD_SIZE / elSize)))
    && LeafLinks(cs, Leaves(t)) && Distinct(Leaves(t))
  }

  ghost predicate RootOk(cs: seq<Chunk>, t: Tree, length: nat, elSize: nat, h: nat)
    requires elSize > 0
  {
    t.chunk < |cs| && var c := cs[t.chunk];
    c.inUse && c.length == length == c.numEls && c.elSize == elSize && c.elsPerChunk == PAYLOAD_SIZE / elSize &&
      c.height == h
  }

  ghost predicate TreeOk(cs: seq<Chunk>, t: Tree, length: nat, h: nat)
    requires t.Node?
  {
    && t.chunk < |cs| && cs[t.chunk].kind.Internal? && PtrsAre(cs[t.chunk].ptrs, t.kids) && h > 0
    && RepF(cs, t.kids, t.chunk, Owner(t.chunk, length))
  }

  /** Lines 210-249: how many chunks to reserve and allocate. */
  method CountChunks(numLeaves: nat, treeHeight: nat) returns (numChunks: nat)
    ensures numChunks == if numLeaves == 0 then 1 else ChunkCount(numLeaves, treeHeight)
  {
    var tcn: nat, ncn: nat := numLeaves, numLeaves;
    var i: nat := treeHeight;
    while i != 0
      decreases i
      invariant i <= treeHeight && ChunkCount(numLeaves, treeHeight) == tcn - ncn + ChunkCount(ncn, i)
    {
      var prevlvl := (ncn + INTERNAL_POINTERS - 1) / INTERNAL_POINTERS;
      tcn := tcn + prevlvl;
      ncn := prevlvl;
      i := i - 1;
    }
    numChunks := tcn;
    CountZero(numLeaves, treeHeight);
    if numChunks == 0 { numChunks := 1; }
  }

  /** The height that GC_arrayAllocate takes (line 218): the logarithm of the number of leaves to the base 75,
    rounded up, which is the least height with room for the leaves. */
  function TreeHeight(numLeaves: nat): (h: nat)
    ensures numLeaves <= Width(h) && (h > 0 ==> Width(h - 1) < numLeaves)
  {
    if numLeaves <= 1 then 0 else TreeHeight(Ceil(numLeaves)) + 1
  }

  /** GC_arrayAllocate (lines 197-293), given the chunks it has reserved and allocated. Every one of them
    is used, and the array tree is right for any height that is not too small. */
  method ArrayAllocate(s: Store, numElements: nat, elSize: nat, treeHeight: nat, head: int, ghost list: seq<nat>)
    returns (root: nat, ghost t: Tree)
    requires 0 < elSize <= PAYLOAD_SIZE && NumLeaves(numElements, PAYLOAD_SIZE / elSize) <= Width(treeHeight)
    requires Pool(s.chunks, head, list)
    requires |list| ==
             if numElements == 0 then 1 else ChunkCount(NumLeaves(numElements, PAYLOAD_SIZE / elSize), treeHeight)
    modifies s
    ensures root == t.chunk && IsArray(s.chunks, t, numElements, elSize, treeHeight)
    ensures Pre(t) == list
    ensures |s.chunks| == |old(s.chunks)| && forall c: nat | c < |s.chunks| && c !in list ::
              s.chunks[c] == old(s.chunks)[c]
  {
    hide Built, RepF, PtrsAre, Distinct, Enough, Packed, PackedF, Width, LeafLinks;
    var numElsPerChunk := PAYLOAD_SIZE / elSize;
    var numLeaves := numElements / numElsPerChunk + if numElements % numElsPerChunk != 0 then 1 else 0;
    var numChunks := CountChunks(numLeaves, treeHeight);
    NoElements(numElements, numElsPerChunk);
    CountZero(numLeaves, treeHeight);
    ghost var cs0 := s.chunks;
    InRange(cs0, head, list);
    var allocHead;
    root, allocHead := s.Pop(head, list);
    assert root in list;
    var c := s.chunks[root];
    c := c.(length := numElements, numEls := numElements, elSize := elSize, kind := LeafKind,
            elsPerChunk := numElsPerChunk, height := treeHeight, parent := NULL, root := NULL, inUse := true);
    s.chunks := s.chunks[root := c];
    t := Leaf(root);
    if numChunks == 1 || numElements == 0 {
      OneLeaf(s.chunks, root, numElements, elSize, treeHeight, numLeaves, list);
      return;
    }
    s.chunks := s.chunks[root := c.(kind := Internal)];
    ghost var cs1 := s.chunks;
    RootTaken(cs0, cs1, head, list, root, numLeaves, treeHeight);
    ghost var f;
    var first;
    allocHead, first, f := s.CreateArrayTree(root, allocHead, treeHeight - 1, Owner(root, numElements), list[1..],
      numLeaves);
    t := Node(root, f);
    TreeMade(cs1, s.chunks, root, numElements, elSize, treeHeight, numLeaves, list, f);
  }

  lemma NoElements(length: nat, epc: nat)
    requires epc > 0
    ensures NumLeaves(length, epc) == 0 <==> length == 0
  {}

  /** A single leaf holds all elements. */
  lemma OneLeaf(cs: seq<Chunk>, root: nat, length: nat, elSize: nat, h: nat, n: nat, list: seq<nat>)
    requires 0 < elSize <= PAYLOAD_SIZE && RootOk(cs, Leaf(root), length, elSize, h) &&
             n == NumLeaves(length, PAYLOAD_SIZE / elSize)
    requires cs[root].kind.LeafKind? && cs[root].next == NULL && n <= Width(h) && list != [] && list[0] == root
    requires length == 0 || ChunkCount(n, h) == 1
    requires |list| == if length == 0 then 1 else ChunkCount(n, h)
    ensures IsArray(cs, Leaf(root), length, elSize, h) && Pre(Leaf(root)) == list
  {}

  lemma RootTaken(cs0: seq<Chunk>, cs1: seq<Chunk>, head: int, list: seq<nat>, root: nat, n: nat, h: nat)
    requires Pool(cs0, head, list) && list != [] && root == list[0] && n >= 1 && n <= Width(h) &&
             |list| == ChunkCount(n, h)
    requires |list| != 1 && |cs1| == |cs0| && root < |cs1| && PtrsAre(cs1[root].ptrs, Nil)
    requires forall c: nat | c < |cs1| && c != root :: cs1[c] == cs0[c]
    ensures h > 0 && Pool(cs1, if |list| > 1 then list[1] else NULL, list[1..]) && Enough(list[1..], n, h - 1)
    ensures root < |cs1| && root !in list[1..]
  {
    CountTopPositive(n, h);
    forall i | 1 <= i < |list| ensures list[i] < |cs0| && cs1[list[i]] == cs0[list[i]] { assert PoolAt(cs0, list, i); }
    PoolRest(cs0, cs1, head, list, 1);
  }

  lemma CountTopPositive(n: nat, h: nat)
    requires 1 <= n <= Width(h) && ChunkCount(n, h) != 1
    ensures h > 0 && ChunkCount(n, h) == ChunkCount(n, h - 1) + 1
  {
    if h > 0 { CountTop(n, h); }
  }

  lemma TreeMade(cs1: seq<Chunk>, cs: seq<Chunk>, root: nat, length: nat, elSize: nat, h: nat, n: nat,
                 list: seq<nat>, f: Forest)
    requires 0 < elSize <= PAYLOAD_SIZE && n == NumLeaves(length, PAYLOAD_SIZE / elSize) && 1 <= n <= Width(h)
    requires RootOk(cs1, Node(root, f), length, elSize, h) && cs1[root].kind.Internal?
    requires list != [] && list[0] == root && Distinct(list) && |list| == ChunkCount(n, h) != 1 && h > 0
    requires Built(cs1, cs, root, Owner(root, length), list[1..], f, ChunkCount(n, h - 1)) && PackedF(f, h - 1, n) &&
             LeavesF(f) != []
    ensures IsArray(cs, Node(root, f), length, elSize, h) && Pre(Node(root, f)) == list
    ensures |cs| == |cs1| && forall c: nat | c < |cs| && c !in list :: cs[c] == cs1[c]
  {
    hide RepF, PackedF, LeafLinks, Width, ChunkCount, NumLeaves;
    CountTopPositive(n, h);
    assert list == [root] + list[1..];
    LeavesDistinct(Node(root, f));
    PackedLeavesF(f, h - 1, n);
  }

  // ------------------------------------------------------------------ indexing

  /** The leaves below child number `j` of a node. */
  lemma {:induction false} KidLeaves(f: Forest, h: nat, m: nat, j: nat)
    requires PackedF(f, h, m) && j < Len(f)
    ensures var lo, hi := Times(j, Width(h)), Upto(m, j + 1, Width(h));
            && lo < hi <= m == |LeavesF(f)| && Packed(Kid(f, j), h, hi - lo) && LeavesF(f)[lo..hi] == Leaves(Kid(f, j))
    decreases f
  {
    hide Width, Packed;
    var w := Width(h);
    var k := Len(f.init);
    var m0 := Times(k, w);
    TimesMore(j, w);
    PackedLeavesF(f, h, m);
    PackedLeavesF(f.init, h, m0);
    if j < k {
      KidLeaves(f.init, h, m0, j);
      TimesOrder(j + 1, k, w);
      var hi := Times(j + 1, w);
      assert LeavesF(f)[Times(j, w)..hi] == LeavesF(f.init)[Times(j, w)..hi];
    } else {
      PackedLeaves(f.last, h, m - m0);
      assert LeavesF(f)[m0..m] == Leaves(f.last);
    }
  }

  lemma TimesOrder(a: nat, b: nat, w: nat)
    ensures a <= b ==> Times(a, w) <= Times(b, w)
    ensures w > 0 && Times(a, w) < Times(b, w) ==> a < b
  {}

  /** A node has a child wherever there is a leaf for it to hold. */
  lemma KidExists(f: Forest, h: nat, m: nat, j: nat)
    requires PackedF(f, h, m) && Times(j, Width(h)) < m
    ensures j < Len(f)
  {
    if f.Snoc? {
      TimesMore(Len(f.init), Width(h));
      TimesOrder(j, Len(f), Width(h));
    }
  }

  lemma {:induction false} RepKid(cs: seq<Chunk>, f: Forest, p: nat, o: Owner, j: nat)
    requires RepF(cs, f, p, o) && j < Len(f)
    ensures Rep(cs, Kid(f, j), p, o)
    decreases f
  {
    if j < Len(f.init) { RepKid(cs, f.init, p, o, j); }
  }

  /** The memory at the node `u` of an array. */
  ghost predicate Here(cs: seq<Chunk>, u: Tree, o: Owner) {
    u.chunk < |cs| &&
    match u
    case Leaf(c) => cs[c].kind.LeafKind?
    case Node(c, f) => cs[c].kind.Internal? && PtrsAre(cs[c].ptrs, f) && RepF(cs, f, c, o)
  }

  lemma Assoc3(a: int, b: int, c: int)
    ensures a * b * c == b * (a * c)
  {}

  lemma ShareReal(d: nat, g: nat, slice: nat, next: int)
    requires g > 0 && slice == 75 * g && next == (d as real / slice as real * 75.0).Floor
    ensures 0 <= next && next * g <= d < (next + 1) * g
  {
    var y, gr := d as real / slice as real, g as real;
    DivTimes(d as real, slice as real);
    RealDivPositive(d as real, slice as real);
    RealAssoc(y, 75.0, gr);
    FloorBounds(y * 75.0, next, next as real, (next + 1) as real);
    Between(y * 75.0, gr, d as real, next as real, (next + 1) as real);
    RealTimes(next, g);
    RealTimes(next + 1, g);
  }

  lemma FloorBounds(x: real, next: int, a: real, b: real)
    requires next == x.Floor && a == next as real && b == (next + 1) as real
    ensures a <= x && x < b
    ensures x >= 0.0 ==> next >= 0
  {}

  lemma Between(x: real, g: real, d: real, a: real, b: real)
    requires a <= x && x < b && g > 0.0 && x * g == d
    ensures a * g <= d
    ensures d < b * g
  {}

  lemma DivTimes(a: real, b: real)
    requires b != 0.0
    ensures a / b * b == a
  {}

  lemma RealDivPositive(a: real, b: real)
    requires a >= 0.0 && b > 0.0
    ensures a / b >= 0.0
  {}

  lemma RealAssoc(a: real, b: real, c: real)
    ensures (a * b) * c == a * (b * c)
  {}

  lemma RealTimes(a: int, b: int)
    ensures (a * b) as real == a as real * b as real
  {}

  lemma QuotientBetween(index: nat, epc: nat, a: nat, b: nat)
    requires epc > 0 && a * epc <= index < b * epc
    ensures a <= index / epc < b
  {
    var q := index / epc;
    assert index == epc * q + index % epc;
    if q < a { MulMono(epc, q + 1, a); }
    if b <= q { MulMono(epc, b, q); }
  }

  /** `u` is the subtree with `m` leaves from leaf number `l` of `t` on, and leaf number `q` is below it. */
  ghost predicate At(cs: seq<Chunk>, t: Tree, u: Tree, o: Owner, h: nat, l: nat, m: nat, q: nat) {
    && Here(cs, u, o) && Packed(u, h, m) && l <= q < l + m <= |Leaves(t)| && Leaves(t)[l..l + m] == Leaves(u)
  }

  /** Following pointer number `next` leads to a child, and the leaf is below it. */
  lemma Descend(cs: seq<Chunk>, t: Tree, u: Tree, o: Owner, h: nat, l: nat, m: nat, q: nat, next: nat)
    requires At(cs, t, u, o, h, l, m, q) && h > 0
    requires Times(next, Width(h - 1)) <= q - l < Times(next + 1, Width(h - 1))
    ensures u.Node? && next < Len(u.kids) <= INTERNAL_POINTERS == |cs[u.chunk].ptrs|
    ensures cs[u.chunk].ptrs[next] == Kid(u.kids, next).chunk
    ensures var lo, hi := Times(next, Width(h - 1)), Upto(m, next + 1, Width(h - 1));
            lo < hi && At(cs, t, Kid(u.kids, next), o, h - 1, l + lo, hi - lo, q)
  {
    hide Width, Packed, PackedF, RepF, Rep, PtrsAre, Leaves, LeavesF, Here, Upto, Times;
    NodeFacts(u, h, m);
    KidExists(u.kids, h - 1, m, next);
    KidLeaves(u.kids, h - 1, m, next);
    HereKid(cs, u, o, next);
    var lo, hi := Times(next, Width(h - 1)), Upto(m, next + 1, Width(h - 1));
    UptoIs(m, next + 1, Width(h - 1));
    SliceSlice(Leaves(t), l, m, lo, hi);
  }

  lemma UptoIs(n: nat, i: nat, w: nat)
    ensures Upto(n, i, w) == if n < Times(i, w) then n else Times(i, w)
  {}

  lemma SliceSlice(s: seq<nat>, l: nat, m: nat, lo: nat, hi: nat)
    requires l + m <= |s| && lo <= hi <= m
    ensures s[l + lo..l + hi] == s[l..l + m][lo..hi]
  {
    var a, b := s[l + lo..l + hi], s[l..l + m][lo..hi];
    forall i | 0 <= i < |a| ensures a[i] == b[i] { assert s[l..l + m][lo + i] == s[l + (lo + i)]; }
  }

  lemma HereKid(cs: seq<Chunk>, u: Tree, o: Owner, j: nat)
    requires Here(cs, u, o) && u.Node? && j < Len(u.kids)
    ensures Len(u.kids) <= INTERNAL_POINTERS == |cs[u.chunk].ptrs| && cs[u.chunk].ptrs[j] == Kid(u.kids, j).chunk
    ensures Here(cs, Kid(u.kids, j), o)
  {
    RepKid(cs, u.kids, u.chunk, o, j);
    RepHere(cs, Kid(u.kids, j), u.chunk, o);
  }

  lemma RepHere(cs: seq<Chunk>, t: Tree, p: nat, o: Owner)
    requires Rep(cs, t, p, o)
    ensures Here(cs, t, o)
  {}

  lemma NodeFacts(u: Tree, h: nat, m: nat)
    requires Packed(u, h, m) && h > 0
    ensures u.Node? && PackedF(u.kids, h - 1, m) && Leaves(u) == LeavesF(u.kids)
  {}

  lemma LeafFacts(u: Tree, h: nat, m: nat)
    requires Packed(u, h, m)
    ensures u.Leaf? <==> h == 0
    ensures h == 0 ==> m == 1
  {}

  /** Elements per leaf. */
  function ElsPerChunk(elSize: nat): (r: nat)
    requires 0 < elSize <= PAYLOAD_SIZE
    ensures r > 0
  {
    PAYLOAD_SIZE / elSize
  }

  /** The number of the leaf that holds an element. */
  function LeafOf(index: nat, epc: nat): nat
    requires epc > 0
  {
    index / epc
  }

  function Mul(a: nat, b: nat): nat { a * b }

  /** The pointer to follow (line 319), floating point taken exactly. */
  function NextPointer(distance: nat, slice: nat): int
    requires slice > 0
  {
    (distance as real / slice as real * 75.0).Floor
  }

  /** What line 328 adds to e0. */
  function Skipped(slice: nat, next: nat): nat { slice / INTERNAL_POINTERS * next }

  /** The loop of UM_Array_offset (um.c:290-350): the leaf that holds an element and the number of the
    element it starts with. The pointer it follows is never NULL. */
  method FindLeaf(s: Store, root: nat, index: nat, ghost t: Tree, ghost length: nat, ghost elSize: nat, ghost h: nat)
    returns (leaf: nat, e0: nat)
    requires IsArray(s.chunks, t, length, elSize, h) && t.Node? && root == t.chunk && index < length
    ensures 0 < elSize <= PAYLOAD_SIZE && LeafOf(index, ElsPerChunk(elSize)) < |Leaves(t)|
    ensures leaf == Leaves(t)[LeafOf(index, ElsPerChunk(elSize))] && leaf < |s.chunks|
    ensures e0 == Mul(LeafOf(index, ElsPerChunk(elSize)), ElsPerChunk(elSize)) <= index
  {
    hide IsArray, Packed, Width, At, LeafOf, Mul, NumLeaves, Leaves;
    var cs := s.chunks;
    AtRoot(cs, t, length, elSize, h, index);
    var epc := cs[root].elsPerChunk;
    var curHeight := cs[root].height;
    var current := root;
    var width := Ipow(INTERNAL_POINTERS, curHeight);
    WidthIsPow(curHeight);
    var slice := width * epc;
    e0 := 0;
    ghost var u, o, l: nat, q := t, Owner(root, length), 0, LeafOf(index, epc);
    ghost var m: nat := NumLeaves(length, epc);
    Begin(curHeight, epc, slice);
    while cs[current].kind != LeafKind
      invariant At(cs, t, u, o, curHeight, l, m, q) && current == u.chunk && current < |cs|
      invariant e0 == Mul(l, epc) <= index && slice == Mul(Width(curHeight), epc)
      decreases curHeight
    {
      AtNode(cs, t, u, o, curHeight, l, m, q);
      current, e0, slice, u, l, m := OneLevel(cs, current, index, e0, slice, epc, curHeight, t, u, o, l, m, q);
      curHeight := curHeight - 1;
    }
    AtLeaf(cs, t, u, o, curHeight, l, m, q);
    leaf := current;
  }

  lemma Begin(h: nat, epc: nat, slice: nat)
    requires slice == Width(h) * epc
    ensures slice == Mul(Width(h), epc) && Mul(0, epc) == 0
  {}

  /** One turn of the loop (lines 306-350). */
  method OneLevel(cs: seq<Chunk>, current: nat, index: nat, e0: nat, slice: nat, epc: nat, curHeight: nat,
                  ghost t: Tree, ghost u: Tree, ghost o: Owner, ghost l: nat, ghost m: nat, ghost q: nat)
    returns (current': nat, e0': nat, slice': nat, ghost u': Tree, ghost l': nat, ghost m': nat)
    requires At(cs, t, u, o, curHeight, l, m, q) && curHeight > 0 && current == u.chunk && current < |cs|
    requires epc > 0 && q == LeafOf(index, epc)
    requires e0 == Mul(l, epc) <= index && slice == Mul(Width(curHeight), epc)
    ensures At(cs, t, u', o, curHeight - 1, l', m', q) && current' == u'.chunk && current' < |cs|
    ensures e0' == Mul(l', epc) <= index && slice' == Mul(Width(curHeight - 1), epc)
  {
    hide At, Width, Upto, LeafOf, Mul, NextPointer, Skipped;
    ghost var w := Width(curHeight - 1);
    AtBounds(cs, t, u, o, curHeight, l, m, q);
    SlicePositive(curHeight, epc, slice);
    var next := NextPointer(index - e0, slice);
    NextLeaf(index, epc, l, curHeight, e0, slice, next, q);
    Descend(cs, t, u, o, curHeight, l, m, q, next);
    var below := Ipow(INTERNAL_POINTERS, curHeight - 1);
    WidthIsPow(curHeight - 1);
    e0' := e0 + Skipped(slice, next);
    slice' := below * epc;
    Begin(curHeight - 1, epc, slice');
    current' := cs[current].ptrs[next];
    m' := Upto(m, next + 1, w) - Times(next, w);
    l' := l + Times(next, w);
    u' := Kid(u.kids, next);
    AtBounds(cs, t, u', o, curHeight - 1, l', m', q);
  }

  lemma AtBounds(cs: seq<Chunk>, t: Tree, u: Tree, o: Owner, h: nat, l: nat, m: nat, q: nat)
    requires At(cs, t, u, o, h, l, m, q)
    ensures l <= q && u.chunk < |cs|
  {}

  lemma SlicePositive(h: nat, epc: nat, slice: nat)
    requires epc > 0 && slice == Mul(Width(h), epc)
    ensures slice > 0
  {}

  lemma AtRoot(cs: seq<Chunk>, t: Tree, length: nat, elSize: nat, h: nat, index: nat)
    requires IsArray(cs, t, length, elSize, h) && t.Node? && index < length
    ensures t.chunk < |cs| && 0 < elSize <= PAYLOAD_SIZE && cs[t.chunk].elsPerChunk == ElsPerChunk(elSize) &&
            cs[t.chunk].height == h
    ensures var epc := ElsPerChunk(elSize);
            At(cs, t, t, Owner(t.chunk, length), h, 0, NumLeaves(length, epc), LeafOf(index, epc))
  {
    var epc := PAYLOAD_SIZE / elSize;
    var n := NumLeaves(length, epc);
    hide Packed, PtrsAre, RepF, LeafLinks, Distinct, NumLeaves, Leaves, LeafOf;
    PackedLeaves(t, h, n);
    LeafExists(index, length, epc);
    assert Leaves(t)[0..0 + n] == Leaves(t);
  }

  lemma LeafExists(index: nat, length: nat, epc: nat)
    requires index < length && epc > 0
    ensures LeafOf(index, epc) < NumLeaves(length, epc)
  {
    assert length == epc * (length / epc) + length % epc;
    var n := NumLeaves(length, epc);
    assert length <= n * epc;
    QuotientBetween(index, epc, 0, n);
  }

  lemma AtNode(cs: seq<Chunk>, t: Tree, u: Tree, o: Owner, h: nat, l: nat, m: nat, q: nat)
    requires At(cs, t, u, o, h, l, m, q) && cs[u.chunk].kind != LeafKind
    ensures h > 0
  {}

  lemma AtLeaf(cs: seq<Chunk>, t: Tree, u: Tree, o: Owner, h: nat, l: nat, m: nat, q: nat)
    requires At(cs, t, u, o, h, l, m, q) && cs[u.chunk].kind == LeafKind
    ensures l == q < |Leaves(t)| && u.chunk == Leaves(t)[q]
  {}

  /** The next pointer leads towards the leaf, and e0 stays the first element of the subtree. */
  lemma NextLeaf(index: nat, epc: nat, l: nat, h: nat, e0: nat, slice: nat, next: int, q: nat)
    requires h > 0 && epc > 0 && e0 == Mul(l, epc) <= index && q == LeafOf(index, epc) && l <= q
    requires slice == Mul(Width(h), epc) && slice > 0 && next == NextPointer(index - e0, slice)
    ensures next >= 0 && Times(next, Width(h - 1)) <= q - l < Times(next + 1, Width(h - 1))
    ensures e0 + Skipped(slice, next) == Mul(l + Times(next, Width(h - 1)), epc) <= index
  {
    var w := Width(h - 1);
    var g := w * epc;
    Assoc3(w, INTERNAL_POINTERS, epc);
    MulPositive(w, epc);
    ShareReal(index - e0, g, slice, next);
    Spread(l, next, w, epc);
    Spread(l, next + 1, w, epc);
    Within(index, epc, l, next, w, q);
    SkippedIs(slice, g, next);
  }

  lemma SkippedIs(slice: nat, g: nat, next: nat)
    requires slice == 75 * g
    ensures Skipped(slice, next) == next * g
  {}

  lemma Within(index: nat, epc: nat, l: nat, next: nat, w: nat, q: nat)
    requires epc > 0 && q == LeafOf(index, epc) && (l + next * w) * epc <= index < (l + (next + 1) * w) * epc
    ensures Times(next, w) <= q - l < Times(next + 1, w)
  {
    QuotientBetween(index, epc, l + next * w, l + (next + 1) * w);
  }

  lemma Spread(l: nat, k: nat, w: nat, epc: nat)
    ensures (l + k * w) * epc == l * epc + k * (w * epc)
  {}

  /** UM_Array_offset (um.c:208-383) for an array in the chunked heap. */
  method UmArrayOffset(s: Store, root: nat, index: nat, elemSize: nat, offset: nat, ghost t: Tree, ghost length: nat,
                      ghost h: nat)
    returns (leaf: nat, byte: nat)
    requires IsArray(s.chunks, t, length, elemSize, h) && root == t.chunk && index < length && offset < elemSize
    ensures (leaf, byte) == Place(t, length, elemSize, index, offset)
  {
    hide IsArray, Leaves, LeafOf, Mul;
    PlaceIs(s.chunks, t, length, elemSize, h, index, offset);
    if s.chunks[root].kind == LeafKind {
      return root, index * elemSize + offset;
    }
    var e0;
    leaf, e0 := FindLeaf(s, root, index, t, length, elemSize, h);
    FromStart(index, ElsPerChunk(elemSize), e0);
    byte := (index - e0) * elemSize + offset;
  }

  /** Where a flat array of leaves keeps a byte of an element. */
  ghost function Place(t: Tree, length: nat, elSize: nat, index: nat, offset: nat): (nat, nat)
    requires 0 < elSize <= PAYLOAD_SIZE
  {
    var epc := ElsPerChunk(elSize);
    (if LeafOf(index, epc) < |Leaves(t)| then Leaves(t)[LeafOf(index, epc)] else 0, index % epc * elSize + offset)
  }

  lemma PlaceIs(cs: seq<Chunk>, t: Tree, length: nat, elSize: nat, h: nat, index: nat, offset: nat)
    requires IsArray(cs, t, length, elSize, h) && index < length
    ensures t.chunk < |cs| && 0 < elSize <= PAYLOAD_SIZE && (cs[t.chunk].kind == LeafKind <==> t.Leaf?)
    ensures t.Leaf? ==> Place(t, length, elSize, index, offset) == (t.chunk, index * elSize + offset)
  {}

  lemma FromStart(index: nat, epc: nat, e0: nat)
    requires epc > 0 && e0 == Mul(LeafOf(index, epc), epc)
    ensures index - e0 == index % epc
  {}

  lemma Small(index: nat, epc: nat)
    requires index < epc
    ensures index / epc == 0 && index % epc == index
  {}

  /** No element reaches past the payload of its leaf. */
  lemma PlaceInPayload(length: nat, elSize: nat, t: Tree, index: nat, offset: nat)
    requires 0 < elSize <= PAYLOAD_SIZE && offset < elSize
    ensures Place(t, length, elSize, index, offset).1 < PAYLOAD_SIZE
  {
    var epc := ElsPerChunk(elSize);
    var r := index % epc;
    assert PAYLOAD_SIZE == elSize * epc + PAYLOAD_SIZE % elSize;
    MulMono(elSize, r + 1, epc);
    assert r * elSize + elSize == elSize * (r + 1);
  }

  /** Distinct elements never overlap: no byte of one is a byte of the other. */
  lemma PlacesApart(cs: seq<Chunk>, t: Tree, length: nat, elSize: nat, h: nat, i: nat, offset: nat, j: nat,
                    offset': nat)
    requires IsArray(cs, t, length, elSize, h) && i < length && j < length && offset < elSize && offset' < elSize
    requires Place(t, length, elSize, i, offset) == Place(t, length, elSize, j, offset')
    ensures i == j && offset == offset'
  {
    var epc := ElsPerChunk(elSize);
    LeafInTree(cs, t, length, elSize, h, i);
    LeafInTree(cs, t, length, elSize, h, j);
    var a, b := LeafOf(i, epc), LeafOf(j, epc);
    assert a == b by { hide LeafOf, Leaves, LeafLinks; SameLeaf(Leaves(t), a, b); }
    SplitUnique(i % epc, j % epc, offset, offset', elSize);
    hide IsArray;
    SameNumber(i, j, epc);
  }

  lemma SameNumber(i: nat, j: nat, k: nat)
    requires k > 0 && i / k == j / k && i % k == j % k
    ensures i == j
  {
    assert i == k * (i / k) + i % k && j == k * (j / k) + j % k;
  }

  lemma SameLeaf(s: seq<nat>, a: nat, b: nat)
    requires Distinct(s) && a < |s| && b < |s| && s[a] == s[b]
    ensures a == b
  {}

  lemma SplitUnique(x: nat, y: nat, r: nat, r': nat, k: nat)
    requires r < k && r' < k && x * k + r == y * k + r'
    ensures x == y && r == r'
  {
    if x < y { MulMono(k, x + 1, y); } else if y < x { MulMono(k, y + 1, x); }
  }

  lemma LeafInTree(cs: seq<Chunk>, t: Tree, length: nat, elSize: nat, h: nat, i: nat)
    requires IsArray(cs, t, length, elSize, h) && i < length
    ensures LeafOf(i, ElsPerChunk(elSize)) < |Leaves(t)| && Distinct(Leaves(t))
    ensures Place(t, length, elSize, i, 0).0 == Leaves(t)[LeafOf(i, ElsPerChunk(elSize))]
  {
    var epc := ElsPerChunk(elSize);
    if t.Leaf? {
      Small(i, epc);
    } else {
      LeafExists(i, length, epc);
      PackedLeaves(t, h, NumLeaves(length, epc));
    }
  }

  // ------------------------------------------------------------------ walking over the leaves

  /** UM_walk_array_leafs (umarray-allocate.c:163-194): from a node down to its first leaf, from a leaf
    to the next one. */
  method UmWalkArrayLeafs(s: Store, c: nat, ghost u: Tree, ghost o: Owner, ghost h: nat, ghost m: nat) returns (r: int)
    requires Here(s.chunks, u, o) && Packed(u, h, m) && c == u.chunk
    ensures Leaves(u) != [] && r == if u.Node? then Leaves(u)[0] else s.chunks[c].next
  {
    hide Packed, PackedF, RepF, Rep, PtrsAre, Leaves, LeavesF;
    var cur := c;
    var firstTime := false;
    ghost var v, k: nat, n: nat := u, h, m;
    PackedLeaves(u, h, m);
    while s.chunks[cur].kind == Internal
      invariant Here(s.chunks, v, o) && Packed(v, k, n) && cur == v.chunk && Leaves(v) != [] &&
                Leaves(v)[0] == Leaves(u)[0]
      invariant firstTime == (k < h) && k <= h && (k == h ==> v == u)
      decreases k
    {
      LeafFacts(v, k, n);
      NodeFacts(v, k, n);
      FirstKid(v.kids, k - 1, n);
      HereKid(s.chunks, v, o, 0);
      cur := s.chunks[cur].ptrs[0];
      firstTime := true;
      n := Upto(n, 1, Width(k - 1));
      v := Kid(v.kids, 0);
      k := k - 1;
    }
    LeafFacts(v, k, n);
    LeafFacts(u, h, m);
    OneLeafOnly(v);
    if firstTime { return cur; }
    return s.chunks[cur].next;
  }

  lemma OneLeafOnly(v: Tree)
    ensures v.Leaf? ==> Leaves(v) == [v.chunk]
  {}

  lemma FirstKid(f: Forest, h: nat, m: nat)
    requires PackedF(f, h, m) && LeavesF(f) != []
    ensures Len(f) > 0 && Packed(Kid(f, 0), h, Upto(m, 1, Width(h)))
    ensures Leaves(Kid(f, 0)) != [] && Leaves(Kid(f, 0))[0] == LeavesF(f)[0]
  {
    PackedLeavesF(f, h, m);
    KidLeaves(f, h, m, 0);
    var hi := Upto(m, 1, Width(h));
    assert Times(0, Width(h)) == 0;
    assert LeavesF(f)[0..hi][0] == LeavesF(f)[0];
  }

  lemma {:induction false} LeavesHere(cs: seq<Chunk>, t: Tree, p: nat, o: Owner, c: nat)
    requires Rep(cs, t, p, o) && c in Leaves(t)
    ensures c < |cs| && cs[c].kind.LeafKind?
    decreases t
  {
    if t.Node? { LeavesHereF(cs, t.kids, t.chunk, o, c); }
  }

  lemma {:induction false} LeavesHereF(cs: seq<Chunk>, f: Forest, p: nat, o: Owner, c: nat)
    requires RepF(cs, f, p, o) && c in LeavesF(f)
    ensures c < |cs| && cs[c].kind.LeafKind?
    decreases f
  {
    if c in LeavesF(f.init) { LeavesHereF(cs, f.init, p, o, c); } else { LeavesHere(cs, f.last, p, o, c); }
  }

  /** How many leaves the walk from the root comes to. */
  ghost function Walked(t: Tree): nat { Min(|Leaves(t)|, RUN) }

  /** What the walk finds at leaf number `k`: the next one, up to the first break of the chain. */
  lemma WalkStep(cs: seq<Chunk>, t: Tree, length: nat, elSize: nat, h: nat, k: nat)
    requires IsArray(cs, t, length, elSize, h) && k < Walked(t)
    ensures var c := Leaves(t)[k]; Here(cs, Leaf(c), Owner(0, 0)) && Packed(Leaf(c), 0, 1)
    ensures Leaves(Leaf(Leaves(t)[k])) != []
    ensures cs[Leaves(t)[k]].next == if k + 1 < Walked(t) then Leaves(t)[k + 1] else NULL
  {
    assert LinkAt(cs, Leaves(t), k);
    assert Leaves(t)[k] in Leaves(t);
    if t.Node? { LeavesHereF(cs, t.kids, t.chunk, Owner(t.chunk, length), Leaves(t)[k]); }
  }

  lemma WalkBegins(cs: seq<Chunk>, t: Tree, length: nat, elSize: nat, h: nat)
    requires IsArray(cs, t, length, elSize, h)
    ensures t.chunk < |cs| && Walked(t) > 0 && 0 < elSize <= PAYLOAD_SIZE && PAYLOAD_SIZE / elSize > 0
    ensures t.Node? ==> Here(cs, t, Owner(t.chunk, length)) && Packed(t, h, NumLeaves(length, PAYLOAD_SIZE / elSize))
    ensures t.Leaf? ==>
              Here(cs, t, Owner(0, 0)) && Packed(t, 0, 1) && Leaves(t) == [t.chunk] && cs[t.chunk].next == NULL
    ensures cs[t.chunk].kind == LeafKind <==> t.Leaf?
  {
    if t.Node? {
      PackedLeaves(t, h, NumLeaves(length, PAYLOAD_SIZE / elSize));
    } else {
      assert LinkAt(cs, Leaves(t), 0);
    }
  }

  /** The walk from the root, as foreachObjptrInObject starts it (foreach.c:231-232). */
  method FirstLeaf(s: Store, root: nat, ghost t: Tree, ghost length: nat, ghost elSize: nat, ghost h: nat)
    returns (leaf: nat)
    requires IsArray(s.chunks, t, length, elSize, h) && root == t.chunk
    ensures Walked(t) > 0 && leaf == Leaves(t)[0]
  {
    hide IsArray, Here, Packed, Leaves, NumLeaves;
    WalkBegins(s.chunks, t, length, elSize, h);
    var next;
    if s.chunks[root].kind == LeafKind {
      next := UmWalkArrayLeafs(s, root, t, Owner(0, 0), 0, 1);
    } else {
      next := UmWalkArrayLeafs(s, root, t, Owner(t.chunk, length), h, NumLeaves(length, PAYLOAD_SIZE / elSize));
    }
    leaf := if next == NULL then root else next;
  }

  /** Repeated calls of UM_walk_array_leafs: the leaves in the order that indexing uses, all of them when
    there are at most 5625, which is the case for trees of height 1 and 2. */
  method WalkLeaves(s: Store, root: nat, ghost t: Tree, ghost length: nat, ghost elSize: nat, ghost h: nat)
    returns (visited: seq<nat>)
    requires IsArray(s.chunks, t, length, elSize, h) && root == t.chunk
    ensures visited == Leaves(t)[..Walked(t)]
  {
    hide IsArray, Here, Packed, Leaves, Walked;
    var leaf: int := FirstLeaf(s, root, t, length, elSize, h);
    visited := [];
    WalkedIs(t);
    while leaf != NULL
      invariant |visited| <= Walked(t) && visited == Leaves(t)[..|visited|]
      invariant leaf == if |visited| < Walked(t) then Leaves(t)[|visited|] else NULL
      decreases Walked(t) - |visited|
    {
      WalkStep(s.chunks, t, length, elSize, h, |visited|);
      visited := visited + [leaf];
      leaf := UmWalkArrayLeafs(s, leaf, Leaf(leaf), Owner(0, 0), 0, 1);
    }
  }

  lemma WalkedIs(t: Tree)
    ensures Walked(t) <= |Leaves(t)|
  {}

  /** The walk is complete exactly when there are at most 5625 leaves. */
  lemma WalkComplete(t: Tree, h: nat, n: nat)
    requires Packed(t, h, n)
    ensures Leaves(t)[..Walked(t)] == Leaves(t) <==> n <= RUN
    ensures h <= 2 ==> n <= RUN
  {
    PackedLeaves(t, h, n);
    PackedWidth(t, h, n);
    assert Width(1) == 75 && Width(2) == 5625;
    if h == 0 { assert Width(0) == 1; }
  }

  /** An array of 421876 four-byte elements is the smallest of its kind whose walk misses a leaf. */
  lemma LastLeafMissed(cs: seq<Chunk>, t: Tree, h: nat)
    requires IsArray(cs, t, 421876, 4, h)
    ensures |Leaves(t)| == 5626 && Leaves(t)[5625] !in Leaves(t)[..Walked(t)]
    ensures NumLeaves(421875, 75) == 5625
  {
    assert PAYLOAD_SIZE / 4 == 75 && NumLeaves(421876, 75) == 5626;
    if t.Node? { PackedLeaves(t, h, 5626); }
    forall k | 0 <= k < 5625 ensures Leaves(t)[k] != Leaves(t)[5625] {}
  }

  lemma {:induction false} PackedWidth(t: Tree, h: nat, n: nat)
    requires Packed(t, h, n)
    ensures n <= Width(h)
  {
    if h > 0 {
      var f := t.kids;
      TimesMore(Len(f.init), Width(h - 1));
    }
  }

  // ------------------------------------------------------------------ pointer slots

  const OBJPTR_SIZE: nat := 4

  /** How many leaves the enumeration of an array of pointers goes through: up to the end of the walk, or to
    where all bytes that leaves have room for add up to the bytes of the elements. */
  ghost function LeavesScanned(t: Tree, length: nat, numObjptrs: nat): nat {
    Min(Walked(t), Ceil(numObjptrs * length))
  }

  /** Pointer number `i` of all that `k` leaves have room for. */
  ghost function SlotNumber(t: Tree, i: nat): (nat, nat)
    requires i / INTERNAL_POINTERS < |Leaves(t)|
  {
    (Leaves(t)[i / INTERNAL_POINTERS], i % INTERNAL_POINTERS * OBJPTR_SIZE)
  }

  ghost predicate SlotsAre(t: Tree, slots: seq<(nat, nat)>, k: nat) {
    && k <= |Leaves(t)| && |slots| == INTERNAL_POINTERS * k
    && forall i | 0 <= i < |slots| :: SlotIs(t, slots, i)
  }

  ghost predicate SlotIs(t: Tree, slots: seq<(nat, nat)>, i: nat)
    requires i < |slots|
  {
    i / INTERNAL_POINTERS < |Leaves(t)| && slots[i] == SlotNumber(t, i)
  }

  /** foreachObjptrInObject on an array whose elements are `numObjptrs` pointers each (foreach.c:228-241):
    the slots that the callback is tried on. A slot that holds no pointer into the heap is then skipped. */
  method ForeachPointer(s: Store, root: nat, ghost t: Tree, length: nat, numObjptrs: nat, ghost h: nat)
    returns (slots: seq<(nat, nat)>)
    requires numObjptrs > 0 && IsArray(s.chunks, t, length, numObjptrs * OBJPTR_SIZE, h) && root == t.chunk
    ensures SlotsAre(t, slots, LeavesScanned(t, length, numObjptrs))
  {
    hide IsArray, Here, Packed, Leaves, Walked, SlotsAre;
    ghost var elSize := numObjptrs * OBJPTR_SIZE;
    var leaf: int := FirstLeaf(s, root, t, length, elSize, h);
    var bytesPerElement := numObjptrs * OBJPTR_SIZE;
    var dataBytes := length * bytesPerElement;
    var curBytePosition := 0;
    slots := [];
    ghost var k: nat := 0;
    WalkedIs(t);
    NoSlots(t);
    while leaf != NULL && curBytePosition < dataBytes
      invariant k <= Walked(t) && leaf == (if k < Walked(t) then Leaves(t)[k] else NULL)
      invariant SlotsAre(t, slots, k) && curBytePosition == PAYLOAD_SIZE * k && k <= Ceil(numObjptrs * length)
      decreases Walked(t) - k
    {
      BytesLeft(numObjptrs, length, dataBytes, k);
      slots := ScanLeaf(leaf, slots, t, k);
      curBytePosition := curBytePosition + PAYLOAD_SIZE;
      WalkStep(s.chunks, t, length, elSize, h, k);
      leaf := UmWalkArrayLeafs(s, leaf, Leaf(leaf), Owner(0, 0), 0, 1);
      k := k + 1;
    }
    BytesLeft(numObjptrs, length, dataBytes, k);
  }

  lemma NoSlots(t: Tree)
    ensures SlotsAre(t, [], 0)
  {}

  lemma BytesLeft(numObjptrs: nat, length: nat, dataBytes: nat, k: nat)
    requires dataBytes == length * (numObjptrs * OBJPTR_SIZE)
    ensures PAYLOAD_SIZE * k < dataBytes <==> k < Ceil(numObjptrs * length)
  {
    assert dataBytes == 4 * (numObjptrs * length);
  }

  /** The inner loop: all pointers that leaf number `k` has room for. */
  method ScanLeaf(leaf: nat, slots: seq<(nat, nat)>, ghost t: Tree, ghost k: nat) returns (slots': seq<(nat, nat)>)
    requires SlotsAre(t, slots, k) && k < |Leaves(t)| && leaf == Leaves(t)[k]
    ensures SlotsAre(t, slots', k + 1)
  {
    var cur := 0;
    slots' := slots;
    while cur < PAYLOAD_SIZE
      invariant cur % OBJPTR_SIZE == 0 && cur <= PAYLOAD_SIZE
      invariant |slots'| == INTERNAL_POINTERS * k + cur / OBJPTR_SIZE
      invariant forall i | 0 <= i < |slots'| :: SlotIs(t, slots', i)
    {
      ghost var was := slots';
      slots' := slots' + [(leaf, cur)];
      SlotPlace(k, cur);
      forall i | 0 <= i < |slots'| ensures SlotIs(t, slots', i) {
        if i < |was| { assert SlotIs(t, was, i); }
      }
      cur := cur + OBJPTR_SIZE;
    }
  }

  lemma SlotPlace(k: nat, cur: nat)
    requires cur % OBJPTR_SIZE == 0 && cur < PAYLOAD_SIZE
    ensures var i := INTERNAL_POINTERS * k + cur / OBJPTR_SIZE;
            i / INTERNAL_POINTERS == k && i % INTERNAL_POINTERS * OBJPTR_SIZE == cur
  {}

  /** Pointer number `j` of element number `i` is in one of the first `k` leaves exactly when it is among
    the slots enumerated there. */
  lemma PointerVisited(cs: seq<Chunk>, t: Tree, length: nat, numObjptrs: nat, h: nat, slots: seq<(nat, nat)>, k: nat,
                       i: nat, j: nat)
    requires numObjptrs > 0 && IsArray(cs, t, length, numObjptrs * OBJPTR_SIZE, h) && SlotsAre(t, slots, k)
    requires i < length && j < numObjptrs
    ensures Place(t, length, numObjptrs * OBJPTR_SIZE, i, j * OBJPTR_SIZE) in slots <==>
            LeafOf(i, ElsPerChunk(numObjptrs * OBJPTR_SIZE)) < k
  {
    hide IsArray, Leaves, LeafLinks;
    var elSize := numObjptrs * OBJPTR_SIZE;
    LeafCount(cs, t, length, elSize, h);
    var epc := ElsPerChunk(elSize);
    LeafInTree(cs, t, length, elSize, h, i);
    PlaceInPayload(length, elSize, t, i, j * OBJPTR_SIZE);
    var place := Place(t, length, elSize, i, j * OBJPTR_SIZE);
    var q, cur := LeafOf(i, epc), place.1;
    PlaceByte(i % epc, numObjptrs, j, cur);
    if q < k {
      SlotPlace(q, cur);
      var n := INTERNAL_POINTERS * q + cur / OBJPTR_SIZE;
      assert n < INTERNAL_POINTERS * (q + 1) <= |slots|;
      assert SlotIs(t, slots, n);
    }
    if place in slots {
      var n :| 0 <= n < |slots| && slots[n] == place;
      assert SlotIs(t, slots, n);
      SameLeaf(Leaves(t), n / INTERNAL_POINTERS, q);
    }
  }

  lemma PlaceByte(r: nat, numObjptrs: nat, j: nat, cur: nat)
    requires cur == r * (numObjptrs * OBJPTR_SIZE) + j * OBJPTR_SIZE
    ensures cur % OBJPTR_SIZE == 0
  {
    assert cur == OBJPTR_SIZE * (r * numObjptrs + j);
  }

  /** Which pointers of an array of pointers are visited: all exactly when the walk reaches all leaves and
    the byte count does not end the loop before the last leaf. */
  lemma PointersVisited(cs: seq<Chunk>, t: Tree, length: nat, numObjptrs: nat, h: nat, slots: seq<(nat, nat)>)
    requires numObjptrs > 0 && IsArray(cs, t, length, numObjptrs * OBJPTR_SIZE, h) && length > 0
    requires SlotsAre(t, slots, LeavesScanned(t, length, numObjptrs))
    ensures var n := NumLeaves(length, ElsPerChunk(numObjptrs * OBJPTR_SIZE));
            AllVisited(t, length, numObjptrs, slots) <==>
            n <= RUN && INTERNAL_POINTERS * (n - 1) < numObjptrs * length
    ensures forall i, j | 0 <= i < j < |slots| :: slots[i] != slots[j]
  {
    var elSize := numObjptrs * OBJPTR_SIZE;
    var n, k := NumLeaves(length, ElsPerChunk(elSize)), LeavesScanned(t, length, numObjptrs);
    LeafCount(cs, t, length, elSize, h);
    hide IsArray, SlotsAre, Leaves, Place, LeavesScanned;
    SlotsDistinct(t, slots, k);
    ScannedAll(t, length, numObjptrs, n);
    LastLeaf(length, ElsPerChunk(elSize));
    PointerVisited(cs, t, length, numObjptrs, h, slots, k, length - 1, 0);
    if n <= k {
      forall i, j | 0 <= i < length && 0 <= j < numObjptrs
        ensures Place(t, length, elSize, i, j * OBJPTR_SIZE) in slots
      {
        LeafExists(i, length, ElsPerChunk(elSize));
        PointerVisited(cs, t, length, numObjptrs, h, slots, k, i, j);
      }
    } else {
      assert Place(t, length, elSize, length - 1, 0 * OBJPTR_SIZE) !in slots;
    }
  }

  ghost predicate AllVisited(t: Tree, length: nat, numObjptrs: nat, slots: seq<(nat, nat)>)
    requires 0 < numObjptrs * OBJPTR_SIZE <= PAYLOAD_SIZE
  {
    forall i, j | 0 <= i < length && 0 <= j < numObjptrs ::
      Place(t, length, numObjptrs * OBJPTR_SIZE, i, j * OBJPTR_SIZE) in slots
  }

  lemma LeafCount(cs: seq<Chunk>, t: Tree, length: nat, elSize: nat, h: nat)
    requires IsArray(cs, t, length, elSize, h) && length > 0
    ensures 0 < elSize <= PAYLOAD_SIZE && |Leaves(t)| == NumLeaves(length, ElsPerChunk(elSize)) && Distinct(Leaves(t))
  {
    if t.Node? { PackedLeaves(t, h, NumLeaves(length, ElsPerChunk(elSize))); }
  }

  lemma SlotsDistinct(t: Tree, slots: seq<(nat, nat)>, k: nat)
    requires SlotsAre(t, slots, k) && Distinct(Leaves(t))
    ensures forall i, j | 0 <= i < j < |slots| :: slots[i] != slots[j]
  {
    forall i, j | 0 <= i < j < |slots| ensures slots[i] != slots[j] {
      assert SlotIs(t, slots, i) && SlotIs(t, slots, j);
      var a, b := i / INTERNAL_POINTERS, j / INTERNAL_POINTERS;
      if a < b { assert Leaves(t)[a] != Leaves(t)[b]; }
    }
  }

  lemma ScannedAll(t: Tree, length: nat, numObjptrs: nat, n: nat)
    requires n == |Leaves(t)|
    ensures LeavesScanned(t, length, numObjptrs) >= n <==>
            n <= RUN && INTERNAL_POINTERS * (n - 1) < numObjptrs * length
  {}

  lemma LastLeaf(length: nat, epc: nat)
    requires length > 0 && epc > 0
    ensures LeafOf(length - 1, epc) == NumLeaves(length, epc) - 1
  {
    var n := NumLeaves(length, epc);
    assert length == epc * (length / epc) + length % epc;
    assert (n - 1) * epc <= length - 1 < n * epc;
    QuotientBetween(length - 1, epc, n - 1, n);
  }

  /** When the elements leave no rest in a leaf, as single pointers do, only the walk matters. */
  lemma NoWaste(length: nat, numObjptrs: nat)
    requires 0 < numObjptrs <= INTERNAL_POINTERS && INTERNAL_POINTERS % numObjptrs == 0 && length > 0
    ensures var n := NumLeaves(length, ElsPerChunk(numObjptrs * OBJPTR_SIZE));
            INTERNAL_POINTERS * (n - 1) < numObjptrs * length
  {
    var epc := ElsPerChunk(numObjptrs * OBJPTR_SIZE);
    var n := NumLeaves(length, epc);
    assert INTERNAL_POINTERS == numObjptrs * (INTERNAL_POINTERS / numObjptrs);
    DivUnique(PAYLOAD_SIZE, numObjptrs * OBJPTR_SIZE, INTERNAL_POINTERS / numObjptrs, 0);
    LastLeafUsed(length, epc, n);
    MulAssoc(numObjptrs, epc, n - 1);
    MulMono(numObjptrs, epc * (n - 1) + 1, length);
    MulPlus(numObjptrs, epc * (n - 1), 1);
  }

  lemma LastLeafUsed(length: nat, epc: nat, n: nat)
    requires length > 0 && epc > 0 && n == NumLeaves(length, epc)
    ensures n > 0 && epc * (n - 1) < length
  {
    assert length == epc * (length / epc) + length % epc;
    MulMinus(epc, length / epc, 1);
  }

  /** An array of 75 pairs of pointers has 37 pairs and one unused slot in a leaf; the unused slots make
    the loop end after two of its three leaves, and the last pair is missed. */
  lemma LastPairMissed(cs: seq<Chunk>, t: Tree, h: nat, slots: seq<(nat, nat)>)
    requires IsArray(cs, t, 75, 2 * OBJPTR_SIZE, h) && SlotsAre(t, slots, LeavesScanned(t, 75, 2))
    ensures |Leaves(t)| == 3 && LeavesScanned(t, 75, 2) == 2
    ensures Place(t, 75, 2 * OBJPTR_SIZE, 74, 0) !in slots
  {
    LeafCount(cs, t, 75, 2 * OBJPTR_SIZE, h);
    assert ElsPerChunk(2 * OBJPTR_SIZE) == 37 && NumLeaves(75, 37) == 3;
    PointerVisited(cs, t, 75, 2, h, slots, 2, 74, 0);
  }

  /** foreachObjptrInObject on an array of elements that mix data and pointers (lines 242-257): the
    slots of each element, for trees of any height. */
  method ForeachMixed(s: Store, root: nat, ghost t: Tree, bytesNonObjptrs: nat, numObjptrs: nat, ghost length: nat,
                      ghost h: nat)
    returns (slots: seq<seq<(nat, nat)>>)
    requires bytesNonObjptrs > 0 && IsArray(s.chunks, t, length, bytesNonObjptrs + numObjptrs * OBJPTR_SIZE, h) &&
             root == t.chunk
    ensures |slots| == length && forall i | 0 <= i < length :: |slots[i]| == numObjptrs
    ensures forall i, j | 0 <= i < length && 0 <= j < numObjptrs ::
              slots[i][j] ==
              Place(t, length, bytesNonObjptrs + numObjptrs * OBJPTR_SIZE, i, bytesNonObjptrs + j * OBJPTR_SIZE)
  {
    hide Leaves, LeafOf, Here, Packed;
    var elemSize := bytesNonObjptrs + numObjptrs * OBJPTR_SIZE;
    var arrayLen := s.chunks[root].length;
    slots := [];
    for i := 0 to arrayLen
      invariant |slots| == i && forall k | 0 <= k < i :: |slots[k]| == numObjptrs
      invariant forall k, j | 0 <= k < i && 0 <= j < numObjptrs ::
                  slots[k][j] == Place(t, length, elemSize, k, bytesNonObjptrs + j * OBJPTR_SIZE)
    {
      var leaf, elptr := UmArrayOffset(s, root, i, elemSize, 0, t, length, h);
      elptr := elptr + bytesNonObjptrs;
      var element: seq<(nat, nat)> := [];
      for j := 0 to numObjptrs
        invariant |element| == j && elptr == Place(t, length, elemSize, i, 0).1 + bytesNonObjptrs + j * OBJPTR_SIZE
        invariant forall k | 0 <= k < j ::
                    element[k] == Place(t, length, elemSize, i, bytesNonObjptrs + k * OBJPTR_SIZE)
      {
        element := element + [(leaf, elptr)];
        elptr := elptr + OBJPTR_SIZE;
      }
      slots := slots + [element];
    }
  }
}
