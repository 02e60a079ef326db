/** Array trees: what a tree of chunks looks like, and how many chunks it takes
  (runtime/gc/umarray-allocate.c:50-146, 210-249). */
module ArrayTree {
  import opened Arithmetic

  const NULL: int := -1
  const INTERNAL_POINTERS: nat := 75
  const PAYLOAD_SIZE: nat := 300

  /** An array chunk; `ptrs` and the bytes of a leaf share the payload. */
  datatype Kind = Internal | LeafKind
  datatype Chunk = Chunk(kind: Kind, ptrs: seq<int>, next: int, parent: int, root: int, inUse: bool, length: nat,
                         height: nat, numEls: nat, elSize: nat, elsPerChunk: nat)

  /** A tree of chunks; a forest lists the children of a node from the left. */
  datatype Tree = Leaf(chunk: nat) | Node(chunk: nat, kids: Forest)
  datatype Forest = Nil | Snoc(init: Forest, last: Tree)

  function Len(f: Forest): nat {
    match f case Nil => 0 case Snoc(i, _) => Len(i) + 1
  }

  function Kid(f: Forest, i: nat): Tree
    requires i < Len(f)
  {
    if i == Len(f.init) then f.last else Kid(f.init, i)
  }

  /** The chunks of a tree, a node before its children. */
  function Pre(t: Tree): (r: seq<nat>)
    ensures |r| > 0 && r[0] == t.chunk
  {
    match t case Leaf(c) => [c] case Node(c, f) => [c] + PreF(f)
  }

  function PreF(f: Forest): seq<nat> {
    match f case Nil => [] case Snoc(i, t) => PreF(i) + Pre(t)
  }

  /** The leaves from left to right. */
  function Leaves(t: Tree): seq<nat> {
    match t case Leaf(c) => [c] case Node(_, f) => LeavesF(f)
  }

  function LeavesF(f: Forest): seq<nat> {
    match f case Nil => [] case Snoc(i, t) => LeavesF(i) + Leaves(t)
  }

  /** 75 to the power `h`: the leaves below a full tree of height `h`. */
  function Width(h: nat): (r: nat)
    ensures r > 0
  {
    if h == 0 then 1 else Width(h - 1) * INTERNAL_POINTERS
  }

  function Times(k: nat, w: nat): (r: nat)
    ensures r == k * w
  {
    k * w
  }

  /** A tree of height `h` with `n` leaves: all at the same depth, and no subtree short of leaves but
    the last of each node. */
  ghost predicate Packed(t: Tree, h: nat, n: nat)
    decreases t
  {
    if h == 0 then t.Leaf? && n == 1
    else t.Node? && 1 <= Len(t.kids) <= INTERNAL_POINTERS && PackedF(t.kids, h - 1, n)
  }

  /** Trees of height `h` with `n` leaves in all, full but for the last. */
  ghost predicate PackedF(f: Forest, h: nat, n: nat)
    decreases f
  {
    match f
    case Nil => n == 0
    case Snoc(i, t) =>
      var m := Times(Len(i), Width(h));
      m < n <= m + Width(h) && Packed(t, h, n - m) && PackedF(i, h, m)
  }

  lemma {:induction false} PackedLeaves(t: Tree, h: nat, n: nat)
    requires Packed(t, h, n)
    ensures |Leaves(t)| == n >= 1
    decreases t
  {
    if h > 0 { PackedLeavesF(t.kids, h - 1, n); }
  }

  lemma {:induction false} PackedLeavesF(f: Forest, h: nat, n: nat)
    requires PackedF(f, h, n)
    ensures |LeavesF(f)| == n && (n >= 1 <==> Len(f) >= 1)
    decreases f
  {
    if f.Snoc? {
      var m := Times(Len(f.init), Width(h));
      PackedLeaves(f.last, h, n - m);
      PackedLeavesF(f.init, h, m);
    }
  }

  // ------------------------------------------------------------------ how many chunks a tree takes

  function Ceil(n: nat): nat { (n + INTERNAL_POINTERS - 1) / INTERNAL_POINTERS }

  /** The sum of repeated ceilings that GC_arrayAllocate computes (lines 232-239). */
  function ChunkCount(n: nat, h: nat): nat {
    if h == 0 then n else n + ChunkCount(Ceil(n), h - 1)
  }

  lemma CeilAdd(a: nat, b: nat)
    ensures Ceil(a * INTERNAL_POINTERS + b) == a + Ceil(b)
  {}

  /** Full trees add up. */
  lemma {:induction false} CountAdd(n: nat, h: nat)
    ensures ChunkCount(Width(h) + n, h) == ChunkCount(Width(h), h) + ChunkCount(n, h)
  {
    if h > 0 {
      CeilAdd(Width(h - 1), n);
      CeilAdd(Width(h - 1), 0);
      CountAdd(Ceil(n), h - 1);
    }
  }

  lemma {:induction false} CountNone(h: nat)
    ensures ChunkCount(0, h) == 0
  {
    if h > 0 { CountNone(h - 1); }
  }

  /** A tree that is not too small for its leaves has one chunk at the top. */
  lemma {:induction false} CountTop(n: nat, h: nat)
    requires 1 <= n <= Width(h) && h > 0
    ensures ChunkCount(n, h) == ChunkCount(n, h - 1) + 1
  {
    assert 1 <= Ceil(n) <= Width(h - 1);
    if h > 1 { CountTop(Ceil(n), h - 1); }
  }

  lemma CountZero(n: nat, h: nat)
    ensures ChunkCount(n, h) == 0 <==> n == 0
  {}

  // ------------------------------------------------------------------ trees in memory

  ghost predicate PtrsAre(ptrs: seq<int>, f: Forest) {
    && |ptrs| == INTERNAL_POINTERS && Len(f) <= INTERNAL_POINTERS
    && forall i | 0 <= i < INTERNAL_POINTERS :: ptrs[i] == if i < Len(f) then Kid(f, i).chunk else NULL
  }

  /** What every chunk of an array records: the root of its tree and the length of the array. */
  datatype Owner = Owner(root: nat, length: nat)

  /** The memory holds the tree: kinds, pointers, parents and roots are right. */
  ghost predicate Rep(cs: seq<Chunk>, t: Tree, parent: nat, o: Owner)
    decreases t
  {
    && t.chunk < |cs| && cs[t.chunk].inUse && cs[t.chunk].parent == parent && cs[t.chunk].root == o.root
    && cs[t.chunk].length == o.length
    && match t
       case Leaf(c) => cs[c].kind.LeafKind?
       case Node(c, f) => cs[c].kind.Internal? && PtrsAre(cs[c].ptrs, f) && RepF(cs, f, c, o)
  }

  ghost predicate RepF(cs: seq<Chunk>, f: Forest, parent: nat, o: Owner)
    decreases f
  {
    match f case Nil => true case Snoc(i, t) => RepF(cs, i, parent, o) && Rep(cs, t, parent, o)
  }

  /** The chunk is the same but for its link. */
  predicate SameNode(a: Chunk, b: Chunk) { a == b.(next := a.next) }

  ghost predicate SameAt(cs: seq<Chunk>, cs': seq<Chunk>, ids: seq<nat>) {
    forall i | 0 <= i < |ids| :: ids[i] < |cs| && ids[i] < |cs'| && SameNode(cs[ids[i]], cs'[ids[i]])
  }

  lemma SameParts(cs: seq<Chunk>, cs': seq<Chunk>, a: seq<nat>, b: seq<nat>)
    requires SameAt(cs, cs', a + b)
    ensures SameAt(cs, cs', a) && SameAt(cs, cs', b)
  {
    forall i | 0 <= i < |a| ensures a[i] < |cs| && a[i] < |cs'| && SameNode(cs[a[i]], cs'[a[i]]) {
      assert a[i] == (a + b)[i];
    }
    forall i | 0 <= i < |b| ensures b[i] < |cs| && b[i] < |cs'| && SameNode(cs[b[i]], cs'[b[i]]) {
      assert b[i] == (a + b)[|a| + i];
    }
  }

  lemma {:induction false} RepSame(cs: seq<Chunk>, cs': seq<Chunk>, t: Tree, parent: nat, o: Owner)
    requires Rep(cs, t, parent, o) && SameAt(cs, cs', Pre(t))
    ensures Rep(cs', t, parent, o)
    decreases t
  {
    assert Pre(t)[0] == t.chunk;
    if t.Node? {
      SameParts(cs, cs', [t.chunk], PreF(t.kids));
      RepSameF(cs, cs', t.kids, t.chunk, o);
    }
  }

  lemma {:induction false} RepSameF(cs: seq<Chunk>, cs': seq<Chunk>, f: Forest, parent: nat, o: Owner)
    requires RepF(cs, f, parent, o) && SameAt(cs, cs', PreF(f))
    ensures RepF(cs', f, parent, o)
    decreases f
  {
    if f.Snoc? {
      SameParts(cs, cs', PreF(f.init), Pre(f.last));
      RepSameF(cs, cs', f.init, parent, o);
      RepSame(cs, cs', f.last, parent, o);
    }
  }

  /** The leaves of a tree are among its chunks. */
  lemma {:induction false} LeafInPre(t: Tree, c: nat)
    requires c in Leaves(t)
    ensures c in Pre(t)
    decreases t
  {
    if t.Node? { LeafInPreF(t.kids, c); }
  }

  lemma {:induction false} LeafInPreF(f: Forest, c: nat)
    requires c in LeavesF(f)
    ensures c in PreF(f)
    decreases f
  {
    if c in LeavesF(f.init) { LeafInPreF(f.init, c); } else { LeafInPre(f.last, c); }
  }

  const RUN: nat := 5625

  /** Each leaf is linked to the one after it, except that every 5625 leaves the chain is broken. */
  ghost predicate LeafLinks(cs: seq<Chunk>, leaves: seq<nat>) {
    forall k | 0 <= k < |leaves| :: LinkAt(cs, leaves, k)
  }

  ghost predicate LinkAt(cs: seq<Chunk>, leaves: seq<nat>, k: nat)
    requires k < |leaves|
  {
    leaves[k] < |cs| && cs[leaves[k]].next == if k + 1 < |leaves| && (k + 1) % RUN != 0 then leaves[k + 1] else NULL
  }

  /** The chunks that are still to be used: a list linked by `next`, with no children. */
  ghost predicate Pool(cs: seq<Chunk>, head: int, list: seq<nat>) {
    && (head == if list == [] then NULL else list[0])
    && Distinct(list)
    && forall i | 0 <= i < |list| :: PoolAt(cs, list, i)
  }

  ghost predicate Distinct(list: seq<nat>) {
    forall i, j | 0 <= i < j < |list| :: list[i] != list[j]
  }

  ghost predicate PoolAt(cs: seq<Chunk>, list: seq<nat>, i: nat)
    requires i < |list|
  {
    && list[i] < |cs| && PtrsAre(cs[list[i]].ptrs, Nil)
    && cs[list[i]].next == if i + 1 < |list| then list[i + 1] else NULL
  }

  /** Since `cs0` the first `a` chunks of `list` have become the children `f` of `root`. */
  ghost predicate Built(cs0: seq<Chunk>, cs: seq<Chunk>, root: nat, o: Owner, list: seq<nat>, f: Forest, a: nat) {
    && |cs| == |cs0| && a <= |list| && root < |cs| && PreF(f) == list[..a]
    && RepF(cs, f, root, o) && PtrsAre(cs[root].ptrs, f) && LeafLinks(cs, LeavesF(f))
    && cs[root] == cs0[root].(ptrs := cs[root].ptrs)
    && Unchanged(cs0, cs, root, list[..a])
  }

  ghost predicate Unchanged(cs0: seq<Chunk>, cs: seq<Chunk>, root: nat, used: seq<nat>) {
    |cs| == |cs0| && forall c: nat | c < |cs| && c != root && c !in used :: cs[c] == cs0[c]
  }

  lemma BuiltNone(cs: seq<Chunk>, root: nat, o: Owner, list: seq<nat>)
    requires root < |cs| && PtrsAre(cs[root].ptrs, Nil)
    ensures Built(cs, cs, root, o, list, Nil, 0)
  {}

  /** What is left of a pool stays one while its chunks are not touched. */
  lemma PoolRest(cs: seq<Chunk>, cs': seq<Chunk>, head: int, list: seq<nat>, a: nat)
    requires Pool(cs, head, list) && a <= |list| && |cs'| == |cs|
    requires forall i | a <= i < |list| :: list[i] < |cs| && cs'[list[i]] == cs[list[i]]
    ensures Pool(cs', if a < |list| then list[a] else NULL, list[a..])
  {
    var rest := list[a..];
    forall i | 0 <= i < |rest| ensures PoolAt(cs', rest, i) { assert PoolAt(cs, list, a + i); }
    forall i, j | 0 <= i < j < |rest| ensures rest[i] != rest[j] { assert list[a + i] != list[a + j]; }
  }

  lemma PtrsSnoc(ptrs: seq<int>, f: Forest, t: Tree)
    requires PtrsAre(ptrs, f) && Len(f) < INTERNAL_POINTERS
    ensures PtrsAre(ptrs[Len(f) := t.chunk], Snoc(f, t))
  {}

  // ------------------------------------------------------------------ one more leaf

  /** The record of a leaf (lines 92-99) that was popped from the pool. */
  function LeafRecord(c: Chunk, parent: nat, o: Owner): Chunk {
    c.(length := o.length, height := 0, inUse := true, kind := LeafKind, next := NULL, parent := parent, root := o.root)
  }

  function NodeRecord(c: Chunk, parent: nat, o: Owner): Chunk {
    c.(length := o.length, inUse := true, kind := Internal, next := NULL, parent := parent, root := o.root)
  }

  function SetPtr(cs: seq<Chunk>, root: nat, i: nat, c: nat): seq<Chunk>
    requires root < |cs| && i < |cs[root].ptrs|
  {
    cs[root := cs[root].(ptrs := cs[root].ptrs[i := c])]
  }

  /** All trees of the forest are leaves, and they are the chunks of the list in order. */
  ghost predicate LeavesOnly(f: Forest, list: seq<nat>, i: nat) {
    PackedF(f, 0, i) && Len(f) == i <= |list| && LeavesF(f) == list[..i]
  }

  lemma LeavesMore(f: Forest, list: seq<nat>, i: nat)
    requires LeavesOnly(f, list, i) && i < |list|
    ensures LeavesOnly(Snoc(f, Leaf(list[i])), list, i + 1)
  {}

  /** The memory after leaf number `i` of `list` has been put under `root`. */
  function WithLeaf(cs: seq<Chunk>, root: nat, o: Owner, list: seq<nat>, i: nat): seq<Chunk>
    requires i < |list| && list[i] < |cs| && root < |cs| && root != list[i] && i < |cs[root].ptrs|
    requires i > 0 ==> list[i - 1] < |cs| && list[i - 1] != root
  {
    var cs1 := if i > 0 then cs[list[i - 1] := cs[list[i - 1]].(next := list[i])] else cs;
    SetPtr(cs1[list[i] := LeafRecord(cs1[list[i]], root, o)], root, i, list[i])
  }

  lemma LeafLinksMore(cs: seq<Chunk>, cs': seq<Chunk>, leaves: seq<nat>, c: nat)
    requires LeafLinks(cs, leaves) && c < |cs'| == |cs| && |leaves| < RUN
    requires forall k | 0 <= k < |leaves| :: leaves[k] < |cs|
    requires forall k | 0 <= k < |leaves| - 1 :: cs'[leaves[k]].next == cs[leaves[k]].next
    requires leaves != [] ==> cs'[leaves[|leaves| - 1]].next == c
    requires cs'[c].next == NULL
    ensures LeafLinks(cs', leaves + [c])
  {
    forall k | 0 <= k < |leaves + [c]| ensures LinkAt(cs', leaves + [c], k) {
      if k < |leaves| { assert LinkAt(cs, leaves, k); }
    }
  }

  lemma LeafStep(cs0: seq<Chunk>, cs: seq<Chunk>, root: nat, o: Owner, list: seq<nat>, f: Forest, i: nat)
    requires Built(cs0, cs, root, o, list, f, i) && LeavesOnly(f, list, i) && i < |list| && i < INTERNAL_POINTERS
    requires Distinct(list) && root !in list && forall k | 0 <= k < |list| :: list[k] < |cs|
    ensures Built(cs0, WithLeaf(cs, root, o, list, i), root, o, list, Snoc(f, Leaf(list[i])), i + 1)
  {
    var c := list[i];
    var cs' := WithLeaf(cs, root, o, list, i);
    assert list[..i + 1] == list[..i] + [c];
    LeafWrites(cs, root, o, list, i);
    PtrsSnoc(cs[root].ptrs, f, Leaf(c));
    hide PtrsAre, LeafLinks, WithLeaf, Distinct;
    RepSameF(cs, cs', f, root, o);
    LeafLinksMore(cs, cs', list[..i], c);
    UnchangedMore(cs0, cs, cs', root, list, i);
    var f' := Snoc(f, Leaf(c));
    assert PreF(f') == list[..i + 1];
    assert PtrsAre(cs'[root].ptrs, f');
    assert LeafLinks(cs', LeavesF(f'));
    assert Rep(cs', Leaf(c), root, o);
    assert RepF(cs', f', root, o);
  }

  /** What the statements for one more leaf write. */
  lemma LeafWrites(cs: seq<Chunk>, root: nat, o: Owner, list: seq<nat>, i: nat)
    requires i < |list| && Distinct(list) && root !in list && (forall k | 0 <= k < |list| :: list[k] < |cs|)
    requires root < |cs| && i < |cs[root].ptrs|
    ensures var cs' := WithLeaf(cs, root, o, list, i);
            && |cs'| == |cs| && SameAt(cs, cs', list[..i]) && Unchanged(cs, cs', root, list[..i + 1])
            && (forall k | 0 <= k < i - 1 :: cs'[list[k]].next == cs[list[k]].next)
            && (i > 0 ==> cs'[list[i - 1]].next == list[i])
            && cs'[list[i]] == LeafRecord(cs[list[i]], root, o)
            && cs'[root] == cs[root].(ptrs := cs[root].ptrs[i := list[i]])
  {
    forall c: nat | c < |cs| && c != root && c !in list[..i + 1] ensures WithLeaf(cs, root, o, list, i)[c] == cs[c] {
      assert list[i] == list[..i + 1][i] && (i > 0 ==> list[i - 1] == list[..i + 1][i - 1]);
    }
  }

  lemma UnchangedMore(cs0: seq<Chunk>, cs: seq<Chunk>, cs': seq<Chunk>, root: nat, list: seq<nat>, i: nat)
    requires i < |list| && Unchanged(cs0, cs, root, list[..i]) && Unchanged(cs, cs', root, list[..i + 1])
    ensures Unchanged(cs0, cs', root, list[..i + 1])
  {
    assert list[..i + 1] == list[..i] + [list[i]];
  }

  // ------------------------------------------------------------------ one more subtree

  /** What building at height `h` needs: chunks for `n` leaves, and for more only if the node will be full. */
  ghost predicate Enough(list: seq<nat>, n: nat, h: nat) {
    1 <= n <= Width(h + 1) && |list| >= ChunkCount(n, h) && (|list| > ChunkCount(n, h) ==> n == Width(h + 1))
  }

  function Min(a: nat, b: nat): nat { if a < b then a else b }

  /** The leaves below the first `i` children of a node with `n` leaves. */
  function Upto(n: nat, i: nat, w: nat): nat { Min(n, Times(i, w)) }

  lemma TimesMore(i: nat, w: nat)
    ensures Times(i + 1, w) == Times(i, w) + w
    ensures i < INTERNAL_POINTERS ==> Times(i + 1, w) <= w * INTERNAL_POINTERS
  {
    MulPlus(w, i, 1);
    if i < INTERNAL_POINTERS { MulMono(w, i + 1, INTERNAL_POINTERS); }
  }

  /** The next child gets what is left, or is full. */
  lemma NextChild(list: seq<nat>, n: nat, h: nat, i: nat, left: nat)
    requires h > 0 && Enough(list, n, h) && i < INTERNAL_POINTERS
    requires left == ChunkCount(n - Upto(n, i, Width(h)), h) + (|list| - ChunkCount(n, h)) && left > 0
    ensures Upto(n, i, Width(h)) == Times(i, Width(h)) < n
    ensures var k := Upto(n, i + 1, Width(h)) - Upto(n, i, Width(h));
            && 1 <= k <= Width(h) && (k < Width(h) ==> Upto(n, i + 1, Width(h)) == n)
            && left == 1 + ChunkCount(k, h - 1) + ChunkCount(n - Upto(n, i + 1, Width(h)), h)
                       + (|list| - ChunkCount(n, h))
            && (left - 1 > ChunkCount(k, h - 1) ==> k == Width(h))
  {
    var w := Width(h);
    TimesMore(i, w);
    CountNone(h);
    assert Width(h + 1) == w * INTERNAL_POINTERS;
    var l := Upto(n, i, w);
    assert l < n;
    var k := Upto(n, i + 1, w) - l;
    CountTop(k, h);
    if n - l > w { CountAdd(n - l - w, h); }
  }

  /** The first `j` pointers of the list of a subtree. */
  lemma Slice(list: seq<nat>, a: nat, b: nat)
    requires a + 1 + b <= |list|
    ensures list[..a + 1 + b] == list[..a] + ([list[a]] + list[a + 1..][..b])
  {}

  lemma DistinctRest(list: seq<nat>, a: nat)
    requires Distinct(list) && a <= |list|
    ensures Distinct(list[a..])
    ensures forall c | c in list[..a] :: c !in list[a..]
  {}

  /** The memory when the next node has been taken and put under `root`. */
  function WithNode(cs: seq<Chunk>, root: nat, o: Owner, c: nat, i: nat): seq<Chunk>
    requires c < |cs| && root < |cs| && root != c && i < |cs[root].ptrs|
  {
    SetPtr(cs[c := NodeRecord(cs[c], root, o)], root, i, c)
  }

  /** Linking the last leaf so far to the first of the next subtree (lines 134-142). */
  function Relinked(cs: seq<Chunk>, link: bool, leaf: nat, first: int): seq<Chunk>
    requires link ==> leaf < |cs|
  {
    if link then cs[leaf := cs[leaf].(next := first)] else cs
  }

  lemma NotInSlice(list: seq<nat>, a: nat, b: nat, k: nat)
    requires Distinct(list) && k < a && a + 1 + b <= |list|
    ensures list[k] !in list[a + 1..][..b]
  {}

  /** Nothing but links has changed in the chunks that were used before. */
  lemma EarlierSame(cs: seq<Chunk>, cs1: seq<Chunk>, cs2: seq<Chunk>, cs3: seq<Chunk>, root: nat, o: Owner,
                    list: seq<nat>, a: nat, b: nat, i: nat, link: bool, leaf: nat, first: int)
    requires Distinct(list) && root !in list && a + 1 + b <= |list| && (forall k | 0 <= k < |list| :: list[k] < |cs|)
    requires root < |cs| && i < |cs[root].ptrs| && cs1 == WithNode(cs, root, o, list[a], i)
    requires Unchanged(cs1, cs2, list[a], list[a + 1..][..b])
    requires (link ==> leaf in list[..a]) && (link ==> leaf < |cs2|) && cs3 == Relinked(cs2, link, leaf, first)
    ensures |cs3| == |cs| && SameAt(cs, cs3, list[..a])
    ensures cs3[list[a]] == cs2[list[a]] && cs3[root] == cs1[root]
    ensures SameAt(cs2, cs3, list[a + 1..][..b])
    ensures Unchanged(cs, cs3, root, list[..a + 1 + b])
    ensures forall k | 0 <= k < a && (!link || list[k] != leaf) :: cs3[list[k]] == cs[list[k]]
    ensures forall c | c in list[a + 1..][..b] :: c < |cs3| && cs3[c] == cs2[c]
    ensures link ==> cs3[leaf].next == first
  {}

  /** Leaves of two neighbours make one chain, broken between them only after 5625 leaves. */
  lemma LinksJoin(cs: seq<Chunk>, cs2: seq<Chunk>, cs3: seq<Chunk>, a: seq<nat>, b: seq<nat>, link: bool)
    requires LeafLinks(cs, a) && LeafLinks(cs2, b) && b != [] && |cs| == |cs2| == |cs3|
    requires forall k | 0 <= k < |a| :: a[k] < |cs|
    requires forall k | 0 <= k < |b| :: b[k] < |cs|
    requires link ==> a != [] && cs3[a[|a| - 1]].next == b[0]
    requires forall k | 0 <= k < |a| && (!link || k < |a| - 1) :: cs3[a[k]].next == cs[a[k]].next
    requires forall k | 0 <= k < |b| :: cs3[b[k]].next == cs2[b[k]].next
    requires a == [] || if link then |a| + |b| <= RUN else |a| % RUN == 0
    ensures LeafLinks(cs3, a + b)
  {
    var c := a + b;
    forall k | 0 <= k < |c| ensures LinkAt(cs3, c, k) {
      if k < |a| {
        assert LinkAt(cs, a, k) && c[k] == a[k];
      } else {
        assert LinkAt(cs2, b, k - |a|) && c[k] == b[k - |a|];
        if a != [] && !link { RunShift(|a|, k + 1 - |a|); }
      }
    }
  }

  lemma RunShift(a: nat, k: nat)
    requires a % RUN == 0
    ensures (a + k) % RUN == k % RUN
  {}

  lemma ForestRange(cs: seq<Chunk>, f: Forest, ids: seq<nat>)
    requires PreF(f) == ids && forall k | 0 <= k < |ids| :: ids[k] < |cs|
    ensures forall k | 0 <= k < |LeavesF(f)| :: LeavesF(f)[k] < |cs| && LeavesF(f)[k] in ids
  {
    forall k | 0 <= k < |LeavesF(f)| ensures LeavesF(f)[k] < |cs| && LeavesF(f)[k] in ids {
      LeafInPreF(f, LeavesF(f)[k]);
    }
  }

  /** The subtree that was built under the new node is one more child of `root`. */
  lemma NodeStep(cs0: seq<Chunk>, cs: seq<Chunk>, cs2: seq<Chunk>, cs3: seq<Chunk>, root: nat, o: Owner,
                 list: seq<nat>, f: Forest, a: nat, f2: Forest, b: nat, link: bool, leaf: nat)
    requires Built(cs0, cs, root, o, list, f, a) && Distinct(list) && root !in list && a + 1 + b <= |list|
    requires (forall k | 0 <= k < |list| :: list[k] < |cs|) && Len(f) < INTERNAL_POINTERS
    requires root < |cs| && root != list[a] && list[a] < |cs| && |cs[root].ptrs| == INTERNAL_POINTERS
    requires Built(WithNode(cs, root, o, list[a], Len(f)), cs2, list[a], o, list[a + 1..], f2, b)
    requires link ==> leaf < |cs2| && LeavesF(f) != [] && leaf == LeavesF(f)[|LeavesF(f)| - 1]
    requires LeavesF(f2) != [] && cs3 == Relinked(cs2, link, leaf, LeavesF(f2)[0])
    requires LeavesF(f) == [] || if link then |LeavesF(f)| + |LeavesF(f2)| <= RUN else |LeavesF(f)| % RUN == 0
    requires Distinct(LeavesF(f))
    ensures Built(cs0, cs3, root, o, list, Snoc(f, Node(list[a], f2)), a + 1 + b)
  {
    hide LeafLinks, RepF, PtrsAre, Distinct, SameAt;
    var c, sub, t := list[a], list[a + 1..], Node(list[a], f2);
    var cs1 := WithNode(cs, root, o, c, Len(f));
    var first := LeavesF(f2)[0];
    ForestRange(cs, f, list[..a]);
    EarlierSame(cs, cs1, cs2, cs3, root, o, list, a, b, Len(f), link, leaf, first);
    Slice(list, a, b);
    RepSameF(cs, cs3, f, root, o);
    RepSameF(cs2, cs3, f2, c, o);
    RepNode(cs3, c, f2, root, o, cs1, cs2);
    PtrsSnoc(cs[root].ptrs, f, t);
    NodeLinks(cs, cs2, cs3, list, a, b, f, f2, link, leaf);
    UnchangedTrans(cs0, cs, cs3, root, list, a, a + 1 + b);
    assert PreF(Snoc(f, t)) == list[..a + 1 + b];
    assert RepF(cs3, Snoc(f, t), root, o) by { RepMore(cs3, f, t, root, o); }
    assert cs3[root].ptrs == cs[root].ptrs[Len(f) := c];
    assert PtrsAre(cs3[root].ptrs, Snoc(f, t));
    assert LeavesF(Snoc(f, t)) == LeavesF(f) + LeavesF(f2);
    assert cs3[root] == cs0[root].(ptrs := cs3[root].ptrs);
  }

  /** The leaves of the earlier children and those of the new one make one chain. */
  lemma NodeLinks(cs: seq<Chunk>, cs2: seq<Chunk>, cs3: seq<Chunk>, list: seq<nat>, a: nat, b: nat,
                  f: Forest, f2: Forest, link: bool, leaf: nat)
    requires a + 1 + b <= |list| && |cs| == |cs2| == |cs3| && (forall k | 0 <= k < |list| :: list[k] < |cs|)
    requires PreF(f) == list[..a] && PreF(f2) == list[a + 1..][..b]
    requires LeafLinks(cs, LeavesF(f)) && LeafLinks(cs2, LeavesF(f2)) && LeavesF(f2) != [] && Distinct(LeavesF(f))
    requires forall k | 0 <= k < a && (!link || list[k] != leaf) :: cs3[list[k]] == cs[list[k]]
    requires forall c | c in list[a + 1..][..b] :: c < |cs3| && cs3[c] == cs2[c]
    requires link ==> && LeavesF(f) != [] && leaf == LeavesF(f)[|LeavesF(f)| - 1] && leaf < |cs3|
                      && cs3[leaf].next == LeavesF(f2)[0]
    requires LeavesF(f) == [] || if link then |LeavesF(f)| + |LeavesF(f2)| <= RUN else |LeavesF(f)| % RUN == 0
    ensures LeafLinks(cs3, LeavesF(f) + LeavesF(f2))
  {
    hide LeafLinks, Distinct;
    ForestRange(cs, f, list[..a]);
    ForestRange(cs, f2, list[a + 1..][..b]);
    LinksAgree(cs, cs2, cs3, list, a, b, f, f2, link, leaf);
    LinksJoin(cs, cs2, cs3, LeavesF(f), LeavesF(f2), link);
  }

  lemma RepMore(cs: seq<Chunk>, f: Forest, t: Tree, root: nat, o: Owner)
    requires RepF(cs, f, root, o) && Rep(cs, t, root, o)
    ensures RepF(cs, Snoc(f, t), root, o)
  {}

  lemma RepNode(cs3: seq<Chunk>, c: nat, f2: Forest, root: nat, o: Owner, cs1: seq<Chunk>, cs2: seq<Chunk>)
    requires c < |cs1| == |cs2| == |cs3| && cs3[c] == cs2[c] && cs2[c] == cs1[c].(ptrs := cs2[c].ptrs)
    requires cs1[c] == NodeRecord(cs1[c], root, o) && PtrsAre(cs2[c].ptrs, f2) && RepF(cs3, f2, c, o)
    ensures Rep(cs3, Node(c, f2), root, o)
  {}

  lemma UnchangedTrans(cs0: seq<Chunk>, cs: seq<Chunk>, cs3: seq<Chunk>, root: nat, list: seq<nat>, a: nat, b: nat)
    requires a <= b <= |list| && Unchanged(cs0, cs, root, list[..a]) && Unchanged(cs, cs3, root, list[..b])
    ensures Unchanged(cs0, cs3, root, list[..b])
  {}

  lemma LinksAgree(cs: seq<Chunk>, cs2: seq<Chunk>, cs3: seq<Chunk>, list: seq<nat>, a: nat, b: nat,
                   f: Forest, f2: Forest, link: bool, leaf: nat)
    requires a + 1 + b <= |list| && |cs| == |cs2| == |cs3|
    requires forall k | 0 <= k < |list| :: list[k] < |cs|
    requires forall k | 0 <= k < |LeavesF(f)| :: LeavesF(f)[k] in list[..a]
    requires forall k | 0 <= k < |LeavesF(f2)| :: LeavesF(f2)[k] in list[a + 1..][..b]
    requires forall k | 0 <= k < a && (!link || list[k] != leaf) :: cs3[list[k]] == cs[list[k]]
    requires forall c | c in list[a + 1..][..b] :: c < |cs3| && cs3[c] == cs2[c]
    requires Distinct(LeavesF(f)) && (link ==> LeavesF(f) != [] && leaf == LeavesF(f)[|LeavesF(f)| - 1])
    ensures forall k | 0 <= k < |LeavesF(f)| && (!link || k < |LeavesF(f)| - 1) ::
              LeavesF(f)[k] < |cs| && cs3[LeavesF(f)[k]].next == cs[LeavesF(f)[k]].next
    ensures forall k | 0 <= k < |LeavesF(f2)| ::
              LeavesF(f2)[k] < |cs| && cs3[LeavesF(f2)[k]].next == cs2[LeavesF(f2)[k]].next
  {}

  lemma {:induction false} LeavesDistinct(t: Tree)
    requires Distinct(Pre(t))
    ensures Distinct(Leaves(t))
    decreases t
  {
    if t.Node? {
      assert PreF(t.kids) == Pre(t)[1..];
      LeavesDistinctF(t.kids);
    }
  }

  lemma {:induction false} LeavesDistinctF(f: Forest)
    requires Distinct(PreF(f))
    ensures Distinct(LeavesF(f))
    decreases f
  {
    if f.Snoc? {
      var a, b := PreF(f.init), Pre(f.last);
      assert a == (a + b)[..|a|] && b == (a + b)[|a|..];
      LeavesDistinctF(f.init);
      LeavesDistinct(f.last);
      var x, y := LeavesF(f.init), Leaves(f.last);
      forall i, j | 0 <= i < j < |x + y| ensures (x + y)[i] != (x + y)[j] {
        if i < |x| <= j {
          LeafInPreF(f.init, x[i]);
          LeafInPre(f.last, y[j - |x|]);
          ApartIn(a, b, x[i], y[j - |x|]);
        }
      }
    }
  }

  lemma ApartIn(a: seq<nat>, b: seq<nat>, c: nat, d: nat)
    requires Distinct(a + b) && c in a && d in b
    ensures c != d
  {
    var i :| 0 <= i < |a| && a[i] == c;
    var j :| 0 <= j < |b| && b[j] == d;
    assert (a + b)[i] == c && (a + b)[|a| + j] == d;
  }

  /** The last pointer of a full node above leaves is the last leaf below it. */
  lemma PrevLeaf(cs: seq<Chunk>, f: Forest, root: nat, o: Owner)
    requires f.Snoc? && RepF(cs, f, root, o) && PackedF(f, 1, Times(Len(f), Width(1)))
    ensures f.last.chunk < |cs| && |cs[f.last.chunk].ptrs| == INTERNAL_POINTERS && Kid(f, Len(f) - 1) == f.last
    ensures LeavesF(f) != [] && cs[f.last.chunk].ptrs[INTERNAL_POINTERS - 1] == LeavesF(f)[|LeavesF(f)| - 1]
  {
    TimesMore(Len(f.init), Width(1));
    var kids := f.last.kids;
    assert Width(1) == INTERNAL_POINTERS && Packed(f.last, 1, INTERNAL_POINTERS);
    PackedLeavesF(kids, 0, INTERNAL_POINTERS);
    LeafForest(kids, INTERNAL_POINTERS);
    assert Kid(kids, INTERNAL_POINTERS - 1) == kids.last;
  }

  /** In a forest of leaves there is a tree for every leaf. */
  lemma {:induction false} LeafForest(f: Forest, n: nat)
    requires PackedF(f, 0, n)
    ensures Len(f) == n && (f.Snoc? ==> f.last.Leaf? && LeavesF(f) == LeavesF(f.init) + [f.last.chunk])
    decreases f
  {}

  /** The state of the loop of create_array_tree after `i` children. */
  ghost predicate Progress(cs0: seq<Chunk>, cs: seq<Chunk>, root: nat, o: Owner, list: seq<nat>, f: Forest, a: nat,
                           n: nat, h: nat, i: nat)
  {
    && Built(cs0, cs, root, o, list, f, a) && Len(f) == i <= INTERNAL_POINTERS
    && PackedF(f, h, Upto(n, i, Width(h)))
    && |list| - a == ChunkCount(n - Upto(n, i, Width(h)), h) + (|list| - ChunkCount(n, h))
  }

  lemma ProgressFacts(cs0: seq<Chunk>, cs: seq<Chunk>, root: nat, o: Owner, list: seq<nat>, f: Forest, a: nat,
                      n: nat, h: nat, i: nat)
    requires Progress(cs0, cs, root, o, list, f, a, n, h, i)
    ensures Upto(n, i, Width(h)) <= n && a <= |list| && Len(f) == i
    ensures |list| - a == ChunkCount(n - Upto(n, i, Width(h)), h) + (|list| - ChunkCount(n, h))
  {}

  lemma ProgressBegins(cs: seq<Chunk>, root: nat, o: Owner, list: seq<nat>, n: nat, h: nat)
    requires root < |cs| && PtrsAre(cs[root].ptrs, Nil) && Enough(list, n, h)
    ensures Progress(cs, cs, root, o, list, Nil, 0, n, h, 0) && list != [] && list[0..] == list
  {}

  /** When the pool is empty or 75 children are in place, all `n` leaves are. */
  lemma ProgressEnds(cs0: seq<Chunk>, cs: seq<Chunk>, root: nat, o: Owner, list: seq<nat>, f: Forest, a: nat, n: nat,
                     h: nat, i: nat)
    requires h > 0 && Progress(cs0, cs, root, o, list, f, a, n, h, i) && Enough(list, n, h)
    requires a == |list| || i == INTERNAL_POINTERS
    ensures Built(cs0, cs, root, o, list, f, ChunkCount(n, h)) && PackedF(f, h, n) && a == ChunkCount(n, h)
  {
    var l := Upto(n, i, Width(h));
    if i == INTERNAL_POINTERS {
      assert Times(INTERNAL_POINTERS, Width(h)) == Width(h + 1);
    } else {
      CountZero(n - l, h);
    }
    assert l == n;
    CountNone(h);
  }

  /** Taking the next node leaves the rest of the pool alone. */
  lemma NodePool(cs: seq<Chunk>, root: nat, o: Owner, list: seq<nat>, a: nat, i: nat, head: int, n: nat, h: nat)
    requires Distinct(list) && root !in list && a < |list| && (forall k | 0 <= k < |list| :: list[k] < |cs|)
    requires root < |cs| && i < |cs[root].ptrs| && Pool(cs, head, list[a..]) && Enough(list, n, h)
    requires h > 0 && i < INTERNAL_POINTERS
    requires |list| - a == ChunkCount(n - Upto(n, i, Width(h)), h) + (|list| - ChunkCount(n, h))
    ensures head == list[a] && list[a..][1..] == list[a + 1..] && list[a..] != [] && list[a] != root
    ensures PtrsAre(cs[list[a]].ptrs, Nil) && list[a] !in list[a + 1..]
    ensures Pool(WithNode(cs, root, o, list[a], i), if a + 1 < |list| then list[a + 1] else NULL, list[a + 1..])
    ensures Enough(list[a + 1..], Upto(n, i + 1, Width(h)) - Upto(n, i, Width(h)), h - 1)
  {
    var rest := list[a..];
    var cs' := WithNode(cs, root, o, list[a], i);
    assert PoolAt(cs, rest, 0);
    forall k | 1 <= k < |rest| ensures rest[k] < |cs| && cs'[rest[k]] == cs[rest[k]] {
      assert rest[k] == list[a + k];
    }
    PoolRest(cs, cs', head, rest, 1);
    NextChild(list, n, h, i, |list| - a);
    DistinctRest(list, a + 1);
    assert list[..a + 1][a] == list[a];
  }

  lemma {:induction false} WidthRun(h: nat, i: nat)
    requires h >= 2
    ensures Times(i, Width(h)) % RUN == 0
  {
    WidthFactor(h);
    var w := Width(h) / RUN;
    assert Times(i, Width(h)) == RUN * (i * w) by { assert Width(h) == RUN * w; }
    RunTimes(i * w);
  }

  lemma RunTimes(q: nat)
    ensures RUN * q % RUN == 0
  {}

  lemma {:induction false} WidthFactor(h: nat)
    requires h >= 2
    ensures Width(h) % RUN == 0
  {}

  /** Where the leaf is to which the next subtree is linked, and why that keeps the chain right. */
  lemma LinkTarget(cs0: seq<Chunk>, cs: seq<Chunk>, cs2: seq<Chunk>, root: nat, o: Owner, list: seq<nat>, f: Forest,
                   a: nat, f2: Forest, b: nat, n: nat, h: nat, i: nat, k: nat) returns (leaf: nat)
    requires h > 0 && Progress(cs0, cs, root, o, list, f, a, n, h, i) && i < INTERNAL_POINTERS
    requires Distinct(list) && root !in list && a + 1 + b <= |list| && (forall k | 0 <= k < |list| :: list[k] < |cs|)
    requires root < |cs| && root != list[a] && i < |cs[root].ptrs|
    requires Built(WithNode(cs, root, o, list[a], i), cs2, list[a], o, list[a + 1..], f2, b)
    requires Upto(n, i, Width(h)) == Times(i, Width(h))
    requires k == Upto(n, i + 1, Width(h)) - Upto(n, i, Width(h)) && PackedF(f2, h - 1, k)
    ensures |cs2| == |cs| && Distinct(LeavesF(f))
    ensures h == 1 && i > 0 ==>
              && |cs2[root].ptrs| == INTERNAL_POINTERS && 0 <= cs2[root].ptrs[i - 1] < |cs2|
              && |cs2[cs2[root].ptrs[i - 1]].ptrs| == INTERNAL_POINTERS
              && cs2[cs2[root].ptrs[i - 1]].ptrs[INTERNAL_POINTERS - 1] == leaf
              && leaf < |cs2| && LeavesF(f) != [] && leaf == LeavesF(f)[|LeavesF(f)| - 1] && leaf in list[..a]
    ensures LeavesF(f) == [] || if h == 1 && i > 0 then |LeavesF(f)| + |LeavesF(f2)| <= RUN else |LeavesF(f)| % RUN == 0
  {
    hide Built, RepF, PtrsAre, Distinct, LeafLinks, Unchanged, PackedF, Packed, LeavesF, PreF, ChunkCount, Pre, Leaves;
    BuiltParts(cs0, cs, root, o, list, f, a);
    BuiltSize(WithNode(cs, root, o, list[a], i), cs2, list[a], o, list[a + 1..], f2, b);
    ForestRange(cs, f, list[..a]);
    BuiltDistinct(cs0, cs, root, o, list, f, a);
    PackedLeavesF(f, h, Upto(n, i, Width(h)));
    PackedLeavesF(f2, h - 1, k);
    leaf := 0;
    if h == 1 {
      assert Width(1) == INTERNAL_POINTERS;
      if i > 0 {
        PrevLeaf(cs, f, root, o);
        leaf := LeavesF(f)[|LeavesF(f)| - 1];
        PrevNode(cs, cs2, root, o, list, f, a, f2, b, i);
      }
    } else {
      WidthRun(h, i);
    }
  }

  lemma BuiltParts(cs0: seq<Chunk>, cs: seq<Chunk>, root: nat, o: Owner, list: seq<nat>, f: Forest, a: nat)
    requires Built(cs0, cs, root, o, list, f, a)
    ensures a <= |list| && PreF(f) == list[..a] && root < |cs| && RepF(cs, f, root, o) && PtrsAre(cs[root].ptrs, f)
    ensures |cs[root].ptrs| == INTERNAL_POINTERS && (Len(f) >= 1 ==> f.Snoc?)
  {}

  lemma BuiltSize(cs0: seq<Chunk>, cs: seq<Chunk>, root: nat, o: Owner, list: seq<nat>, f: Forest, a: nat)
    requires Built(cs0, cs, root, o, list, f, a)
    ensures |cs| == |cs0|
  {}

  lemma BuiltDistinct(cs0: seq<Chunk>, cs: seq<Chunk>, root: nat, o: Owner, list: seq<nat>, f: Forest, a: nat)
    requires Built(cs0, cs, root, o, list, f, a) && Distinct(list)
    ensures Distinct(LeavesF(f))
  {
    LeavesDistinctF(f);
  }

  /** The previous child of `root`, as it is found through the pointers after the next one was built. */
  lemma PrevNode(cs: seq<Chunk>, cs2: seq<Chunk>, root: nat, o: Owner, list: seq<nat>, f: Forest, a: nat, f2: Forest,
                 b: nat, i: nat)
    requires a + 1 + b <= |list| && f.Snoc? && Len(f) == i < INTERNAL_POINTERS && PreF(f) == list[..a] &&
             f.last.chunk < |cs|
    requires Distinct(list) && root !in list && (forall k | 0 <= k < |list| :: list[k] < |cs|)
    requires root < |cs| && root != list[a] && PtrsAre(cs[root].ptrs, f)
    requires Built(WithNode(cs, root, o, list[a], i), cs2, list[a], o, list[a + 1..], f2, b)
    ensures |cs2| == |cs| && |cs2[root].ptrs| == INTERNAL_POINTERS
    ensures cs2[root].ptrs[i - 1] == f.last.chunk && cs2[f.last.chunk] == cs[f.last.chunk]
  {
    var c := f.last.chunk;
    assert Kid(f, i - 1) == f.last;
    assert PreF(f) == PreF(f.init) + Pre(f.last);
    var k := |PreF(f.init)|;
    assert list[..a][k] == c;
    assert list[k] == c && k < a;
    NotInSlice(list, a, b, k);
    RootNotIn(list, root, a, b);
  }

  lemma RootNotIn(list: seq<nat>, root: nat, a: nat, b: nat)
    requires root !in list && a + 1 + b <= |list|
    ensures root !in list[a + 1..][..b]
  {}

  lemma Fits(cs0: seq<Chunk>, cs1: seq<Chunk>, cs2: seq<Chunk>, c: nat, o: Owner, list: seq<nat>, f2: Forest, a: nat,
             b: nat)
    requires a < |list| && Built(cs1, cs2, c, o, list[a + 1..], f2, b)
    ensures a + 1 + b <= |list| && list[a + 1..][b..] == list[a + 1 + b..]
    ensures |cs2| == |cs1| && Len(f2) <= INTERNAL_POINTERS && (LeavesF(f2) != [] ==> Len(f2) >= 1)
  {}

  lemma LinkedPool(cs2: seq<Chunk>, list: seq<nat>, a: nat, a': nat, leaf: nat, first: int, head: int)
    requires Distinct(list) && a <= a' <= |list| && leaf in list[..a] && leaf < |cs2| && Pool(cs2, head, list[a'..])
    ensures Pool(cs2[leaf := cs2[leaf].(next := first)], head, list[a'..])
  {
    var rest := list[a'..];
    DistinctRest(list, a');
    assert leaf in list[..a'] by { assert list[..a] == list[..a'][..a]; }
    forall k | 0 <= k < |rest| ensures rest[k] < |cs2| && rest[k] != leaf { assert PoolAt(cs2, rest, k); }
    PoolRest(cs2, cs2[leaf := cs2[leaf].(next := first)], head, rest, 0);
    assert rest[0..] == rest;
  }

  lemma OnePacked(f: Forest, t: Tree, h: nat, l: nat, l': nat)
    requires l <= l' && h > 0 && PackedF(f, h, l) && t.Node? && 1 <= Len(t.kids) <= INTERNAL_POINTERS &&
             PackedF(t.kids, h - 1, l' - l)
    requires l == Times(Len(f), Width(h)) < l' <= l + Width(h)
    ensures PackedF(Snoc(f, t), h, l')
  {}

  /** One more child with its share of the leaves. */
  lemma NodePacked(f: Forest, f2: Forest, c: nat, n: nat, h: nat, i: nat)
    requires h > 0 && PackedF(f, h, Upto(n, i, Width(h))) && Len(f) == i && 1 <= Len(f2) <= INTERNAL_POINTERS
    requires Upto(n, i, Width(h)) == Times(i, Width(h)) < n
    requires PackedF(f2, h - 1, Upto(n, i + 1, Width(h)) - Upto(n, i, Width(h)))
    ensures PackedF(Snoc(f, Node(c, f2)), h, Upto(n, i + 1, Width(h)))
  {
    hide Width, PackedF;
    var w := Width(h);
    TimesMore(i, w);
    var l, l' := Upto(n, i, w), Upto(n, i + 1, w);
    assert l < l' <= l + w;
    OnePacked(f, Node(c, f2), h, l, l');
  }

  class Store {
    var chunks: seq<Chunk>

    /** getLengthOfList (umarray-allocate.c:26-36). */
    method GetLengthOfList(head: int, ghost list: seq<nat>) returns (n: nat)
      requires Pool(chunks, head, list)
      ensures n == |list|
    {
      var current := head;
      n := 0;
      while current != NULL
        invariant n <= |list| && current == if n < |list| then list[n] else NULL
        decreases |list| - n
      {
        assert PoolAt(chunks, list, n);
        current := chunks[current].next;
        n := n + 1;
      }
    }

    /** POPCHUNK (lines 60-67). */
    method Pop(head: int, ghost list: seq<nat>) returns (c: nat, head': int)
      requires Pool(chunks, head, list) && list != []
      modifies this
      ensures c == list[0] < |old(chunks)| && chunks == old(chunks)[c := old(chunks)[c].(next := NULL)]
      ensures PtrsAre(chunks[c].ptrs, Nil) && Pool(chunks, head', list[1..])
    {
      assert PoolAt(chunks, list, 0);
      c := head;
      head' := chunks[c].next;
      ghost var cs := chunks;
      chunks := chunks[c := chunks[c].(next := NULL)];
      forall i | 1 <= i < |list| ensures list[i] < |cs| &&
        chunks[list[i]] == cs[list[i]] { assert PoolAt(cs, list, i); }
      PoolRest(cs, chunks, head, list, 1);
    }

    /** create_array_tree at height 0 (lines 80-104): up to 75 leaves, linked to each other. */
    method LinkLeaves(root: nat, head: int, o: Owner, ghost list: seq<nat>)
      returns (head': int, first: int, ghost f: Forest, ghost n: nat)
      requires Pool(chunks, head, list) && list != [] && root < |chunks| && root !in list &&
               PtrsAre(chunks[root].ptrs, Nil)
      modifies this
      ensures n == if |list| < INTERNAL_POINTERS then |list| else INTERNAL_POINTERS
      ensures Built(old(chunks), chunks, root, o, list, f, n) && LeavesOnly(f, list, n)
      ensures Pool(chunks, head', list[n..]) && first == list[0]
    {
      hide Built, RepF, PtrsAre, LeavesOnly, Distinct;
      var length := GetLengthOfList(head, list);
      var chunksToLink := if length < INTERNAL_POINTERS then length else INTERNAL_POINTERS;
      n := chunksToLink;
      head', first, f := head, NULL, Nil;
      ghost var cs0 := chunks;
      BuiltNone(cs0, root, o, list);
      NoLeaves(list);
      InRange(cs0, head, list);
      assert list[0..] == list;
      var prevnode := NULL;
      for i := 0 to chunksToLink
        invariant Built(cs0, chunks, root, o, list, f, i) && LeavesOnly(f, list, i)
        invariant Pool(chunks, head', list[i..]) && |chunks| == |cs0|
        invariant prevnode == (if i > 0 then list[i - 1] else NULL) && (i > 0 ==> first == list[0])
      {
        ghost var cs := chunks;
        BuiltPtrs(cs0, cs, root, o, list, f, i);
        LeafStep(cs0, cs, root, o, list, f, i);
        LeavesMore(f, list, i);
        LeafPool(cs, root, o, list, i, head');
        var anode;
        anode, head' := Pop(head', list[i..]);
        if prevnode == NULL {
          first := anode;
        } else {
          chunks := chunks[prevnode := chunks[prevnode].(next := anode)];
        }
        prevnode := anode;
        chunks := chunks[anode := LeafRecord(chunks[anode], root, o)];
        chunks := SetPtr(chunks, root, i, anode);
        f := Snoc(f, Leaf(anode));
        assert chunks == WithLeaf(cs, root, o, list, i);
      }
    }

    /** create_array_tree (lines 69-146): hangs the next `n` leaves below `root`. No pop meets an empty
      list, and the chunks for `n` leaves are used up exactly. */
    method CreateArrayTree(root: nat, head: int, height: nat, o: Owner, ghost list: seq<nat>, ghost n: nat)
      returns (head': int, first: int, ghost f: Forest)
      requires Pool(chunks, head, list) && Enough(list, n, height)
      requires root < |chunks| && root !in list && PtrsAre(chunks[root].ptrs, Nil)
      modifies this
      ensures Built(old(chunks), chunks, root, o, list, f, ChunkCount(n, height)) && PackedF(f, height, n)
      ensures Pool(chunks, head', list[ChunkCount(n, height)..])
      ensures LeavesF(f) != [] && (height == 0 ==> first == LeavesF(f)[0])
      decreases height, 1
    {
      hide Built, RepF, PtrsAre, LeavesOnly, Distinct, Progress;
      ghost var cs0 := chunks;
      ProgressBegins(cs0, root, o, list, n, height);
      if height == 0 {
        ghost var k;
        head', first, f, k := LinkLeaves(root, head, o, list);
        LeavesPacked(f, list, k);
        return;
      }
      head', first, f := head, root, Nil;
      ghost var a: nat := 0;
      var done := false;
      var i := 0;
      while !done && i < INTERNAL_POINTERS
        invariant Progress(cs0, chunks, root, o, list, f, a, n, height, i) && a <= |list| && i <= INTERNAL_POINTERS
        invariant Pool(chunks, head', list[a..]) && (done <==> a == |list|)
      {
        head', done, f, a := AddChild(root, head', height, o, cs0, list, n, f, a, i);
        i := i + 1;
      }
      ProgressEnds(cs0, chunks, root, o, list, f, a, n, height, i);
      PackedLeavesF(f, height, n);
    }

    /** One turn of the loop of create_array_tree (lines 111-143). */
    method AddChild(root: nat, head: int, height: nat, o: Owner, ghost cs0: seq<Chunk>, ghost list: seq<nat>,
                    ghost n: nat,
                    ghost f: Forest, ghost a: nat, i: nat)
      returns (head': int, done: bool, ghost f': Forest, ghost a': nat)
      requires height > 0 && Enough(list, n, height) && Pool(cs0, if list == [] then NULL else list[0], list) &&
               root !in list
      requires Progress(cs0, chunks, root, o, list, f, a, n, height, i) && i < INTERNAL_POINTERS
      requires a < |list| && Pool(chunks, head, list[a..])
      modifies this
      ensures Progress(cs0, chunks, root, o, list, f', a', n, height, i + 1) && a' <= |list|
      ensures Pool(chunks, head', list[a'..]) && (done <==> a' == |list|)
      decreases height, 0
    {
      hide Built, RepF, PtrsAre, Distinct, Unchanged, Enough, PackedF, LeavesF, Pool, Width, ChunkCount, Upto, Packed;
      ghost var cs := chunks;
      ProgressFacts(cs0, cs, root, o, list, f, a, n, height, i);
      NextChild(list, n, height, i, |list| - a);
      ghost var k: nat := Upto(n, i + 1, Width(height)) - Upto(n, i, Width(height));
      ghost var b := ChunkCount(k, height - 1);
      InRange(cs0, if list == [] then NULL else list[0], list);
      BuiltPtrs(cs0, cs, root, o, list, f, a);
      var anode, aleaf;
      anode, head' := TakeNode(root, head, o, list, a, i, n, height);
      ghost var f2;
      head', aleaf, f2 := CreateArrayTree(anode, head', height - 1, o, list[a + 1..], k);
      ghost var cs2 := chunks;
      Fits(cs0, WithNode(cs, root, o, anode, i), cs2, anode, o, list, f2, a, b);
      a' := a + 1 + b;
      var length := GetLengthOfList(head', list[a'..]);
      done := length == 0;
      ghost var leaf := LinkTarget(cs0, cs, cs2, root, o, list, f, a, f2, b, n, height, i, k);
      LinkPrevious(root, height, i, aleaf, leaf, list, a, a', head');
      f' := Snoc(f, Node(anode, f2));
      NodeStep(cs0, cs, cs2, chunks, root, o, list, f, a, f2, b, height - 1 == 0 && i > 0, leaf);
      NodePacked(f, f2, anode, n, height, i);
    }

    /** Lines 112-124: pop a node, fill in its record and store the pointer to it. */
    method TakeNode(root: nat, head: int, o: Owner, ghost list: seq<nat>, ghost a: nat, i: nat, ghost n: nat,
                    ghost h: nat)
      returns (anode: nat, head': int)
      requires Distinct(list) && root !in list && a < |list| && (forall k | 0 <= k < |list| :: list[k] < |chunks|)
      requires root < |chunks| && |chunks[root].ptrs| == INTERNAL_POINTERS && Pool(chunks, head, list[a..]) &&
               Enough(list, n, h)
      requires h > 0 && i < INTERNAL_POINTERS
      requires |list| - a == ChunkCount(n - Upto(n, i, Width(h)), h) + (|list| - ChunkCount(n, h))
      modifies this
      ensures anode == list[a] && anode != root && anode < |old(chunks)| &&
              chunks == WithNode(old(chunks), root, o, anode, i)
      ensures Pool(chunks, head', list[a + 1..]) && PtrsAre(chunks[anode].ptrs, Nil) && anode !in list[a + 1..]
      ensures Enough(list[a + 1..], Upto(n, i + 1, Width(h)) - Upto(n, i, Width(h)), h - 1)
    {
      hide Distinct, Enough, Width, ChunkCount, Upto;
      ghost var cs := chunks;
      NodePool(cs, root, o, list, a, i, head, n, h);
      anode, head' := Pop(head, list[a..]);
      chunks := chunks[anode := NodeRecord(chunks[anode], root, o)];
      chunks := SetPtr(chunks, root, i, anode);
      assert chunks == WithNode(cs, root, o, anode, i);
    }

    /** Lines 134-142. */
    method LinkPrevious(root: nat, height: nat, i: nat, aleaf: int, ghost leaf: nat, ghost list: seq<nat>,
                        ghost a: nat, ghost a': nat, ghost head: int)
      requires Distinct(list) && a <= a' <= |list| && Pool(chunks, head, list[a'..]) && root < |chunks|
      requires height == 1 && i > 0 ==>
                 && i <= |chunks[root].ptrs| && 0 <= chunks[root].ptrs[i - 1] < |chunks|
                 && |chunks[chunks[root].ptrs[i - 1]].ptrs| == INTERNAL_POINTERS
                 && chunks[chunks[root].ptrs[i - 1]].ptrs[INTERNAL_POINTERS - 1] == leaf
                 && leaf < |chunks| && leaf in list[..a]
      modifies this
      ensures chunks == Relinked(old(chunks), height == 1 && i > 0, leaf, aleaf) && Pool(chunks, head, list[a'..])
    {
      if height - 1 == 0 && i > 0 {
        LinkedPool(chunks, list, a, a', leaf, aleaf, head);
        var prevleafIn := chunks[root].ptrs[i - 1];
        var prevleaf := chunks[prevleafIn].ptrs[INTERNAL_POINTERS - 1];
        chunks := chunks[prevleaf := chunks[prevleaf].(next := aleaf)];
      }
    }
  }

  lemma LeavesPacked(f: Forest, list: seq<nat>, n: nat)
    requires LeavesOnly(f, list, n) && n > 0
    ensures PackedF(f, 0, n) && LeavesF(f) != [] && LeavesF(f)[0] == list[0]
  {}

  lemma NoLeaves(list: seq<nat>)
    ensures LeavesOnly(Nil, list, 0)
  {}

  lemma InRange(cs: seq<Chunk>, head: int, list: seq<nat>)
    requires Pool(cs, head, list)
    ensures Distinct(list) && forall k | 0 <= k < |list| :: list[k] < |cs|
  {
    forall k | 0 <= k < |list| ensures list[k] < |cs| { assert PoolAt(cs, list, k); }
  }

  lemma BuiltPtrs(cs0: seq<Chunk>, cs: seq<Chunk>, root: nat, o: Owner, list: seq<nat>, f: Forest, i: nat)
    requires Built(cs0, cs, root, o, list, f, i)
    ensures root < |cs| == |cs0| && |cs[root].ptrs| == INTERNAL_POINTERS && Len(f) <= INTERNAL_POINTERS
    ensures PtrsAre(cs[root].ptrs, f)
  {}

  /** The rest of the pool is untouched when leaf number `i` is put in place. */
  lemma LeafPool(cs: seq<Chunk>, root: nat, o: Owner, list: seq<nat>, i: nat, head: int)
    requires Distinct(list) && root !in list && i < |list| && (forall k | 0 <= k < |list| :: list[k] < |cs|)
    requires root < |cs| && i < |cs[root].ptrs| && Pool(cs, head, list[i..])
    ensures head == list[i] && list[i..][0] == list[i] && list[i..][1..] == list[i + 1..]
    ensures Pool(WithLeaf(cs, root, o, list, i), if i + 1 < |list| then list[i + 1] else NULL, list[i + 1..])
  {
    var rest := list[i..];
    var cs' := WithLeaf(cs, root, o, list, i);
    forall k | 1 <= k < |rest| ensures rest[k] < |cs| && cs'[rest[k]] == cs[rest[k]] {
      assert rest[k] == list[i + k];
    }
    PoolRest(cs, cs', head, rest, 1);
  }
}
