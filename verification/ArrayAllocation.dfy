/** GC_arrayAllocate as a whole (runtime/gc/umarray-allocate.c:197-293): from the number of elements to the
  height and the number of chunks, through reservation and allocation on the chunked heap, to the tree.

  The heap holds types, headers and links of the chunks, the store what array chunks record. */
module ArrayAllocation {
  import opened ArrayTree
  import opened ArrayIndex
  import C = ChunkHeap
  import K = Chunk
  import Reservation

  /** The error exits, the wait for a collection, or the root of the array. */
  datatype Outcome = Insufficient | MustCollect | Allocated(root: nat)

  function NoPointers(): (r: seq<int>)
    ensures PtrsAre(r, Nil)
  {
    seq(INTERNAL_POINTERS, _ => NULL)
  }

  /** How many chunks an array takes. */
  function ChunksFor(length: nat, elSize: nat): (n: nat)
    requires 0 < elSize <= PAYLOAD_SIZE
    ensures n > 0
  {
    var numLeaves := NumLeaves(length, ElsPerChunk(elSize));
    CountZero(numLeaves, TreeHeight(numLeaves));
    if numLeaves == 0 then 1 else ChunkCount(numLeaves, TreeHeight(numLeaves))
  }

  function HeightFor(length: nat, elSize: nat): nat
    requires 0 < elSize <= PAYLOAD_SIZE
  {
    TreeHeight(NumLeaves(length, ElsPerChunk(elSize)))
  }

  /** The chunks in `list` have the links of the heap and no pointers. */
  ghost predicate Blank(cs: seq<Chunk>, links: seq<int>, list: seq<nat>, k: nat) {
    && |cs| == |links| && k <= |list|
    && forall i | 0 <= i < k :: BlankAt(cs, links, list, i)
  }

  ghost predicate BlankAt(cs: seq<Chunk>, links: seq<int>, list: seq<nat>, i: nat)
    requires i < |list| && |cs| == |links|
  {
    list[i] < |cs| && cs[list[i]].ptrs == NoPointers() && cs[list[i]].next == links[list[i]]
  }

  ghost predicate Untouched(cs0: seq<Chunk>, cs: seq<Chunk>, list: seq<nat>) {
    |cs| == |cs0| && forall c: nat | c < |cs| && c !in list :: cs[c] == cs0[c]
  }

  lemma ListDistinct(m0: C.Memory, m: C.Memory, f: seq<nat>, k: nat, h: K.Header)
    requires C.Allocated(m0, m, f, k, K.ArrayChunk, h) && 0 < k
    ensures Distinct(f[..k])
  {}

  lemma LinkOfList(m0: C.Memory, m: C.Memory, f: seq<nat>, k: nat, h: K.Header, i: nat)
    requires C.Allocated(m0, m, f, k, K.ArrayChunk, h) && i < k
    ensures f[i] < |m.links| && m.links[f[i]] == if i + 1 < k then f[i + 1] else NULL
  {}

  /** What allocateArrayChunks has linked up is a pool to build a tree from. */
  lemma LinkedIsPool(m0: C.Memory, m: C.Memory, f: seq<nat>, k: nat, h: K.Header, cs: seq<Chunk>)
    requires C.Allocated(m0, m, f, k, K.ArrayChunk, h) && 0 < k
    requires Blank(cs, m.links, f[..k], k)
    ensures Pool(cs, f[0], f[..k])
  {
    var list := f[..k];
    ListDistinct(m0, m, f, k, h);
    hide C.Allocated, PtrsAre;
    forall i | 0 <= i < |list| ensures PoolAt(cs, list, i) {
      LinkOfList(m0, m, f, k, h, i);
      assert BlankAt(cs, m.links, list, i) && list[i] == f[i] && (i + 1 < k ==> list[i + 1] == f[i + 1]);
    }
  }

  lemma BlankNext(cs: seq<Chunk>, links: seq<int>, list: seq<nat>, k: nat)
    requires Blank(cs, links, list, k) && k < |list| && list[k] < |cs| && Distinct(list)
    ensures Blank(cs[list[k] := cs[list[k]].(ptrs := NoPointers(), next := links[list[k]])], links, list, k + 1)
  {
    var cs' := cs[list[k] := cs[list[k]].(ptrs := NoPointers(), next := links[list[k]])];
    forall i | 0 <= i < k + 1 ensures BlankAt(cs', links, list, i) {
      if i < k { assert BlankAt(cs, links, list, i) && list[i] != list[k]; }
    }
  }

  /** The payloads of freshly allocated array chunks hold no pointers (umheap.c:165-168). */
  method ClearPayloads(h: C.Heap, s: Store, head: int, ghost m0: C.Memory, ghost f: seq<nat>, ghost k: nat,
                       ghost header: K.Header)
    requires 0 < k <= |f| && head == f[0] && |s.chunks| == h.link.Length
    requires C.Allocated(m0, h.Now(), f, k, K.ArrayChunk, header)
    modifies s
    ensures Pool(s.chunks, head, f[..k]) && Untouched(old(s.chunks), s.chunks, f[..k])
  {
    var c := head;
    ghost var list, links, i: nat := f[..k], h.link[..], 0;
    ListDistinct(m0, h.Now(), f, k, header);
    while c != NULL
      invariant i <= k && c == (if i < k then list[i] else NULL)
      invariant Blank(s.chunks, links, list, i) && Untouched(old(s.chunks), s.chunks, list)
      decreases k - i
    {
      LinkOfList(m0, h.Now(), f, k, header, i);
      BlankNext(s.chunks, links, list, i);
      assert list[i] in list;
      assert list[i] == f[i] && (i + 1 < k ==> list[i + 1] == f[i + 1]);
      s.chunks := s.chunks[c := s.chunks[c].(ptrs := NoPointers(), next := h.link[c])];
      c := h.link[c];
      i := i + 1;
    }
    LinkedIsPool(m0, h.Now(), f, k, header, s.chunks);
  }

  /** Lines 259-292, once the chunks are reserved. */
  method BuildReserved(h: C.Heap, owed: array<nat>, thread: nat, s: Store, numElements: nat, elSize: nat,
                       rtSync: bool, treeHeight: nat, numChunks: nat)
    returns (root: nat, ghost t: Tree)
    requires h.Valid() && thread < owed.Length && Reservation.Covered(C.Reservations(h, owed))
    requires |s.chunks| == h.n == h.link.Length && 0 < elSize <= PAYLOAD_SIZE
    requires treeHeight == HeightFor(numElements, elSize) && numChunks == ChunksFor(numElements, elSize)
    requires numChunks <= owed[thread]
    modifies h, h.chunkType, h.header, h.link, h.prev, owed, s
    ensures h.Valid() && Reservation.Covered(C.Reservations(h, owed)) && |s.chunks| == h.n
    ensures owed[..] == old(owed[..])[thread := old(owed[thread]) - numChunks]
    ensures h.reserved == old(h.reserved) - numChunks
    ensures numChunks <= |old(h.free)| && h.free == old(h.free)[numChunks..] && Pre(t) == old(h.free)[..numChunks]
    ensures t.chunk == root && IsArray(s.chunks, t, numElements, elSize, treeHeight)
    ensures Untouched(old(s.chunks), s.chunks, Pre(t))
    ensures forall c | c in Pre(t) ::
              && c < h.n && h.chunkType[c].ArrayChunk? && !h.header[c].inUse && !h.header[c].mark
              && (h.header[c].grey <==> rtSync) && (h.header[c].red <==> !rtSync)
  {
    NoElements(numElements, PAYLOAD_SIZE / elSize);
    hide Reservation.Covered, C.Allocated, IsArray, ChunkCount, TreeHeight, C.Heap.Valid, NumLeaves;
    ghost var m0, f := h.Now(), h.free;
    var head := C.AllocateArrayReserved(h, owed, thread, numChunks, rtSync);
    ClearPayloads(h, s, head, m0, f, numChunks, K.NewHeader(K.ArrayChunk, rtSync));
    var length := s.GetLengthOfList(head, f[..numChunks]);
    assert length == numChunks;
    root, t := ArrayAllocate(s, numElements, elSize, treeHeight, head, f[..numChunks]);
  }

  /** The height of the tree and its number of chunks (lines 205-251). */
  method TreeSize(numElements: nat, elSize: nat) returns (treeHeight: nat, numChunks: nat)
    requires 0 < elSize <= PAYLOAD_SIZE
    ensures treeHeight == HeightFor(numElements, elSize) && numChunks == ChunksFor(numElements, elSize)
  {
    hide ChunkCount, TreeHeight;
    var numElsPerChunk := PAYLOAD_SIZE / elSize;
    var numLeaves := numElements / numElsPerChunk + if numElements % numElsPerChunk != 0 then 1 else 0;
    treeHeight := TreeHeight(numLeaves);
    numChunks := CountChunks(numLeaves, treeHeight);
  }

  /** GC_arrayAllocate by a thread whose reservations are covered. It fails exactly when the array is larger
    than the heap, waits for a collection exactly when the chunks are not free beside those reserved, and
    otherwise builds the array from the oldest free chunks, all of which it uses. */
  method GCArrayAllocate(h: C.Heap, owed: array<nat>, thread: nat, s: Store, numElements: nat, elSize: nat,
                         rtSync: bool)
    returns (r: Outcome, ghost t: Tree)
    requires h.Valid() && thread < owed.Length && Reservation.Covered(C.Reservations(h, owed))
    requires |s.chunks| == h.n && 0 < elSize <= PAYLOAD_SIZE
    modifies h, h.chunkType, h.header, h.link, h.prev, owed, s
    ensures h.Valid() && Reservation.Covered(C.Reservations(h, owed)) && |s.chunks| == h.n
    ensures owed[..] == old(owed[..]) && h.reserved == old(h.reserved)
    ensures r.Insufficient? <==> ChunksFor(numElements, elSize) > h.n
    ensures r.MustCollect? <==> ChunksFor(numElements, elSize) <= h.n &&
                                old(h.flChunks) < old(h.reserved) + ChunksFor(numElements, elSize)
    ensures !r.Allocated? ==> h.free == old(h.free) && s.chunks == old(s.chunks) && h.Now() == old(h.Now())
    ensures r.Allocated? ==>
              var k := ChunksFor(numElements, elSize);
              && k <= |old(h.free)| && h.free == old(h.free)[k..] && Pre(t) == old(h.free)[..k] && t.chunk == r.root
              && IsArray(s.chunks, t, numElements, elSize, HeightFor(numElements, elSize))
              && Untouched(old(s.chunks), s.chunks, Pre(t))
    ensures r.Allocated? ==> forall c | c in Pre(t) ::
              && c < h.n && h.chunkType[c].ArrayChunk? && !h.header[c].inUse && !h.header[c].mark
              && (h.header[c].grey <==> rtSync) && (h.header[c].red <==> !rtSync)
  {
    assert h.link.Length == h.n;
    hide Reservation.Covered, C.Allocated, IsArray, ChunksFor, HeightFor, C.Heap.Valid;
    ghost var o := owed[..];
    t := Leaf(0);
    var treeHeight, numChunks := TreeSize(numElements, elSize);
    if numChunks > h.n { return Insufficient, t; }
    var ok := C.ReserveAllocation(h, owed, thread, numChunks);
    if !ok { return MustCollect, t; }
    var root;
    root, t := BuildReserved(h, owed, thread, s, numElements, elSize, rtSync, treeHeight, numChunks);
    r := Allocated(root);
  }
}
