/** The chunked heap: the free list, the list the sweep builds, and chunk allocation
  (runtime/gc/umheap.c). Chunks are named by their position between the start and the limit of the heap. */
module ChunkHeap {
  import opened Chunk
  import Reservation
  import opened Arithmetic

  const NULL: int := -1

  /** `list` is what a reader finds who follows `next` from `head`. */
  ghost predicate IsList(next: seq<int>, head: int, tail: int, count: nat, list: seq<nat>) {
    && count == |list|
    && (forall i | 0 <= i < |list| :: list[i] < |next|)
    && (forall i, j | 0 <= i < j < |list| :: list[i] != list[j])
    && (list != [] ==> head == list[0] && tail == list[|list| - 1] && next[tail] == NULL)
    && (forall i | 0 <= i < |list| - 1 :: next[list[i]] == list[i + 1])
  }

  /** Appending a chunk, as insertChunkToFL and insertChunktoSubList do. */
  function Linked(next: seq<int>, tail: int, count: nat, p: nat): (r: seq<int>)
    requires p < |next| && (count > 0 ==> 0 <= tail < |next|)
    ensures |r| == |next|
  {
    if count == 0 then next[p := NULL] else next[tail := p][p := NULL]
  }

  lemma ListAppend(next: seq<int>, head: int, tail: int, count: nat, list: seq<nat>, p: nat)
    requires IsList(next, head, tail, count, list) && p !in list && p < |next|
    ensures IsList(Linked(next, tail, count, p), if count == 0 then p else head, p, count + 1, list + [p])
  {}

  /** Linking into one list leaves the other alone. */
  lemma OtherList(next: seq<int>, head: int, tail: int, count: nat, list: seq<nat>, tail': int, count': nat, p: nat)
    requires IsList(next, head, tail, count, list) && p !in list && p < |next|
    requires count' > 0 ==> 0 <= tail' < |next| && tail' !in list
    ensures IsList(Linked(next, tail', count', p), head, tail, count, list)
  {}

  lemma ListPop(next: seq<int>, head: int, tail: int, count: nat, list: seq<nat>)
    requires IsList(next, head, tail, count, list) && count > 0
    ensures 0 <= head < |next| && (next[head] == NULL <==> |list| == 1)
    ensures IsList(next, next[head], if next[head] == NULL then NULL else tail, count - 1, list[1..])
    ensures head !in list[1..]
  {
    if |list| > 1 {
      assert next[list[0]] == list[1] && list[1] in list;
    }
  }

  lemma EmptyList(next: seq<int>, head: int, tail: int)
    ensures IsList(next, head, tail, 0, [])
  {}

  lemma ListConcat(next: seq<int>, h1: int, t1: int, c1: nat, l1: seq<nat>, h2: int, t2: int, c2: nat, l2: seq<nat>)
    requires IsList(next, h1, t1, c1, l1) && IsList(next, h2, t2, c2, l2) && c1 > 0 && c2 > 0
    requires forall c | c in l1 :: c !in l2
    ensures 0 <= t1 < |next| && IsList(next[t1 := h2], h1, t2, c1 + c2, l1 + l2)
  {
    var next' := next[t1 := h2];
    forall i | 0 <= i < |l1 + l2| - 1 ensures next'[(l1 + l2)[i]] == (l1 + l2)[i + 1] {
      if i < |l1| - 1 {
        assert l1[i] != l1[|l1| - 1];
      } else if i >= |l1| {
        assert l2[i - |l1|] in l2 && t1 in l1;
      }
    }
    forall i, j | 0 <= i < j < |l1 + l2| ensures (l1 + l2)[i] != (l1 + l2)[j] {
      if i < |l1| <= j { assert l1[i] in l1 && l2[j - |l1|] in l2; }
    }
    assert t2 in l2 && t1 in l1;
  }

  /** The chunks on the two lists are exactly the empty ones. */
  ghost predicate Parted(types: seq<ChunkType>, free: seq<nat>, sub: seq<nat>) {
    && (forall c | 0 <= c < |types| :: types[c].Empty? <==> c in free || c in sub)
    && (forall c | c in free :: c < |types| && c !in sub)
    && (forall c | c in sub :: c < |types|)
  }

  lemma PartedConcat(types: seq<ChunkType>, free: seq<nat>, sub: seq<nat>)
    requires Parted(types, free, sub)
    ensures Parted(types, free + sub, [])
  {}

  lemma PartedPop(types: seq<ChunkType>, free: seq<nat>, sub: seq<nat>, t: ChunkType)
    requires Parted(types, free, sub) && free != [] && free[0] !in free[1..] && !t.Empty?
    ensures free[0] < |types| && Parted(types[free[0] := t], free[1..], sub)
  {
    var rest := free[1..];
    assert free == [free[0]] + rest;
    assert forall c :: c in free <==> c == free[0] || c in rest;
  }

  lemma PartedAppend(types: seq<ChunkType>, free: seq<nat>, sub: seq<nat>, p: nat)
    requires Parted(types, free, sub) && p < |types| && !types[p].Empty?
    ensures p !in free && p !in sub && Parted(types[p := Empty], free + [p], sub)
  {}

  lemma PartedAppendSub(types: seq<ChunkType>, free: seq<nat>, sub: seq<nat>, p: nat)
    requires Parted(types, free, sub) && p < |types| && !types[p].Empty?
    ensures p !in free && p !in sub && Parted(types[p := Empty], free, sub + [p])
  {}

  ghost function InOrder(n: nat): (r: seq<nat>)
    ensures |r| == n && forall i | 0 <= i < n :: r[i] == i
  {
    if n == 0 then [] else InOrder(n - 1) + [n - 1]
  }

  /** The chunks before the last `step` bytes: the last one created ends inside the heap. */
  lemma HowMany(size: nat, step: nat)
    requires 0 < step && 0 < size
    ensures var n := if size > step then (size - 1) / step else 0;
            && n * step < size && forall p: nat :: p < n <==> p * step < size - step
  {
    if size > step {
      forall p: nat ensures p < (size - 1) / step <==> p * step < size - step { BeforeEnd(size, step, p); }
      BeforeEnd(size, step, (size - 1) / step);
    } else {
      forall p: nat ensures p * step >= 0 {}
    }
  }

  lemma BeforeEnd(size: nat, step: nat, p: nat)
    requires 0 < step < size
    ensures p < (size - 1) / step <==> p * step < size - step
    ensures (size - 1) / step * step < size
  {
    var n := (size - 1) / step;
    assert size - 1 == step * n + (size - 1) % step;
    if p < n {
      MulMono(step, p + 1, n);
    } else {
      MulMono(step, n, p);
    }
  }

  lemma {:induction false} DistinctFits(s: seq<nat>, n: nat)
    requires forall i | 0 <= i < |s| :: s[i] < n
    requires forall i, j | 0 <= i < j < |s| :: s[i] != s[j]
    ensures |s| <= n
    decreases n
  {
    assert |s| > 0 ==> s[0] < n;
    if n > 0 {
      if i :| 0 <= i < |s| && s[i] == n - 1 {
        var rest := s[..i] + s[i + 1..];
        forall k | 0 <= k < |rest| ensures rest[k] < n - 1 {
          assert rest[k] == if k < i then s[k] else s[k + 1];
        }
        DistinctFits(rest, n - 1);
      } else {
        DistinctFits(s, n - 1);
      }
    }
  }

  class Heap {
    /** How many chunks the heap has (maxChunksAvailable). */
    const n: nat
    const chunkType: array<ChunkType>
    const header: array<Header>
    /** The free-list link in the memory of a chunk, and the links between the chunks of an object. */
    const next: array<int>
    const link: array<int>
    const prev: array<int>
    var flHead: int
    var flTail: int
    var slHead: int
    var slTail: int
    var flChunks: nat
    var slChunks: nat
    var reserved: nat
    ghost var free: seq<nat>
    ghost var sub: seq<nat>

    /** createUMHeap (umheap.c:329-399): cuts `size` bytes into chunks of `step` bytes and threads them
      onto the free list in address order. */
    constructor (size: nat, step: nat)
      requires 0 < step && 0 < size
      ensures Valid() && free == InOrder(n) && sub == [] && flChunks == n && reserved == 0
      ensures forall p: nat :: p < n <==> p * step < size - step
      ensures n * step < size
      ensures fresh(chunkType) && fresh(header) && fresh(next) && fresh(link) && fresh(prev)
    {
      var count := if size > step then (size - 1) / step else 0;
      n := count;
      chunkType := new ChunkType[count](_ => NormalChunk);
      header := new Header[count](_ => CLEAN);
      next := new int[count](_ => NULL);
      link := new int[count](_ => NULL);
      prev := new int[count](_ => NULL);
      flHead, flTail, slHead, slTail := NULL, NULL, NULL, NULL;
      flChunks, slChunks, reserved := 0, 0, 0;
      free, sub := [], [];
      new;
      HowMany(size, step);
      EmptyHeap();
      ThreadChunks(size, step);
    }

    method ThreadChunks(size: nat, step: nat)
      requires Valid() && free == [] && sub == [] && flChunks == 0 && 0 < step
      requires forall c | 0 <= c < n :: chunkType[c] == NormalChunk
      requires forall p: nat :: p < n <==> p * step < size - step
      modifies `flHead, `flTail, `flChunks, `free, chunkType, next
      ensures Valid() && free == InOrder(n) && flChunks == n
    {
      hide IsList, Parted;
      var pchunk, i := 0, 0;
      while pchunk < size - step
        invariant Valid() && pchunk == i * step && i <= n && free == InOrder(i) && flChunks == i
        invariant forall c | i <= c < n :: chunkType[c] == NormalChunk
        decreases n - i
      {
        assert i < n;
        InsertChunkToFL(i);
        pchunk, i := pchunk + step, i + 1;
      }
      assert !(i < n);
    }

    lemma EmptyHeap()
      requires free == [] && sub == [] && flChunks == 0 && slChunks == 0 && Shape()
      requires forall c | 0 <= c < n :: chunkType[c] == NormalChunk
      ensures Valid()
    {}

    ghost predicate Shape()
      reads this
    {
      && chunkType.Length == header.Length == next.Length == link.Length == prev.Length == n
      && next != link && next != prev && link != prev
    }

    ghost predicate Valid()
      reads this, chunkType, next
    {
      && Shape() && Parted(chunkType[..], free, sub)
      && IsList(next[..], flHead, flTail, flChunks, free)
      && IsList(next[..], slHead, slTail, slChunks, sub)
    }

    /** insertChunkToFL (umheap.c:208-252). */
    method InsertChunkToFL(p: nat)
      requires Valid() && p < n && !chunkType[p].Empty?
      modifies `flHead, `flTail, `flChunks, `free, chunkType, next
      ensures Valid() && free == old(free) + [p] && flChunks == old(flChunks) + 1
      ensures chunkType[..] == old(chunkType[..])[p := Empty]
    {
      hide IsList, Parted;
      ghost var ns, ts := next[..], chunkType[..];
      Tails();
      PartedAppend(ts, free, sub, p);
      ListAppend(ns, flHead, flTail, flChunks, free, p);
      OtherList(ns, slHead, slTail, slChunks, sub, flTail, flChunks, p);
      chunkType[p] := Empty;
      assert chunkType[..] == ts[p := Empty];
      if flChunks == 0 {
        flHead, flTail := p, p;
        next[p] := NULL;
      } else {
        next[flTail] := p;
        next[p] := NULL;
        flTail := p;
      }
      assert next[..] == Linked(ns, old(flTail), old(flChunks), p);
      flChunks := flChunks + 1;
      free := free + [p];
    }

    /** insertChunktoSubList (umheap.c:255-274). */
    method InsertChunkToSubList(p: nat)
      requires Valid() && p < n && !chunkType[p].Empty?
      modifies `slHead, `slTail, `slChunks, `sub, chunkType, next
      ensures Valid() && sub == old(sub) + [p]
      ensures chunkType[..] == old(chunkType[..])[p := Empty]
    {
      hide IsList, Parted;
      ghost var ns, ts := next[..], chunkType[..];
      Tails();
      PartedAppendSub(ts, free, sub, p);
      ListAppend(ns, slHead, slTail, slChunks, sub, p);
      OtherList(ns, flHead, flTail, flChunks, free, slTail, slChunks, p);
      chunkType[p] := Empty;
      assert chunkType[..] == ts[p := Empty];
      if slChunks == 0 {
        slHead, slTail := p, p;
        next[p] := NULL;
      } else {
        next[slTail] := p;
        next[p] := NULL;
        slTail := p;
      }
      assert next[..] == Linked(ns, old(slTail), old(slChunks), p);
      slChunks := slChunks + 1;
      sub := sub + [p];
    }

    /** addSweepListToFL (umheap.c:278-310). */
    method AddSweepListToFL()
      requires Valid()
      modifies `flHead, `flTail, `flChunks, `free, `slHead, `slTail, `slChunks, `sub, next
      ensures Valid() && free == old(free) + old(sub) && sub == [] && slChunks == 0
      ensures flChunks == old(flChunks) + old(slChunks)
    {
      hide IsList, Parted;
      Lengths();
      if slChunks == 0 { return; }
      ghost var ns := next[..];
      PartedConcat(chunkType[..], free, sub);
      if flChunks == 0 {
        flHead, flTail := slHead, slTail;
        assert free + sub == sub;
      } else {
        Apart();
        ListConcat(ns, flHead, flTail, flChunks, free, slHead, slTail, slChunks, sub);
        next[flTail] := slHead;
        assert next[..] == ns[flTail := slHead];
        flTail := slTail;
      }
      flChunks := flChunks + slChunks;
      slHead, slTail, slChunks := NULL, NULL, 0;
      free, sub := free + sub, [];
      EmptyList(next[..], NULL, NULL);
    }

    lemma Lengths()
      requires Valid()
      ensures flChunks == |free| && slChunks == |sub|
    {}

    lemma Tails()
      requires Valid()
      ensures flChunks == |free| && slChunks == |sub|
      ensures flChunks > 0 ==> 0 <= flTail < n && flTail !in sub
      ensures slChunks > 0 ==> 0 <= slTail < n && slTail !in free
    {}

    /** The free list is no longer than the heap. */
    lemma FreeFits()
      requires Valid()
      ensures |free| <= n
    {
      DistinctFits(free, n);
    }

    lemma Apart()
      requires Valid()
      ensures forall c | c in free :: c !in sub && c < n
    {}

    /** allocNextChunk (umheap.c:33-63) and allocNextArrayChunk (lines 139-175): the chunk at the head
      of the free list, grey when the thread has synchronised and red otherwise. */
    method AllocNext(t: ChunkType, rtSync: bool) returns (c: nat)
      requires Valid() && flChunks > 0 && reserved > 0 && !t.Empty?
      modifies `flHead, `flTail, `flChunks, `free, `reserved, chunkType, header, link, prev
      ensures Valid() && old(free) == [c] + free && flChunks == old(flChunks) - 1 && reserved == old(reserved) - 1
      ensures c < n && chunkType[..] == old(chunkType[..])[c := t]
      ensures header[..] == old(header[..])[c := Header(false, false, rtSync, !rtSync)]
      ensures link[..] == old(link[..])[c := NULL] && prev[..] == old(prev[..])[c := NULL]
      ensures sub == old(sub)
    {
      hide IsList, Parted;
      ghost var ns, ts := next[..], chunkType[..];
      Lengths();
      Head();
      ListPop(ns, flHead, flTail, flChunks, free);
      PartedPop(ts, free, sub, t);
      c := flHead;
      var nc := next[c];
      SetUp(c, t);
      if nc == NULL {
        flHead, flTail := NULL, NULL;
      } else {
        flHead := nc;
      }
      header[c] := if rtSync then header[c].(grey := true) else header[c].(red := true);
      flChunks := flChunks - 1;
      reserved := reserved - 1;
      free := free[1..];
      assert next[..] == ns;
    }

    /** The fields of a chunk that is taken off the free list. */
    method SetUp(c: nat, t: ChunkType)
      requires Shape() && c < n
      modifies chunkType, header, link, prev
      ensures chunkType[..] == old(chunkType[..])[c := t] && header[..] == old(header[..])[c := CLEAN]
      ensures link[..] == old(link[..])[c := NULL] && prev[..] == old(prev[..])[c := NULL]
      ensures next[..] == old(next[..])
    {
      chunkType[c] := t;
      link[c], prev[c] := NULL, NULL;
      header[c] := CLEAN;
    }

    lemma Head()
      requires Valid() && flChunks > 0
      ensures free != [] && flHead == free[0] && free[0] < n
    {}

    ghost function Now(): Memory
      reads this, chunkType, header, link, prev
    {
      Memory(chunkType[..], header[..], link[..], prev[..])
    }

    /** One turn of allocateChunks or allocateArrayChunks: the next free chunk goes behind `current`. */
    method AllocAfter(current: int, t: ChunkType, rtSync: bool, ghost m0: Memory, ghost f: seq<nat>, ghost k: nat)
      returns (c: nat)
      requires Valid() && !t.Empty? && flChunks > 0 && reserved > 0
      requires k < |f| && free == f[k..] && Distinct(f, n) && current == (if k == 0 then NULL else f[k - 1])
      requires Allocated(m0, Now(), f, k, t, NewHeader(t, rtSync))
      modifies this, chunkType, header, link, prev
      ensures Valid() && free == f[k + 1..] && flChunks == old(flChunks) - 1 && reserved == old(reserved) - 1
      ensures sub == old(sub) && c == f[k]
      ensures Allocated(m0, Now(), f, k + 1, t, NewHeader(t, rtSync))
    {
      hide IsList, Parted, Allocated, Distinct;
      ghost var m := Now();
      c := AllocNext(t, rtSync);
      if !t.ArrayChunk? {
        header[c] := header[c].(inUse := true);
        prev[c] := current;
      }
      assert header[..] == m.headers[c := NewHeader(t, rtSync)];
      assert prev[..] == m.prevs[c := if t.ArrayChunk? then NULL else current];
      if current != NULL {
        DistinctIn(f, n);
        link[current] := c;
        assert link[..] == m.links[c := NULL][current := c];
      }
      AllocStep(m0, m, Now(), f, k, t, NewHeader(t, rtSync));
    }

    /** allocateChunks (umheap.c:103-136); NULL stands for the error exit. */
    method AllocateChunks(numChunks: nat, t: ChunkType, rtSync: bool) returns (head: int)
      requires Valid() && !t.Empty? && numChunks <= reserved && 0 < reserved <= flChunks
      modifies this, chunkType, header, link, prev
      ensures Valid() && sub == old(sub)
      ensures head == NULL <==> numChunks > n
      ensures head == NULL ==> free == old(free) && reserved == old(reserved) && Now() == old(Now())
      ensures head != NULL ==>
                var k := if numChunks == 0 then 1 else numChunks;
                && k <= |old(free)| && head == old(free)[0]
                && free == old(free)[k..] && flChunks == old(flChunks) - k && reserved == old(reserved) - k
                && Allocated(old(Now()), Now(), old(free), k, t, NewHeader(t, rtSync))
      ensures head != NULL ==> numChunks <= |old(free)| && old(free) != []
      ensures head != NULL ==> forall i | 0 <= i < if numChunks == 0 then 1 else numChunks ::
                var c := old(free)[i];
                && c < n && chunkType[c] == t && !header[c].mark && (header[c].grey <==> rtSync)
                && (header[c].red <==> !rtSync) && (header[c].inUse <==> !t.ArrayChunk?)
    {
      hide IsList, Parted;
      if numChunks > n { return NULL; }
      ghost var f, m0 := free, Now();
      Lengths();
      AllDistinct();
      AllocatedNone(m0, f, t, NewHeader(t, rtSync));
      hide Allocated, Distinct, NewHeader;
      var current := AllocAfter(NULL, t, rtSync, m0, f, 0);
      head := current;
      if numChunks > 1 {
        for i := 0 to numChunks - 1
          invariant Valid() && sub == old(sub) && free == f[i + 1..] && current == f[i]
          invariant flChunks == old(flChunks) - i - 1 && reserved == old(reserved) - i - 1
          invariant Allocated(m0, Now(), f, i + 1, t, NewHeader(t, rtSync))
        {
          current := AllocAfter(current, t, rtSync, m0, f, i + 1);
        }
      }
      ColoursAre(m0, Now(), f, if numChunks == 0 then 1 else numChunks, t, rtSync);
    }

    /** allocateArrayChunks (umheap.c:177-205). */
    method AllocateArrayChunks(numChunks: nat, rtSync: bool) returns (head: int)
      requires Valid() && 0 < numChunks <= reserved <= flChunks
      modifies this, chunkType, header, link, prev
      ensures Valid() && sub == old(sub)
      ensures head == NULL <==> numChunks > n
      ensures head == NULL ==> free == old(free) && reserved == old(reserved) && Now() == old(Now())
      ensures head != NULL ==>
                && numChunks <= |old(free)| && head == old(free)[0]
                && free == old(free)[numChunks..]
                && flChunks == old(flChunks) - numChunks && reserved == old(reserved) - numChunks
                && Allocated(old(Now()), Now(), old(free), numChunks, ArrayChunk, NewHeader(ArrayChunk, rtSync))
      ensures head != NULL ==> forall i | 0 <= i < numChunks ::
                var c := old(free)[i];
                && c < n && chunkType[c] == ArrayChunk && !header[c].mark && (header[c].grey <==> rtSync)
                && (header[c].red <==> !rtSync) && !header[c].inUse
    {
      hide IsList, Parted;
      if numChunks > n { return NULL; }
      ghost var f, m0 := free, Now();
      Lengths();
      AllDistinct();
      AllocatedNone(m0, f, ArrayChunk, NewHeader(ArrayChunk, rtSync));
      hide Allocated, Distinct, NewHeader;
      var current := AllocAfter(NULL, ArrayChunk, rtSync, m0, f, 0);
      head := current;
      for i := 0 to numChunks - 1
        invariant Valid() && sub == old(sub) && free == f[i + 1..] && current == f[i]
        invariant flChunks == old(flChunks) - i - 1 && reserved == old(reserved) - i - 1
        invariant Allocated(m0, Now(), f, i + 1, ArrayChunk, NewHeader(ArrayChunk, rtSync))
      {
        current := AllocAfter(current, ArrayChunk, rtSync, m0, f, i + 1);
      }
      ColoursAre(m0, Now(), f, numChunks, ArrayChunk, rtSync);
    }

    /** One test of the loop of reserveAllocation (um.c:40-50); on failure the caller collects and
      tries again. */
    method TryReserve(numChunks: nat) returns (ok: bool)
      modifies `reserved
      ensures ok <==> flChunks >= old(reserved) + numChunks
      ensures reserved == if ok then old(reserved) + (if numChunks == 0 then 1 else numChunks) else old(reserved)
    {
      ok := flChunks >= reserved + numChunks;
      if ok { reserved := reserved + if numChunks == 0 then 1 else numChunks; }
    }

    lemma AllDistinct()
      requires Valid()
      ensures Distinct(free, n)
    {}
  }

  /** The part of the memory that an allocation writes. */
  datatype Memory = Memory(types: seq<ChunkType>, headers: seq<Header>, links: seq<int>, prevs: seq<int>) {
    ghost predicate Size(n: nat) { |types| == |headers| == |links| == |prevs| == n }
  }

  ghost predicate Distinct(f: seq<nat>, n: nat) {
    && (forall i | 0 <= i < |f| :: f[i] < n)
    && (forall i, j | 0 <= i < j < |f| :: f[i] != f[j])
  }

  lemma DistinctIn(f: seq<nat>, n: nat)
    requires Distinct(f, n)
    ensures forall i | 0 <= i < |f| :: f[i] < n
  {}

  /** The first `k` chunks of `f` are linked into a list, and back unless they are array chunks. */
  ghost predicate LinkedUp(links: seq<int>, f: seq<nat>, k: nat)
    requires k <= |f| && Distinct(f, |links|)
  {
    forall i | 0 <= i < k :: links[f[i]] == if i + 1 < k then f[i + 1] else NULL
  }

  ghost predicate LinkedBack(prevs: seq<int>, f: seq<nat>, k: nat, oneWay: bool)
    requires k <= |f| && Distinct(f, |prevs|)
  {
    forall i | 0 <= i < k :: prevs[f[i]] == if i == 0 || oneWay then NULL else f[i - 1]
  }

  lemma LinkStep(links: seq<int>, f: seq<nat>, k: nat, links': seq<int>)
    requires k < |f| && Distinct(f, |links|) && LinkedUp(links, f, k) && |links'| == |links|
    requires forall c | 0 <= c < |links| ::
               links'[c] == if c == f[k] then NULL else if k > 0 && c == f[k - 1] then f[k] else links[c]
    ensures LinkedUp(links', f, k + 1)
  {}

  lemma BackStep(prevs: seq<int>, f: seq<nat>, k: nat, oneWay: bool, prevs': seq<int>)
    requires k < |f| && Distinct(f, |prevs|) && LinkedBack(prevs, f, k, oneWay) && |prevs'| == |prevs|
    requires forall c | 0 <= c < |prevs| ::
               prevs'[c] == if c != f[k] then prevs[c] else if k == 0 || oneWay then NULL else f[k - 1]
    ensures LinkedBack(prevs', f, k + 1, oneWay)
  {}

  /** The first `k` chunks of `f` have been taken and linked up; the others are as they were in `m0`. */
  ghost predicate Allocated(m0: Memory, m: Memory, f: seq<nat>, k: nat, t: ChunkType, h: Header) {
    && k <= |f| && Distinct(f, |m.types|) && m.Size(|m.types|) && m0.Size(|m.types|)
    && (forall i | 0 <= i < k :: m.types[f[i]] == t && m.headers[f[i]] == h)
    && LinkedUp(m.links, f, k) && LinkedBack(m.prevs, f, k, t.ArrayChunk?)
    && (forall c: nat | c < |m.types| && c !in f[..k] :: Same(m0, m, c))
  }

  ghost predicate Same(m0: Memory, m: Memory, c: nat)
    requires m0.Size(|m.types|) && m.Size(|m.types|) && c < |m.types|
  {
    m.types[c] == m0.types[c] && m.headers[c] == m0.headers[c] && m.links[c] == m0.links[c] && m.prevs[c] == m0.prevs[c]
  }

  lemma AllocatedNone(m0: Memory, f: seq<nat>, t: ChunkType, h: Header)
    requires m0.Size(|m0.types|) && Distinct(f, |m0.types|)
    ensures Allocated(m0, m0, f, 0, t, h)
  {}

  lemma AllocStep(m0: Memory, m: Memory, m': Memory, f: seq<nat>, k: nat, t: ChunkType, h: Header)
    requires k < |f| && Allocated(m0, m, f, k, t, h)
    requires var current := if k == 0 then NULL else f[k - 1];
             && m'.types == m.types[f[k] := t] && m'.headers == m.headers[f[k] := h]
             && m'.prevs == m.prevs[f[k] := if t.ArrayChunk? then NULL else current]
             && m'.links == if k == 0 then m.links[f[k] := NULL] else m.links[f[k] := NULL][current := f[k]]
    ensures Allocated(m0, m', f, k + 1, t, h)
  {
    LinkStep(m.links, f, k, m'.links);
    BackStep(m.prevs, f, k, t.ArrayChunk?, m'.prevs);
    assert f[..k + 1] == f[..k] + [f[k]];
    forall c: nat | c < |m'.types| && c !in f[..k + 1] ensures Same(m0, m', c) {
      assert Same(m0, m, c);
      if k > 0 { assert f[k - 1] in f[..k + 1]; }
    }
  }

  /** No chunk that is handed out is marked; it is grey if its thread has synchronised and red if not. All but chunks
    of arrays are in use. */
  lemma ColoursAre(m0: Memory, m: Memory, f: seq<nat>, k: nat, t: ChunkType, rtSync: bool)
    requires Allocated(m0, m, f, k, t, NewHeader(t, rtSync))
    ensures k <= |f| && forall i | 0 <= i < k ::
              && f[i] < |m.types| == |m.headers| && m.types[f[i]] == t
              && var h := m.headers[f[i]];
                 !h.mark && (h.grey <==> rtSync) && (h.red <==> !rtSync) && (h.inUse <==> !t.ArrayChunk?)
  {}

  // ------------------------------------------------------------------ reserved allocation

  /** The reservation state of a heap, `owed` being what each thread has reserved and not allocated. */
  ghost function Reservations(h: Heap, owed: array<nat>): Reservation.State
    reads h, owed
  {
    Reservation.State(h.flChunks, h.reserved, owed[..])
  }

  /** reserveAllocation (um.c:21-52) up to its next collection: the thread either has its reservation
    or must collect and try again. */
  method ReserveAllocation(h: Heap, owed: array<nat>, t: nat, numChunks: nat) returns (ok: bool)
    requires t < owed.Length && numChunks > 0 && Reservation.Covered(Reservations(h, owed))
    modifies h`reserved, owed
    ensures Reservations(h, owed) == Reservation.Next(old(Reservations(h, owed)), Reservation.Reserve(t, numChunks))
    ensures Reservation.Covered(Reservations(h, owed))
    ensures ok <==> owed[t] == old(owed[t]) + numChunks
    ensures owed[..] == if ok then old(owed[..])[t := old(owed[t]) + numChunks] else old(owed[..])
    ensures h.reserved == if ok then old(h.reserved) + numChunks else old(h.reserved)
    ensures ok <==> h.flChunks >= old(h.reserved) + numChunks
    ensures old(h.Valid()) ==> h.Valid()
  {
    Reservation.StepCovered(Reservations(h, owed), Reservation.Reserve(t, numChunks));
    hide Reservation.Covered;
    ghost var o := owed[..];
    ok := h.TryReserve(numChunks);
    if ok { owed[t] := owed[t] + numChunks; }
    assert owed[..] == if ok then o[t := o[t] + numChunks] else o;
  }

  /** What has been reserved is there, and allocating it keeps the cover. */
  lemma AllocationCovered(h: Heap, owed: array<nat>, t: nat, numChunks: nat)
    requires h.Valid() && t < owed.Length && owed[t] >= Reservation.Needed(numChunks)
    requires Reservation.Covered(Reservations(h, owed))
    ensures var k := Reservation.Needed(numChunks);
            k <= owed[t] <= h.reserved <= h.flChunks <= h.n && h.flChunks == |h.free|
    ensures Reservation.Covered(Reservation.Next(Reservations(h, owed), Reservation.Allocate(t, numChunks)))
  {
    Reservation.StepCovered(Reservations(h, owed), Reservation.Allocate(t, numChunks));
    Reservation.SumHolds(owed[..], t);
    h.Lengths();
    h.FreeFits();
  }

  /** allocateChunks by a thread that has reserved: never an empty list, never the error exit. */
  method AllocateReserved(h: Heap, owed: array<nat>, t: nat, numChunks: nat, kind: ChunkType, rtSync: bool)
    returns (head: int)
    requires h.Valid() && !kind.Empty? && t < owed.Length && owed[t] >= Reservation.Needed(numChunks)
    requires Reservation.Covered(Reservations(h, owed))
    modifies h, h.chunkType, h.header, h.link, h.prev, owed
    ensures h.Valid() && head != NULL && head in old(h.free)
    ensures Reservations(h, owed) == Reservation.Next(old(Reservations(h, owed)), Reservation.Allocate(t, numChunks))
    ensures Reservation.Covered(Reservations(h, owed))
    ensures var k := Reservation.Needed(numChunks);
            && k <= |old(h.free)| && h.free == old(h.free)[k..]
            && Allocated(old(h.Now()), h.Now(), old(h.free), k, kind, NewHeader(kind, rtSync))
    ensures owed[..] == old(owed[..])[t := old(owed[t]) - if numChunks == 0 then 1 else numChunks]
    ensures numChunks <= |old(h.free)| && old(h.free) != []
    ensures forall i | 0 <= i < if numChunks == 0 then 1 else numChunks ::
              var c := old(h.free)[i];
              && c < h.n && h.chunkType[c] == kind && !h.header[c].mark && (h.header[c].grey <==> rtSync)
              && (h.header[c].red <==> !rtSync) && (h.header[c].inUse <==> !kind.ArrayChunk?)
  {
    AllocationCovered(h, owed, t, numChunks);
    hide Allocated, Heap.Valid, Reservation.Covered, Reservation.Sum;
    ghost var o := owed[..];
    head := h.AllocateChunks(numChunks, kind, rtSync);
    owed[t] := owed[t] - if numChunks == 0 then 1 else numChunks;
    assert owed[..] == o[t := o[t] - Reservation.Needed(numChunks)];
  }

  /** allocateArrayChunks by a thread that has reserved: all chunks are there. */
  method AllocateArrayReserved(h: Heap, owed: array<nat>, t: nat, numChunks: nat, rtSync: bool) returns (head: int)
    requires h.Valid() && t < owed.Length && 0 < numChunks <= owed[t]
    requires Reservation.Covered(Reservations(h, owed))
    modifies h, h.chunkType, h.header, h.link, h.prev, owed
    ensures h.Valid()
    ensures Reservations(h, owed) == Reservation.Next(old(Reservations(h, owed)), Reservation.Allocate(t, numChunks))
    ensures Reservation.Covered(Reservations(h, owed))
    ensures numChunks <= |old(h.free)| && head == old(h.free)[0] && h.free == old(h.free)[numChunks..]
    ensures Allocated(old(h.Now()), h.Now(), old(h.free), numChunks, ArrayChunk, NewHeader(ArrayChunk, rtSync))
    ensures owed[..] == old(owed[..])[t := old(owed[t]) - numChunks]
    ensures forall i | 0 <= i < numChunks ::
              var c := old(h.free)[i];
              && c < h.n && h.chunkType[c] == ArrayChunk && !h.header[c].mark && (h.header[c].grey <==> rtSync)
              && (h.header[c].red <==> !rtSync) && !h.header[c].inUse
  {
    AllocationCovered(h, owed, t, numChunks);
    hide Allocated, Heap.Valid, Reservation.Covered, Reservation.Sum;
    ghost var o := owed[..];
    head := h.AllocateArrayChunks(numChunks, rtSync);
    owed[t] := owed[t] - numChunks;
    assert owed[..] == o[t := o[t] - Reservation.Needed(numChunks)];
  }
}
