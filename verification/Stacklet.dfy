/** ML stacks as doubly linked lists of chunks (include/c-chunk.h:330-409,
  runtime/gc/garbage-collection.c:146-237, runtime/gc/umstack.c:106-191). Ratios are taken exactly. */
module Stacklet {
  import opened Wrappers

  const NULL: int := -1

  /** What a chunk holds besides its links: the frame and where it returns to. */
  datatype Content = Content(body: seq<int>, ra: nat, handler: nat, header: nat)

  datatype Chunk = Chunk(content: Content, next: int, prev: int)

  /** `chain` is the list of chunks that starts at its first element. */
  ghost predicate Chain(cs: seq<Chunk>, chain: seq<nat>) {
    && chain != [] && Distinct(cs, chain)
    && forall i | 0 <= i < |chain| :: LinkOk(cs, chain, i)
  }

  ghost predicate Distinct(cs: seq<Chunk>, chain: seq<nat>) {
    && (forall i | 0 <= i < |chain| :: chain[i] < |cs|)
    && (forall i, j | 0 <= i < j < |chain| :: chain[i] != chain[j])
  }

  /** No chunk is in both chains. */
  ghost predicate Apart(a: seq<nat>, b: seq<nat>) {
    forall i, j | 0 <= i < |a| && 0 <= j < |b| :: Differ(a[i], b[j])
  }

  predicate Differ(x: nat, y: nat) { x != y }

  ghost predicate LinkOk(cs: seq<Chunk>, chain: seq<nat>, i: nat)
    requires i < |chain| && chain[i] < |cs|
  {
    && cs[chain[i]].next == (if i + 1 < |chain| then chain[i + 1] else NULL)
    && cs[chain[i]].prev == (if i > 0 then chain[i - 1] else NULL)
  }

  /** The contents of the first `n` chunks of a chain: the frames of the stack, oldest first. */
  ghost function Frames(cs: seq<Chunk>, chain: seq<nat>, n: nat): (r: seq<Content>)
    requires n <= |chain| && forall i | 0 <= i < |chain| :: chain[i] < |cs|
    ensures |r| == n && forall i | 0 <= i < n :: r[i] == cs[chain[i]].content
  {
    seq(n, i requires 0 <= i < n => cs[chain[i]].content)
  }

  /** Links and contents of the chunks in `chain` are the same in both memories. */
  ghost predicate SameOn(cs: seq<Chunk>, cs': seq<Chunk>, chain: seq<nat>) {
    forall i | 0 <= i < |chain| :: chain[i] < |cs| && chain[i] < |cs'| && cs'[chain[i]] == cs[chain[i]]
  }

  lemma ChainSame(cs: seq<Chunk>, cs': seq<Chunk>, chain: seq<nat>)
    requires Chain(cs, chain) && SameOn(cs, cs', chain)
    ensures Chain(cs', chain)
  {
    forall i | 0 <= i < |chain| ensures chain[i] < |cs'| && LinkOk(cs', chain, i) { assert LinkOk(cs, chain, i); }
  }

  /** The contents of a chunk may change without harm to the chain. */
  lemma ChainContent(cs: seq<Chunk>, chain: seq<nat>, c: nat, x: Content)
    requires Chain(cs, chain) && c < |cs|
    ensures Chain(cs[c := cs[c].(content := x)], chain)
  {
    var cs' := cs[c := cs[c].(content := x)];
    forall i | 0 <= i < |chain| ensures LinkOk(cs', chain, i) { assert LinkOk(cs, chain, i); }
  }

  /** Two chains with no chunk in common become one. */
  lemma ChainJoin(cs: seq<Chunk>, a: seq<nat>, b: seq<nat>)
    requires Chain(cs, a) && Chain(cs, b) && Apart(a, b)
    ensures var last, first := a[|a| - 1], b[0];
            Chain(cs[last := cs[last].(next := first)][first := cs[first].(prev := last)], a + b)
  {
    var last, first := a[|a| - 1], b[0];
    var cs' := cs[last := cs[last].(next := first)][first := cs[first].(prev := last)];
    var c := a + b;
    forall i | 0 <= i < |c| ensures c[i] < |cs'| && LinkOk(cs', c, i) {
      if i < |a| {
        assert c[i] == a[i] && LinkOk(cs, a, i) && Differ(a[i], first);
        assert i + 1 < |a| ==> a[i] != last;
      } else {
        assert c[i] == b[i - |a|] && LinkOk(cs, b, i - |a|) && Differ(last, b[i - |a|]);
        assert i > |a| ==> b[i - |a|] != first;
      }
    }
    forall i, j | 0 <= i < j < |c| ensures c[i] != c[j] {
      if i < |a| <= j { assert Differ(a[i], b[j - |a|]); }
    }
  }

  /** Cutting a chain leaves two. */
  lemma ChainCut(cs: seq<Chunk>, c: seq<nat>, k: nat)
    requires Chain(cs, c) && 0 < k < |c|
    ensures Chain(cs[c[k] := cs[c[k]].(prev := NULL)][c[k - 1] := cs[c[k - 1]].(next := NULL)], c[..k])
  {
    var cs' := cs[c[k] := cs[c[k]].(prev := NULL)][c[k - 1] := cs[c[k - 1]].(next := NULL)];
    forall i | 0 <= i < k ensures LinkOk(cs', c[..k], i) { assert LinkOk(cs, c, i); }
  }

  /** Chunks `from` up to `from + n` linked to each other, as allocateChunks returns them. */
  function NewChunks(from: nat, n: nat): (r: seq<Chunk>)
    ensures |r| == n
  {
    seq(n, i requires 0 <= i < n =>
      Chunk(Content([], 0, 0, 0), if i + 1 < n then from + i + 1 else NULL, if i > 0 then from + i - 1 else NULL))
  }

  ghost function Range(from: nat, n: nat): (r: seq<nat>)
    ensures |r| == n && forall i | 0 <= i < n :: r[i] == from + i
  {
    seq(n, i requires 0 <= i < n => from + i)
  }

  lemma NewChain(cs: seq<Chunk>, n: nat)
    requires n > 0
    ensures Chain(cs + NewChunks(|cs|, n), Range(|cs|, n))
  {}

  class Memory {
    var chunks: seq<Chunk>

    constructor ()
      ensures chunks == []
    {
      chunks := [];
    }
  }

  /** The ratios that decide about growing and shrinking (init.c:356-359). */
  datatype Ratios = Ratios(grow: real, growThreshold: real, shrink: real, shrinkThreshold: real)

  const DEFAULTS := Ratios(1.25, 0.90, 0.10, 0.50)

  class Thread {
    const m: Memory
    var firstFrame: int
    var currentFrame: int
    var exnStack: int
    var stackDepth: nat
    var stackSizeInChunks: nat
    ghost var chain: seq<nat>
    /** The number of the current frame's chunk. */
    ghost var index: nat

    ghost predicate Linked()
      reads this, m
    {
      && Chain(m.chunks, chain) && |chain| == stackSizeInChunks && firstFrame == chain[0]
      && index < |chain| && currentFrame == chain[index]
    }

    /** The current frame has a successor, and stackDepth is at least its number. */
    ghost predicate Valid()
      reads this, m
    {
      Linked() && index + 1 < |chain| && index <= stackDepth
    }

    /** The current frame is the chunk whose number is stackDepth: so it stays until an exception drops
      frames. */
    ghost predicate Exact()
      reads this
    {
      index == stackDepth
    }

    /** The frames of the stack, oldest first, up to the current one. */
    ghost function Live(): seq<Content>
      requires Linked()
      reads this, m
    {
      Frames(m.chunks, chain, index + 1)
    }

    /** ... and the contents of the next chunk, where arguments are passed. */
    ghost function LiveAndNext(): seq<Content>
      requires Valid()
      reads this, m
    {
      Frames(m.chunks, chain, index + 2)
    }

    constructor (mem: Memory, size: nat)
      requires size >= 2
      modifies mem
      ensures m == mem && Valid() && Exact() && index == 0 && stackSizeInChunks == size && exnStack == NULL
      ensures mem.chunks == old(mem.chunks) + NewChunks(|old(mem.chunks)|, size)
    {
      m := mem;
      firstFrame, currentFrame, exnStack := |mem.chunks|, |mem.chunks|, NULL;
      stackDepth, stackSizeInChunks := 0, size;
      chain, index := Range(|mem.chunks|, size), 0;
      new;
      NewChain(mem.chunks, size);
      mem.chunks := mem.chunks + NewChunks(|mem.chunks|, size);
    }

    /** The end of the chain (lines 208-209). */
    method LastChunk() returns (c: nat)
      requires Linked()
      ensures c == chain[|chain| - 1]
    {
      c := firstFrame;
      ghost var i: nat := 0;
      assert LinkOk(m.chunks, chain, 0);
      while m.chunks[c].next != NULL
        invariant i < |chain| && c == chain[i]
        decreases |chain| - i
      {
        assert LinkOk(m.chunks, chain, i);
        c := m.chunks[c].next;
        i := i + 1;
      }
      assert LinkOk(m.chunks, chain, i);
    }

    /** Lines 202-212: new chunks at the end of the chain. */
    method Grow(ratio: real)
      requires Valid() && ratio >= 0.0
      modifies this, m
      ensures Valid() && index == old(index) && stackDepth == old(stackDepth)
      ensures firstFrame == old(firstFrame) && currentFrame == old(currentFrame) && exnStack == old(exnStack)
      ensures stackSizeInChunks == old(stackSizeInChunks) + NeedChunks(old(stackSizeInChunks), ratio)
      ensures old(chain) <= chain && LiveAndNext() == old(LiveAndNext())
    {
      hide LinkOk, Distinct, NewChunks, Range, NeedChunks;
      var needChunks := NeedChunks(stackSizeInChunks, ratio);
      var newGrowth := |m.chunks|;
      ghost var cs := m.chunks;
      Grown(cs, chain, needChunks);
      m.chunks := m.chunks + NewChunks(newGrowth, needChunks);
      var c := LastChunk();
      m.chunks := m.chunks[c := m.chunks[c].(next := newGrowth)];
      m.chunks := m.chunks[newGrowth := m.chunks[newGrowth].(prev := c)];
      stackSizeInChunks := stackSizeInChunks + needChunks;
      chain := chain + Range(newGrowth, needChunks);
      SameFrames(cs, m.chunks, old(chain), chain, index + 2);
    }

    /** The loop of lines 223-227: the last chunk to keep, and how many are kept. */
    method LastKept(keep: real) returns (c: nat, i: nat)
      requires Valid() && 0.0 <= keep && keep <= stackSizeInChunks as real
      ensures 0 < i <= |chain| && c == chain[i - 1] && IsCeiling(keep, i)
    {
      hide Chain;
      Ends(m.chunks, chain, 0);
      c, i := firstFrame, 1;
      while (i as real) < keep
        invariant 1 <= i <= |chain| && (i == 1 || (i as real) < keep + 1.0) && c == chain[i - 1] && c < |m.chunks|
        decreases |chain| - i
      {
        Ends(m.chunks, chain, i - 1);
        Ends(m.chunks, chain, i);
        c := m.chunks[c].next;
        i := i + 1;
      }
    }

    /** Lines 223-231: the chain is cut after the share of it that is kept. Line 229 follows a NULL link, and
      `ok` is false, when the share is more than all chunks but one. The frames in use survive exactly when
      the share takes in the chunk after the current one. */
    method Shrink(shrink: real) returns (ok: bool)
      requires Valid() && 0.0 <= shrink <= 1.0
      modifies this, m
      ensures firstFrame == old(firstFrame) && currentFrame == old(currentFrame) && exnStack == old(exnStack)
      ensures index == old(index) && stackDepth == old(stackDepth)
      ensures ok <==> Share(old(stackSizeInChunks), shrink) <= old(stackSizeInChunks) as real - 1.0
      ensures ok ==> && Chain(m.chunks, chain) && |chain| == stackSizeInChunks < |old(chain)|
                     && chain == old(chain)[..stackSizeInChunks]
                     && IsCeiling(Share(old(stackSizeInChunks), shrink), stackSizeInChunks)
      ensures ok && Valid() && LiveAndNext() == old(LiveAndNext()) <==> Keeps(index, old(stackSizeInChunks), shrink)
    {
      hide Chain, Frames;
      ghost var cs, ch := m.chunks, chain;
      var keep := Share(stackSizeInChunks, shrink);
      var c, i := LastKept(keep);
      Ends(cs, ch, i - 1);
      if m.chunks[c].next == NULL { return false; }
      CutFrames(cs, ch, i, if index + 2 <= i then index + 2 else 0);
      var d := m.chunks[c].next;
      m.chunks := m.chunks[d := m.chunks[d].(prev := NULL)];
      m.chunks := m.chunks[c := m.chunks[c].(next := NULL)];
      stackSizeInChunks := i;
      chain := chain[..i];
      ok := true;
    }

    /** maybe_growstack (lines 169-237). The frames in use survive exactly when there is nothing to shrink or
      the share that a shrink keeps takes in the chunk after the current one; `ok` is false when a NULL link
      would be followed. */
    method MaybeGrowStack(forceGrow: bool, r: Ratios) returns (ok: bool)
      requires Valid() && r.grow >= 0.0 && (!forceGrow ==> 0.0 <= r.shrink <= 1.0)
      modifies this, m
      ensures index == old(index) && stackDepth == old(stackDepth)
      ensures firstFrame == old(firstFrame) && currentFrame == old(currentFrame) && exnStack == old(exnStack)
      ensures && ok && Valid() && LiveAndNext() == old(LiveAndNext()) && chain[..index + 2] == old(chain)[..index + 2]
              <==> (Shrinks(forceGrow, r, stackDepth, old(stackSizeInChunks)) ==>
                      Keeps(index, old(stackSizeInChunks), r.shrink))
      ensures forceGrow ==> |chain| >= |old(chain)|
      // growth is off and asked for, or the stack is small and nothing is asked
      ensures (if forceGrow then r.growThreshold >= 1.0 else old(stackSizeInChunks) < 20) ==>
                ok && chain == old(chain) && stackSizeInChunks == old(stackSizeInChunks) && m.chunks == old(m.chunks)
      // asked to grow, or used beyond the threshold
      ensures (if forceGrow then r.growThreshold < 1.0
               else old(stackSizeInChunks) >= 20 &&
                    old(stackDepth as real / stackSizeInChunks as real) > r.growThreshold) ==>
                && ok && old(chain) <= chain && |chain| == stackSizeInChunks
                && var more := (old(stackSizeInChunks) as real * r.grow).Floor;
                   stackSizeInChunks == old(stackSizeInChunks) + if more > 10 then more else 10
      // little used: cut to the share that is kept, rounded up, unless that leaves nothing to cut
      ensures !forceGrow && old(stackSizeInChunks) >= 20 &&
              old(stackDepth as real / stackSizeInChunks as real) <= r.growThreshold &&
              old(stackDepth as real / stackSizeInChunks as real) < r.shrinkThreshold ==>
                var keep := old(stackSizeInChunks) as real * (1.0 - r.shrink);
                && (ok <==> keep <= old(stackSizeInChunks) as real - 1.0)
                && (ok ==> && 0 < stackSizeInChunks < |old(chain)| && chain == old(chain)[..stackSizeInChunks]
                           && keep <= stackSizeInChunks as real
                           && (stackSizeInChunks == 1 || stackSizeInChunks as real < keep + 1.0))
      // neither
      ensures !forceGrow && old(stackSizeInChunks) >= 20 &&
              old(stackDepth as real / stackSizeInChunks as real) <= r.growThreshold &&
              old(stackDepth as real / stackSizeInChunks as real) >= r.shrinkThreshold ==>
                ok && chain == old(chain) && stackSizeInChunks == old(stackSizeInChunks) && m.chunks == old(m.chunks)
    {
      hide Chain, Frames, Keeps, Live, LiveAndNext;
      if r.growThreshold >= 1.0 && forceGrow { return true; }
      if !forceGrow && stackSizeInChunks < 20 { return true; }
      var utilization := stackDepth as real / stackSizeInChunks as real;
      ok := true;
      if forceGrow || utilization > r.growThreshold {
        Grow(r.grow);
      } else if utilization < r.shrinkThreshold {
        assert Share(stackSizeInChunks, r.shrink) == stackSizeInChunks as real * (1.0 - r.shrink);
        ok := Shrink(r.shrink);
      }
    }

    /** The program fills the next frame before it pushes it, and writes to the current one. */
    method WriteFrame(next: bool, x: Content)
      requires Valid()
      modifies m
      ensures Valid() && m.chunks[chain[if next then index + 1 else index]].content == x
      ensures Live() == if next then old(Live()) else old(Live())[index := x]
    {
      Ends(m.chunks, chain, index);
      Ends(m.chunks, chain, index + 1);
      var c := if next then m.chunks[currentFrame].next else currentFrame;
      ChainContent(m.chunks, chain, c, x);
      m.chunks := m.chunks[c := m.chunks[c].(content := x)];
    }

    /** STACKLET_Push (c-chunk.h:330-371). A negative argument pops. */
    method Push(bytes: int, r: Ratios)
      requires Valid() && r.growThreshold < 1.0 && r.grow >= 0.0 && (bytes < 0 ==> index > 0)
      modifies this, m
      ensures Valid() && exnStack == old(exnStack) && firstFrame == old(firstFrame) && (Exact() <==> old(Exact()))
      ensures |chain| >= |old(chain)| && chain[..old(index) + 1] == old(chain)[..old(index) + 1]
      ensures bytes > 0 ==> && index == old(index) + 1 && stackDepth == old(stackDepth) + 1
                            && Live() == old(Live())[old(index) := old(Live())[old(index)].(ra := bytes)]
                                         + [old(m.chunks[chain[index + 1]].content)]
      ensures bytes < 0 ==> && index == old(index) - 1 && stackDepth == old(stackDepth) - 1
                            && Live() == old(Live())[..old(index)]
      ensures bytes == 0 ==> index == old(index) && stackDepth == old(stackDepth) && Live() == old(Live())
    {
      Ends(m.chunks, chain, index);
      if bytes < 0 {
        Ends(m.chunks, chain, index - 1);
        stackDepth := stackDepth - 1;
        if m.chunks[currentFrame].prev != NULL {
          currentFrame := m.chunks[currentFrame].prev;
          index := index - 1;
        }
      } else if bytes > 0 {
        PushFrame(bytes, r);
      }
    }

    method PushFrame(bytes: nat, r: Ratios)
      requires Valid() && r.growThreshold < 1.0 && r.grow >= 0.0
      modifies this, m
      ensures Valid() && exnStack == old(exnStack) && firstFrame == old(firstFrame)
      ensures |chain| >= |old(chain)| && chain[..old(index) + 1] == old(chain)[..old(index) + 1]
      ensures index == old(index) + 1 && stackDepth == old(stackDepth) + 1
      ensures Live() == old(Live())[old(index) := old(Live())[old(index)].(ra := bytes)]
                        + [old(m.chunks[chain[index + 1]].content)]
    {
      hide Chain, Frames, LinkOk, NeedChunks;
      SetReturn(bytes);
      Ends(m.chunks, chain, index);
      Ends(m.chunks, chain, index + 1);
      if m.chunks[m.chunks[currentFrame].next].next == NULL {
        var ok := MaybeGrowStack(true, r);
      }
      stackDepth := stackDepth + 1;
      Advance();
    }

    /** Where the current frame will go on. */
    method SetReturn(bytes: nat)
      requires Valid()
      modifies m
      ensures Valid()
      ensures LiveAndNext() == old(Live())[index := old(Live())[index].(ra := bytes)]
                               + [old(m.chunks[chain[index + 1]].content)]
    {
      hide Chain, Frames, LinkOk;
      var cf := currentFrame;
      ghost var cs := m.chunks;
      Ends(cs, chain, index);
      Ends(cs, chain, index + 1);
      ChainContent(cs, chain, cf, cs[cf].content.(ra := bytes));
      m.chunks := m.chunks[cf := m.chunks[cf].(content := m.chunks[cf].content.(ra := bytes))];
      FramesWith(cs, m.chunks, chain, index, cs[cf].content.(ra := bytes));
    }

    /** The next frame becomes the current one; there must be another after it. */
    method Advance()
      requires Valid() && index + 2 < |chain| && index < stackDepth
      modifies `currentFrame, `index
      ensures Valid() && index == old(index) + 1 && Live() == old(LiveAndNext())
    {
      hide Chain, Frames;
      Ends(m.chunks, chain, index);
      Ends(m.chunks, chain, index + 1);
      currentFrame := m.chunks[currentFrame].next;
      index := index + 1;
    }

    /** STACKLET_Return (c-chunk.h:373-388): where the frame before the current one goes on. */
    method Return() returns (ra: Option<nat>)
      requires Valid()
      ensures ra == if index > 0 && Live()[index - 1].ra != 0 then Some(Live()[index - 1].ra) else None
    {
      Ends(m.chunks, chain, index);
      var cf := currentFrame;
      if m.chunks[cf].prev == NULL { return None; }
      if m.chunks[m.chunks[cf].prev].content.ra == 0 { return None; }
      return Some(m.chunks[m.chunks[cf].prev].content.ra);
    }

    /** STACKLET_Raise (c-chunk.h:390-409) with the handler in the live frame number `e`. The frames
      above the handler's callee are dropped; stackDepth is left alone. */
    method Raise(ghost e: nat) returns (handler: Option<nat>)
      requires Valid() && e < index && exnStack == chain[e]
      modifies `currentFrame, `index
      ensures Valid() && stackDepth == old(stackDepth) && chain == old(chain)
      ensures handler == if e == 0 || old(Live())[e].handler == 0 then None else Some(old(Live())[e].handler)
      ensures handler.None? ==> index == old(index) && currentFrame == old(currentFrame)
      ensures handler.Some? ==> (old(Exact()) ==> (Exact() <==> e + 1 == old(index)))
      ensures handler.Some? ==> index == e + 1 && Live() == old(Live())[..e + 2]
    {
      Ends(m.chunks, chain, e);
      var cf := exnStack;
      if m.chunks[cf].prev == NULL { return None; }
      if m.chunks[cf].content.handler == 0 { return None; }
      handler := Some(m.chunks[cf].content.handler);
      currentFrame := m.chunks[cf].next;
      index := e + 1;
    }

    /** A call and the matching return: the frames below are as they were, the calling frame has its
      return address, and the depth is the same. */
    method CallAndReturn(bytes: nat, argument: Content, r: Ratios) returns (ra: Option<nat>)
      requires Valid() && bytes > 0 && r.growThreshold < 1.0 && r.grow >= 0.0
      modifies this, m
      ensures Valid() && index == old(index) && stackDepth == old(stackDepth)
      ensures ra == Some(bytes)
      ensures Live() == old(Live())[index := old(Live())[index].(ra := bytes)]
    {
      WriteFrame(true, argument);
      Push(bytes, r);
      ra := Return();
      var pop: int := bytes;
      Push(-pop, r);
    }
  }

  // ------------------------------------------------------------------ copying a stack

  /** The first `k` chunks of chain `t` hold what those of chain `f` hold; nothing else has changed. */
  ghost predicate Copied(cs0: seq<Chunk>, cs: seq<Chunk>, f: seq<nat>, t: seq<nat>, k: nat) {
    && |cs| == |cs0| && k <= |f| && k <= |t|
    && (forall i | 0 <= i < |f| :: f[i] < |cs0|) && (forall i | 0 <= i < |t| :: t[i] < |cs0|)
    && (forall c | 0 <= c < |cs| :: cs[c].next == cs0[c].next && cs[c].prev == cs0[c].prev)
    && (forall i | 0 <= i < k :: cs[t[i]].content == cs0[f[i]].content)
    && (forall c: nat | c < |cs| && c !in t[..k] :: cs[c] == cs0[c])
  }

  lemma CopyNext(cs0: seq<Chunk>, cs: seq<Chunk>, f: seq<nat>, t: seq<nat>, k: nat)
    requires Copied(cs0, cs, f, t, k) && k < |f| && k < |t| && Chain(cs0, t) && Apart(f, t)
    ensures Copied(cs0, cs[t[k] := cs[t[k]].(content := cs[f[k]].content)], f, t, k + 1)
  {}

  lemma CopiedChain(cs0: seq<Chunk>, cs: seq<Chunk>, f: seq<nat>, t: seq<nat>, k: nat, chain: seq<nat>)
    requires Copied(cs0, cs, f, t, k) && Chain(cs0, chain)
    ensures Chain(cs, chain)
  {
    forall i | 0 <= i < |chain| ensures LinkOk(cs, chain, i) { assert LinkOk(cs0, chain, i); }
  }

  lemma CopiedFrames(cs0: seq<Chunk>, cs: seq<Chunk>, f: seq<nat>, t: seq<nat>, k: nat)
    requires Copied(cs0, cs, f, t, k) && Apart(f, t)
    ensures Frames(cs, t, k) == Frames(cs0, f, k)
    ensures forall i | 0 <= i < |f| :: cs[f[i]] == cs0[f[i]]
  {}

  /** um_copyStack (umstack.c:117-191). */
  method UmCopyStack(from: Thread, to: Thread)
    requires from != to && from.m == to.m && from.Valid() && to.Linked()
    requires Apart(from.chain, to.chain) && |to.chain| >= from.index + 2
    modifies to, to.m
    ensures from.Valid() && from.LiveAndNext() == old(from.LiveAndNext())
    ensures to.Valid() && to.chain == old(to.chain) && to.index == from.index && to.stackDepth == from.stackDepth
    ensures to.LiveAndNext() == from.LiveAndNext() && (to.Exact() <==> from.Exact())
    ensures forall e | 0 <= e <= from.index && from.exnStack == from.chain[e] :: to.exnStack == to.chain[e]
    ensures (forall e | 0 <= e <= from.index :: from.exnStack != from.chain[e]) ==> to.exnStack == NULL
  {
    hide Chain, Copied, Frames, Apart;
    ghost var cs0, f0, t0, k := from.m.chunks, from.chain, to.chain, from.index;
    to.currentFrame, to.exnStack := NULL, NULL;
    CopyLoop(from, to, to.chain);
    to.stackDepth := from.stackDepth;
    to.index := from.index;
    CopiedChain(cs0, from.m.chunks, f0, t0, k + 2, f0);
    CopiedChain(cs0, from.m.chunks, f0, t0, k + 2, t0);
    CopiedFrames(cs0, from.m.chunks, f0, t0, k + 2);
  }

  /** The loop of um_copyStack: it ends with the chunk after the current one. */
  method CopyLoop(from: Thread, to: Thread, ghost t0: seq<nat>)
    requires from != to && from.m == to.m && from.Valid()
    requires Chain(from.m.chunks, t0) && to.firstFrame == t0[0] && Apart(from.chain, t0) && |t0| >= from.index + 2
    requires to.currentFrame == NULL && to.exnStack == NULL
    modifies to`currentFrame, to`exnStack, to.m
    ensures Copied(old(from.m.chunks), from.m.chunks, from.chain, t0, from.index + 2)
    ensures to.currentFrame == t0[from.index]
    ensures forall e | 0 <= e <= from.index && from.exnStack == from.chain[e] :: to.exnStack == t0[e]
    ensures (forall e | 0 <= e <= from.index :: from.exnStack != from.chain[e]) ==> to.exnStack == NULL
  {
    hide Chain, Copied, Frames, Apart;
    var m := from.m;
    ghost var cs0, f0, index := m.chunks, from.chain, from.index;
    var f, t := from.firstFrame, to.firstFrame;
    ghost var k: nat := 0;
    CopyBegins(cs0, f0, t0);
    while f != NULL
      invariant k <= index && f == f0[k] && t == t0[k] && Copied(cs0, m.chunks, f0, t0, k)
      invariant forall e | 0 <= e < k && from.exnStack == f0[e] :: to.exnStack == t0[e]
      invariant (forall e | 0 <= e < k :: from.exnStack != f0[e]) ==> to.exnStack == NULL
      decreases index - k
    {
      CopyStep(cs0, m.chunks, f0, t0, k, index);
      m.chunks := m.chunks[t := m.chunks[t].(content := m.chunks[f].content)];
      ExnDistinct(cs0, f0, k);
      if from.exnStack == f { to.exnStack := t; }
      if from.currentFrame == f {
        to.currentFrame := t;
        f, t := m.chunks[f].next, m.chunks[t].next;
        CopyNext(cs0, m.chunks, f0, t0, k + 1);
        m.chunks := m.chunks[t := m.chunks[t].(content := m.chunks[f].content)];
        return;
      }
      f, t := m.chunks[f].next, m.chunks[t].next;
      k := k + 1;
    }
  }

  lemma ExnDistinct(cs: seq<Chunk>, f: seq<nat>, k: nat)
    requires Chain(cs, f) && k < |f|
    ensures forall e | 0 <= e < k :: f[e] != f[k]
  {}

  lemma CopyBegins(cs: seq<Chunk>, f: seq<nat>, t: seq<nat>)
    requires Chain(cs, f) && Chain(cs, t)
    ensures Copied(cs, cs, f, t, 0)
  {}

  /** What one turn of the copying loop needs to know at chunk `k`. */
  lemma CopyStep(cs0: seq<Chunk>, cs: seq<Chunk>, f: seq<nat>, t: seq<nat>, k: nat, index: nat)
    requires Copied(cs0, cs, f, t, k) && Chain(cs0, f) && Chain(cs0, t) && Apart(f, t)
    requires k <= index && index + 1 < |f| && index + 1 < |t|
    ensures f[k] < |cs| && t[k] < |cs| && f[k + 1] < |cs| && t[k + 1] < |cs|
    ensures cs[f[k]].next == f[k + 1] && cs[t[k]].next == t[k + 1] && (f[k] == f[index] <==> k == index)
    ensures f[k] != t[k]
    ensures Copied(cs0, cs[t[k] := cs[t[k]].(content := cs[f[k]].content)], f, t, k + 1)
  {
    Ends(cs0, f, k);
    Ends(cs0, t, k);
    assert Differ(f[k], t[k]);
    CopyNext(cs0, cs, f, t, k);
  }

  /** What a shrink keeps of a stack, before rounding (line 225). */
  function Share(size: nat, shrink: real): (keep: real)
    requires 0.0 <= shrink <= 1.0
    ensures 0.0 <= keep <= size as real
  {
    size as real * (1.0 - shrink)
  }

  /** The least number from 1 on that is not below `keep`. */
  predicate IsCeiling(keep: real, i: nat) {
    i >= 1 && keep <= (i as real) && (i == 1 || (i as real) < keep + 1.0)
  }

  /** maybe_growstack gets to its shrinking branch. */
  predicate Shrinks(forceGrow: bool, r: Ratios, depth: nat, size: nat) {
    !forceGrow && size >= 20 &&
    var utilization := depth as real / size as real;
    utilization <= r.growThreshold && utilization < r.shrinkThreshold
  }

  /** A shrink keeps the frames up to the one after the current one, and there is a chunk to trim. */
  predicate Keeps(index: nat, size: nat, shrink: real)
    requires 0.0 <= shrink <= 1.0
  {
    (index as real) + 1.0 < Share(size, shrink) && Share(size, shrink) <= size as real - 1.0
  }

  /** With the default ratios a shrink always keeps the frames in use. */
  lemma DefaultsSafe(index: nat, depth: nat, size: nat)
    requires index <= depth && Shrinks(false, DEFAULTS, depth, size)
    ensures Keeps(index, size, DEFAULTS.shrink)
  {
    QuotientBelow(depth as real, size as real, DEFAULTS.shrinkThreshold);
  }

  /** What the command line accepts for the two shrink options (init.c:248-266). The threshold is not checked
    when it comes from `stack-current-grow-threshold` (line 229). */
  predicate Accepted(r: Ratios) {
    0.0 <= r.shrink <= 1.0 && 0.0 <= r.shrinkThreshold <= 1.0
  }

  /** Settings that are accepted and trim the current frame of a stack of 20 chunks: a shrink threshold of
    0.95, or the documented way to disable growth. */
  lemma LiveFrameTrimmed(threshold: real)
    requires threshold >= 0.95
    ensures Accepted(DEFAULTS.(shrinkThreshold := 0.95))
    ensures Shrinks(false, DEFAULTS.(shrinkThreshold := threshold), 18, 20) && !Keeps(18, 20, DEFAULTS.shrink)
    ensures IsCeiling(Share(20, DEFAULTS.shrink), 18)
  {}

  /** A shrink ratio of 0.0 is accepted, and every shrink then follows the NULL link at the end. */
  lemma NothingToTrim(index: nat, size: nat)
    ensures Accepted(DEFAULTS.(shrink := 0.0)) && !Keeps(index, size, 0.0)
  {}

  lemma QuotientBelow(a: real, b: real, c: real)
    requires b > 0.0 && a / b < c
    ensures a < b * c
  {}

  /** The links at number `i` of a chain. */
  lemma Ends(cs: seq<Chunk>, chain: seq<nat>, i: nat)
    requires Chain(cs, chain) && i < |chain|
    ensures chain[i] < |cs| && cs[chain[i]].next == (if i + 1 < |chain| then chain[i + 1] else NULL)
    ensures cs[chain[i]].prev == (if i > 0 then chain[i - 1] else NULL)
  {
    assert LinkOk(cs, chain, i);
  }

  /** One more frame, after the newest has been given its return address. */
  lemma FramesWith(cs: seq<Chunk>, cs': seq<Chunk>, chain: seq<nat>, k: nat, x: Content)
    requires Chain(cs, chain) && k + 1 < |chain| && cs' == cs[chain[k] := cs[chain[k]].(content := x)]
    ensures |cs'| == |cs| && chain[k + 1] < |cs|
    ensures (forall i | 0 <= i < |chain| :: chain[i] < |cs'|)
    ensures Frames(cs', chain, k + 2) == Frames(cs, chain, k + 1)[k := x] + [cs[chain[k + 1]].content]
  {}

  /** Cutting a chain beyond the frames in use. */
  lemma CutFrames(cs: seq<Chunk>, chain: seq<nat>, k: nat, n: nat)
    requires Chain(cs, chain) && 0 < k < |chain| && n <= k
    ensures chain[k] < |cs| && chain[k - 1] < |cs| && cs[chain[k - 1]].next == chain[k]
    ensures var cs' := cs[chain[k] := cs[chain[k]].(prev := NULL)];
            var cs'' := cs'[chain[k - 1] := cs'[chain[k - 1]].(next := NULL)];
            && Chain(cs'', chain[..k]) && (forall i | 0 <= i < |chain| :: chain[i] < |cs''|)
            && Frames(cs'', chain[..k], n) == Frames(cs, chain, n)
  {
    Ends(cs, chain, k - 1);
    ChainCut(cs, chain, k);
    assert chain[k] != chain[k - 1];
    var cs' := cs[chain[k] := cs[chain[k]].(prev := NULL)];
    var cs'' := cs'[chain[k - 1] := cs'[chain[k - 1]].(next := NULL)];
    FewerFrames(cs, cs'', chain, chain[..k], n);
  }

  lemma FewerFrames(cs: seq<Chunk>, cs': seq<Chunk>, chain: seq<nat>, chain': seq<nat>, n: nat)
    requires Chain(cs, chain) && Chain(cs', chain') && n <= |chain'| && chain' <= chain
    requires |cs| == |cs'| && forall c | 0 <= c < |cs| :: cs'[c].content == cs[c].content
    ensures Frames(cs', chain', n) == Frames(cs, chain, n)
  {}

  /** Appending `n` fresh chunks to a chain. */
  lemma Grown(cs: seq<Chunk>, chain: seq<nat>, n: nat)
    requires Chain(cs, chain) && n > 0
    ensures var wide := cs + NewChunks(|cs|, n); var last := chain[|chain| - 1];
            && last < |cs| && |wide| == |cs| + n && Chain(wide, chain)
            && var linked := wide[last := wide[last].(next := |cs|)];
               Chain(linked[|cs| := linked[|cs|].(prev := last)], chain + Range(|cs|, n))
  {
    var wide := cs + NewChunks(|cs|, n);
    NewChain(cs, n);
    ChainSame(cs, wide, chain);
    ChainJoin(wide, chain, Range(|cs|, n));
  }

  lemma SameFrames(cs: seq<Chunk>, cs': seq<Chunk>, chain: seq<nat>, chain': seq<nat>, n: nat)
    requires Chain(cs, chain) && Chain(cs', chain') && n <= |chain| && chain <= chain'
    requires |cs| <= |cs'| && forall c | 0 <= c < |cs| :: cs'[c].content == cs[c].content
    ensures Frames(cs', chain', n) == Frames(cs, chain, n)
  {}

  /** The larger of ten and size * ratio without its fraction (line 202). */
  function NeedChunks(size: nat, ratio: real): (n: nat)
    requires ratio >= 0.0
    ensures n >= 10 && n as real > size as real * ratio - 1.0
    ensures n == 10 || n as real <= size as real * ratio
  {
    assert size as real * ratio >= 0.0;
    var n := (size as real * ratio).Floor;
    if n > 10 then n else 10
  }
}
