/** Jonkers' mark-compact collection (runtime/gc/mark-compact.c) on a word-addressed memory.

  A word holds a byte pattern: a header has its low bit set, and the pointer to word index `a` is
  the byte address `4 * a`, whose low bit is clear. Addresses below `start` are the global slots
  (word 0 is unused, so that no pointer is the zero word that begins an array).

  Threading turns the slots that point at an object into a linked list that hangs off the object's
  header word. The forward pass resolves the slots that precede their target, the backward pass
  the others, and slides the live objects down. */
module MarkCompact {
  import opened Arithmetic

  datatype Tag = ArrayTag | NormalTag | WeakTag
  datatype ObjType = ObjType(tag: Tag, bytesNonObjptrs: nat, numObjptrs: nat)

  const MARK_MASK := 0x8000_0000
  const WORD8_VECTOR_TYPE_INDEX := 3
  const GC_WORD8_VECTOR_HEADER := 7
  const ARRAY_HEADER_WORDS := 3

  predicate IsHeader(w: int) { w % 2 == 1 }

  predicate IsMarked(h: int) { h >= MARK_MASK }

  predicate IsObjptr(w: int) { w % 4 == 0 }

  function Ptr(a: int): int { 4 * a }

  function Addr(w: int): int { w / 4 }

  function TypeIndex(h: int): nat
    requires 0 <= h
  {
    (h / 2) % 0x8_0000
  }

  /** Words after the header. Arrays keep at least one word for a forwarding pointer. */
  function BodyWords(t: ObjType, length: nat): nat {
    match t.tag
    case ArrayTag =>
      var bytes := length * (t.bytesNonObjptrs + 4 * t.numObjptrs);
      if bytes < 4 then 1 else (bytes + 3) / 4
    case _ => t.bytesNonObjptrs / 4 + t.numObjptrs
  }

  /** The pointer slots of `n` consecutive elements, the first one at address `a`. */
  function ElementSlots(a: nat, n: nat, nonPtrWords: nat, ptrs: nat): seq<nat>
    decreases n
  {
    if n == 0 then []
    else seq(ptrs, j requires 0 <= j < ptrs => a + nonPtrWords + j)
         + ElementSlots(a + nonPtrWords + ptrs, n - 1, nonPtrWords, ptrs)
  }

  function SlotsOf(t: ObjType, length: nat, p: nat): seq<nat> {
    ElementSlots(p, if t.tag.ArrayTag? then length else 1, t.bytesNonObjptrs / 4, t.numObjptrs)
  }

  predicate WellFormedType(t: ObjType) {
    && (t.tag.ArrayTag? && t.numObjptrs > 0 ==> t.bytesNonObjptrs % 4 == 0)
    && (!t.tag.ArrayTag? ==> t.bytesNonObjptrs % 4 == 0)
  }

  /** `h` is a header of a type in the table. */
  predicate ValidHeader(types: seq<ObjType>, h: int) {
    0 <= h < 2 * MARK_MASK && IsHeader(h) && TypeIndex(h) < |types|
  }

  function HeaderWords(w: int): nat { if w == 0 then ARRAY_HEADER_WORDS else 1 }

  /** An object begins at `front`: an array if the first word is its zero counter, and otherwise a
    normal or weak object whose first word is the header. */
  predicate ObjectAt(m: seq<int>, types: seq<ObjType>, front: nat) {
    && front < |m|
    && front + HeaderWords(m[front]) <= |m|
    && ValidHeader(types, m[front + HeaderWords(m[front]) - 1])
    && types[TypeIndex(m[front + HeaderWords(m[front]) - 1])].tag.ArrayTag? == (m[front] == 0)
    && (m[front] == 0 ==> m[front + 1] >= 0)
  }

  /** Lines 113-118 and 249-254: the object at `front` has a header without a mark. */
  predicate IsDead(m: seq<int>, front: nat)
    requires front < |m| && front + HeaderWords(m[front]) <= |m|
  {
    var header := m[front + HeaderWords(m[front]) - 1];
    IsHeader(header) && !IsMarked(header)
  }

  function TypeAt(m: seq<int>, types: seq<ObjType>, front: nat): ObjType
    requires ObjectAt(m, types, front)
  {
    types[TypeIndex(m[front + HeaderWords(m[front]) - 1])]
  }

  function LengthAt(m: seq<int>, types: seq<ObjType>, front: nat): nat
    requires ObjectAt(m, types, front)
  {
    if m[front] == 0 then m[front + 1] else 0
  }

  /** sizeofObject (object-size.c:28-50), in words. */
  function SizeAt(m: seq<int>, types: seq<ObjType>, front: nat): nat
    requires ObjectAt(m, types, front)
  {
    HeaderWords(m[front]) + BodyWords(TypeAt(m, types, front), LengthAt(m, types, front))
  }

  /** The words from `a` to `b` are unmarked objects laid end to end. */
  ghost predicate DeadRun(m: seq<int>, types: seq<ObjType>, a: nat, b: nat)
    decreases b - a
  {
    a == b ||
    (a < b <= |m| && ObjectAt(m, types, a)
     && !IsMarked(m[a + HeaderWords(m[a]) - 1])
     && a + SizeAt(m, types, a) <= b
     && DeadRun(m, types, a + SizeAt(m, types, a), b))
  }

  // ------------------------------------------------------------------ the heap before collection

  /** A live object: its first word, its data (the header is the word before), the word past its
    end, and its pointer slots. */
  datatype Obj = Obj(front: nat, p: nat, end: nat, slots: seq<nat>)

  /** What a word of the globals (owner -1) or of a live object is used for. */
  datatype Word = Head(obj: nat) | Slot(owner: int, target: nat) | Plain(owner: int)

  /** The heap as it was when compaction began: `live` lists the marked objects in address order,
    `words` classifies every word of the globals and of the live objects, and `newP` says where
    compaction puts the data of each live object. */
  datatype Desc = Desc(orig: seq<int>, types: seq<ObjType>, start: nat, back: nat,
                       live: seq<Obj>, words: map<nat, Word>, newP: seq<int>)
  {
    function GapStart(k: nat): nat
      requires k <= |live|
    {
      if k == 0 then start else live[k - 1].end
    }

    function GapEnd(k: nat): nat
      requires k <= |live|
    {
      if k == |live| then back else live[k].front
    }

    /** The sum of the sizes of the first `k` live objects. */
    function LiveWords(k: nat): int
      requires k <= |live|
    {
      if k == 0 then 0 else LiveWords(k - 1) + live[k - 1].end - live[k - 1].front
    }

    /** Where compaction puts live object `k`. */
    function Dest(k: nat): int
      requires k <= |live|
    {
      start + LiveWords(k)
    }

    ghost predicate NewPOk() {
      && |newP| == |live|
      && forall k | 0 <= k < |live| :: newP[k] == Dest(k) + live[k].p - live[k].front
    }

    ghost predicate ObjectOk(k: nat)
      requires k < |live|
    {
      var o := live[k];
      && back <= |orig|
      && ObjectAt(orig, types, o.front)
      && o.p == o.front + HeaderWords(orig[o.front])
      && o.end == o.front + SizeAt(orig, types, o.front)
      && IsMarked(orig[o.p - 1])
      && o.slots == SlotsOf(TypeAt(orig, types, o.front), LengthAt(orig, types, o.front), o.p)
    }

    ghost predicate ObjectsOk() {
      && 0 < start <= back <= |orig|
      && (forall i | 0 <= i < |types| :: WellFormedType(types[i]))
      && |types| > WORD8_VECTOR_TYPE_INDEX && types[WORD8_VECTOR_TYPE_INDEX] == ObjType(ArrayTag, 1, 0)
      && (forall k | 0 <= k < |live| ::
            start <= live[k].front < live[k].p <= live[k].end <= back)
      && (forall k | 0 <= k < |live| :: ObjectOk(k))
      && (forall i, j | 0 <= i < j < |live| :: live[i].end <= live[j].front)
    }

    /** A slot that holds a pointer refers to a live object, whatever holds it. */
    ghost predicate SlotOk(x: nat, owner: int) {
      && x in words && x < |orig|
      && if IsObjptr(orig[x]) then
           words[x].Slot? && words[x].owner == owner && words[x].target < |live|
           && orig[x] == Ptr(live[words[x].target].p)
         else words[x] == Plain(owner)
    }

    ghost predicate ObjectWordsOk(k: nat)
      requires k < |live|
    {
      forall x | live[k].front <= x < live[k].end ::
        if x + 1 == live[k].p then x in words && words[x] == Head(k)
        else if x in live[k].slots then SlotOk(x, k)
        else x in words && words[x] == Plain(k)
    }

    ghost predicate InHeap(x: nat) {
      0 < x < start || exists k :: 0 <= k < |live| && live[k].front <= x < live[k].end
    }

    ghost predicate WordsOk() {
      && (forall x | x in words :: InHeap(x))
      && (forall x | 0 < x < start :: SlotOk(x, -1))
      && (forall k | 0 <= k < |live| :: ObjectWordsOk(k))
    }

    ghost predicate Valid() { ObjectsOk() && WordsOk() && NewPOk() }

    /** What the word at `a` must become: live headers lose their mark, pointers follow their
      target, and everything else is kept. */
    ghost function Final(a: nat): int {
      if a !in words || a >= |orig| then 0
      else match words[a]
           case Head(_) => orig[a] - MARK_MASK
           case Slot(_, t) => if t < |newP| then Ptr(newP[t]) else 0
           case Plain(_) => orig[a]
    }

    /** A word of the globals or of a live object from number `lo` on. */
    ghost predicate ActiveWord(lo: nat, a: nat) {
      && a in words
      && match words[a]
         case Head(t) => lo <= t
         case Slot(o, _) => o < 0 || lo <= o
         case Plain(o) => o < 0 || lo <= o
    }

    ghost predicate WordOk(x: nat)
      requires x in words
    {
      && 0 < x < |orig|
      && (words[x].Slot? ==> words[x].owner < |live| && words[x].target < |live|
                             && orig[x] == Ptr(live[words[x].target].p))
    }

    /** The header and, for an array, the counter and length words before it. */
    ghost predicate HeadOk(t: nat)
      requires t < |live|
    {
      var o := live[t];
      && 0 < o.p <= |orig| && IsHeader(orig[o.p - 1]) && IsMarked(orig[o.p - 1])
      && o.front < |orig| && o.p == o.front + HeaderWords(orig[o.front])
      && (orig[o.front] == 0 ==> o.front in words && o.front + 1 in words
                                 && words[o.front] == Plain(t) && words[o.front + 1] == Plain(t))
    }

    /** What threading needs to know of the classification. */
    ghost predicate Layout() {
      && |newP| == |live|
      && (forall t | 0 <= t < |live| ::
          0 < live[t].p <= |orig| && live[t].p - 1 in words && words[live[t].p - 1] == Head(t))
      && (forall t | 0 <= t < |live| :: HeadOk(t))
      && (forall x | x in words :: WordOk(x))
    }
  }

  // ------------------------------------------------------------------ geometry

  ghost predicate Increasing(s: seq<nat>, lo: nat, hi: nat) {
    && (forall i | 0 <= i < |s| :: lo <= s[i] < hi)
    && (forall i, j | 0 <= i < j < |s| :: s[i] < s[j])
  }

  /** Where the last of `n` elements of `w` words ends. */
  function After(a: nat, n: nat, w: nat): nat { a + n * w }

  lemma AfterFirst(a: nat, n: nat, w: nat)
    requires n > 0
    ensures After(a, n, w) == After(a + w, n - 1, w) >= a + w
  {
    MulPlus(w, n - 1, 1);
  }

  lemma {:induction false} ElementSlotsIncreasing(a: nat, n: nat, nonPtrWords: nat, ptrs: nat)
    ensures Increasing(ElementSlots(a, n, nonPtrWords, ptrs), a, After(a, n, nonPtrWords + ptrs))
    decreases n
  {
    hide After;
    if n > 0 {
      var w := nonPtrWords + ptrs;
      AfterFirst(a, n, w);
      ElementSlotsIncreasing(a + w, n - 1, nonPtrWords, ptrs);
      assert a + nonPtrWords + ptrs == a + w;
    }
  }

  /** Where pointer `j` of element `i` is: data comes before pointers (foreach.c:105-171). */
  function PointerAt(a: nat, nonPtrWords: nat, ptrs: nat, i: nat, j: nat): nat {
    a + i * (nonPtrWords + ptrs) + nonPtrWords + j
  }

  lemma {:induction false} ElementSlotsAre(a: nat, n: nat, nonPtrWords: nat, ptrs: nat, x: nat)
    ensures x in ElementSlots(a, n, nonPtrWords, ptrs) <==>
            exists i: nat, j: nat :: i < n && j < ptrs && x == PointerAt(a, nonPtrWords, ptrs, i, j)
    decreases n
  {
    if n > 0 {
      var w := nonPtrWords + ptrs;
      var a' := a + w;
      var first := seq(ptrs, j requires 0 <= j < ptrs => a + nonPtrWords + j);
      ElementSlotsAre(a', n - 1, nonPtrWords, ptrs, x);
      if i: nat, j: nat :| i < n && j < ptrs && x == PointerAt(a, nonPtrWords, ptrs, i, j) {
        if i > 0 { NextElement(a, nonPtrWords, ptrs, i - 1, j); } else { assert first[j] == x; }
      }
      if x in first {
        var j: nat :| j < ptrs && first[j] == x;
        assert x == PointerAt(a, nonPtrWords, ptrs, 0, j);
      }
      if i: nat, j: nat :| i < n - 1 && j < ptrs && x == PointerAt(a', nonPtrWords, ptrs, i, j) {
        NextElement(a, nonPtrWords, ptrs, i, j);
      }
    }
  }

  lemma NextElement(a: nat, nonPtrWords: nat, ptrs: nat, i: nat, j: nat)
    ensures PointerAt(a + nonPtrWords + ptrs, nonPtrWords, ptrs, i, j) == PointerAt(a, nonPtrWords, ptrs, i + 1, j)
  {
    MulPlus(nonPtrWords + ptrs, i, 1);
  }

  /** The pointer slots of an object: those of all elements of an array, or of the one part of another object. */
  lemma SlotsAre(t: ObjType, length: nat, p: nat, x: nat)
    ensures x in SlotsOf(t, length, p) <==>
            exists i: nat, j: nat :: && i < (if t.tag.ArrayTag? then length else 1) && j < t.numObjptrs
                                     && x == PointerAt(p, t.bytesNonObjptrs / 4, t.numObjptrs, i, j)
  {
    ElementSlotsAre(p, if t.tag.ArrayTag? then length else 1, t.bytesNonObjptrs / 4, t.numObjptrs, x);
  }

  lemma ElementSlotsEmpty(a: nat, n: nat, nonPtrWords: nat)
    ensures ElementSlots(a, n, nonPtrWords, 0) == []
    decreases n
  {}

  /** The slots of an object are distinct and lie in its body. */
  lemma SlotsInside(t: ObjType, length: nat, p: nat)
    requires WellFormedType(t)
    ensures Increasing(SlotsOf(t, length, p), p, p + BodyWords(t, length))
  {
    var n := if t.tag.ArrayTag? then length else 1;
    var w := t.bytesNonObjptrs / 4;
    if t.numObjptrs == 0 {
      ElementSlotsEmpty(p, n, w);
    } else {
      ElementSlotsIncreasing(p, n, w, t.numObjptrs);
      assert t.bytesNonObjptrs == 4 * w;
      assert n * (t.bytesNonObjptrs + 4 * t.numObjptrs) == 4 * (n * (w + t.numObjptrs));
    }
  }

  lemma SlotsInBody(d: Desc, k: nat)
    requires d.ObjectsOk() && k < |d.live|
    ensures Increasing(d.live[k].slots, d.live[k].p, d.live[k].end)
  {
    var o := d.live[k];
    assert d.ObjectOk(k);
    SlotsInside(TypeAt(d.orig, d.types, o.front), LengthAt(d.orig, d.types, o.front), o.p);
  }

  lemma ObjectWord(d: Desc, k: nat, x: nat)
    requires d.Valid() && k < |d.live| && d.live[k].front <= x < d.live[k].end
    ensures x in d.words && d.WordOk(x)
  {
    assert d.ObjectWordsOk(k);
  }

  lemma HeadWord(d: Desc, k: nat)
    requires d.Valid() && k < |d.live|
    ensures 0 < d.live[k].p <= |d.orig| && d.live[k].p - 1 in d.words && d.words[d.live[k].p - 1] == Head(k)
  {
    assert d.ObjectWordsOk(k);
  }

  lemma HeaderIsHeader(d: Desc, k: nat)
    requires d.back <= |d.orig| && k < |d.live| && d.ObjectOk(k) && d.live[k].end <= d.back
    ensures var o := d.live[k];
            && 0 < o.p <= |d.orig| && IsHeader(d.orig[o.p - 1]) && IsMarked(d.orig[o.p - 1])
            && o.front < |d.orig| && o.p == o.front + HeaderWords(d.orig[o.front])
  {}

  lemma HeadIsOk(d: Desc, k: nat)
    requires d.Valid() && k < |d.live|
    ensures d.HeadOk(k)
  {
    HeaderIsHeader(d, k);
    var o := d.live[k];
    if d.orig[o.front] == 0 {
      SlotsInBody(d, k);
      assert d.ObjectWordsOk(k);
      assert o.front !in o.slots && o.front + 1 !in o.slots;
    }
  }

  lemma GlobalWord(d: Desc, x: nat)
    requires d.Valid() && 0 < x < d.start
    ensures x in d.words && d.WordOk(x)
  {
    assert d.SlotOk(x, -1);
  }

  lemma WordInObject(d: Desc, x: nat)
    requires d.Valid() && x in d.words && x >= d.start
    ensures d.WordOk(x)
  {
    assert d.InHeap(x);
    var k :| 0 <= k < |d.live| && d.live[k].front <= x < d.live[k].end;
    ObjectWord(d, k, x);
  }

  lemma ValidLayout(d: Desc)
    requires d.Valid()
    ensures d.Layout()
  {
    forall t | 0 <= t < |d.live|
      ensures 0 < d.live[t].p <= |d.orig| && d.live[t].p - 1 in d.words && d.words[d.live[t].p - 1] == Head(t)
    {
      HeadWord(d, t);
    }
    forall t | 0 <= t < |d.live| ensures d.HeadOk(t) {
      HeadIsOk(d, t);
    }
    forall x | x in d.words ensures d.WordOk(x) {
      if 0 < x < d.start {
        GlobalWord(d, x);
      } else {
        WordInObject(d, x);
      }
    }
  }

  // ------------------------------------------------------------------ threaded memory

  /** The header word at `h` starts the list `c` of threaded slots; its last slot holds the
    displaced header `hv`. */
  ghost predicate Linked(m: seq<int>, h: int, hv: int, c: seq<nat>) {
    && 0 <= h < |m|
    && m[h] == (if c == [] then hv else Ptr(c[0]))
    && forall i | 0 <= i < |c| :: LinkAt(m, hv, c, i)
  }

  ghost predicate LinkAt(m: seq<int>, hv: int, c: seq<nat>, i: nat) {
    i < |c| && c[i] < |m| && m[c[i]] == (if i + 1 < |c| then Ptr(c[i + 1]) else hv)
  }

  ghost predicate NoDup(c: seq<nat>) {
    forall i, j | 0 <= i < j < |c| :: c[i] != c[j]
  }

  /** Writes to a header and to a slot that are not part of a thread leave the thread alone. */
  lemma LinkedFrame(m: seq<int>, h: int, hv: int, c: seq<nat>, x: nat, v: int, g: nat, w: int)
    requires Linked(m, h, hv, c) && x < |m| && g < |m|
    requires x != h && g != h && x !in c && g !in c
    ensures Linked(m[x := v][g := w], h, hv, c)
  {
    var m' := m[x := v][g := w];
    forall i | 0 <= i < |c| ensures LinkAt(m', hv, c, i) {
      assert LinkAt(m, hv, c, i) && c[i] in c;
    }
  }

  lemma LinkedSame(m: seq<int>, m': seq<int>, h: int, hv: int, c: seq<nat>)
    requires Linked(m, h, hv, c) && |m'| == |m| && m'[h] == m[h]
    requires forall i | 0 <= i < |c| :: c[i] < |m| && m'[c[i]] == m[c[i]]
    ensures Linked(m', h, hv, c)
  {
    forall i | 0 <= i < |c| ensures LinkAt(m', hv, c, i) { assert LinkAt(m, hv, c, i); }
  }

  lemma LinkedPush(m: seq<int>, h: int, hv: int, c: seq<nat>, x: nat)
    requires Linked(m, h, hv, c) && x < |m| && x != h && x !in c && h !in c
    ensures Linked(m[x := m[h]][h := Ptr(x)], h, hv, [x] + c)
  {
    var m' := m[x := m[h]][h := Ptr(x)];
    var c': seq<nat> := [x] + c;
    forall i | 0 <= i < |c'| ensures LinkAt(m', hv, c', i) {
      if i == 0 { FirstLink(m, h, hv, c, x); } else { OldLink(m, h, hv, c, x, i - 1); }
    }
  }

  lemma FirstLink(m: seq<int>, h: int, hv: int, c: seq<nat>, x: nat)
    requires Linked(m, h, hv, c) && x < |m| && x != h
    ensures LinkAt(m[x := m[h]][h := Ptr(x)], hv, [x] + c, 0)
  {
    if |c| > 0 { assert ([x] + c)[1] == c[0]; }
  }

  lemma OldLink(m: seq<int>, h: int, hv: int, c: seq<nat>, x: nat, i: nat)
    requires LinkAt(m, hv, c, i) && 0 <= h < |m| && x < |m| && x !in c && h !in c
    ensures LinkAt(m[x := m[h]][h := Ptr(x)], hv, [x] + c, i + 1)
  {
    assert ([x] + c)[i + 1] == c[i] && c[i] in c;
    assert i + 1 < |c| ==> ([x] + c)[i + 2] == c[i + 1];
  }

  lemma LinkedPop(m: seq<int>, h: int, hv: int, c: seq<nat>, v: int)
    requires Linked(m, h, hv, c) && c != [] && NoDup(c) && h !in c
    ensures c[0] < |m| && Linked(m[c[0] := v][h := m[c[0]]], h, hv, c[1..])
  {
    var x := c[0];
    assert x in c && LinkAt(m, hv, c, 0);
    var m' := m[x := v][h := m[x]];
    var c': seq<nat> := c[1..];
    if |c| == 1 { assert c' == []; } else { assert c'[0] == c[1]; }
    forall i | 0 <= i < |c'| ensures LinkAt(m', hv, c', i) {
      assert LinkAt(m, hv, c, i + 1);
      assert c'[i] == c[i + 1] && c[i + 1] in c && c[0] != c[i + 1];
      assert i + 1 < |c'| ==> c'[i + 1] == c[i + 2];
    }
  }

  /** The slots on each thread. `chains[t]` is the thread of live object `t`; `pending` holds the
    slots on some thread and `resolved` the slots that already hold their final value. */
  datatype Threads = Threads(chains: seq<seq<nat>>, pending: set<nat>, resolved: set<nat>) {
    ghost predicate OnThread(d: Desc, t: nat, x: nat) {
      x in pending && x in d.words && d.words[x].Slot? && d.words[x].target == t
    }

    ghost predicate ThreadOk(d: Desc, t: nat)
      requires t < |chains|
    {
      && NoDup(chains[t])
      && (forall x | x in chains[t] :: OnThread(d, t, x))
    }

    ghost predicate Consistent(d: Desc) {
      && |chains| == |d.live|
      && pending !! resolved && pending + resolved <= d.words.Keys
      && (forall t | 0 <= t < |chains| :: ThreadOk(d, t))
      && (forall x | x in pending ::
            d.words[x].Slot? && d.words[x].target < |chains| && x in chains[d.words[x].target])
    }

    /** Puts slot `x` on the thread of `t`. */
    ghost function Push(t: nat, x: nat): Threads
      requires t < |chains|
    {
      Threads(chains[t := [x] + chains[t]], pending + {x}, resolved)
    }

    /** Resolves every slot on the thread of `t`. */
    ghost function Drain(t: nat): Threads
      requires t < |chains|
    {
      var done := set x | x in chains[t];
      Threads(chains[t := []], pending - done, resolved + done)
    }

    /** Resolves the first slot on the thread of `t`. */
    ghost function Pop(t: nat): Threads
      requires t < |chains| && chains[t] != []
    {
      Threads(chains[t := chains[t][1..]], pending - {chains[t][0]}, resolved + {chains[t][0]})
    }
  }

  lemma PushConsistent(d: Desc, th: Threads, x: nat, t: nat)
    requires th.Consistent(d) && x in d.words && x !in th.pending && x !in th.resolved
    requires d.words[x].Slot? && d.words[x].target == t < |d.live|
    ensures th.Push(t, x).Consistent(d)
  {
    var th' := th.Push(t, x);
    forall u | 0 <= u < |th'.chains| ensures th'.ThreadOk(d, u) {
      assert th.ThreadOk(d, u);
      if u == t {
        assert x !in th.chains[t];
        forall i, j | 0 <= i < j < |th'.chains[u]| ensures th'.chains[u][i] != th'.chains[u][j] {
          assert th'.chains[u][j] == th.chains[u][j - 1];
        }
      }
    }
  }

  lemma PopConsistent(d: Desc, th: Threads, t: nat)
    requires th.Consistent(d) && t < |th.chains| && th.chains[t] != []
    ensures th.Pop(t).Consistent(d)
  {
    var th' := th.Pop(t);
    var x := th.chains[t][0];
    assert th.ThreadOk(d, t) && x in th.chains[t];
    forall u | 0 <= u < |th'.chains| ensures th'.ThreadOk(d, u) {
      assert th.ThreadOk(d, u);
      if u == t {
        forall y | y in th'.chains[u] ensures th'.OnThread(d, u, y) {
          var i :| 0 <= i < |th'.chains[u]| && th'.chains[u][i] == y;
          assert y == th.chains[t][i + 1] && y in th.chains[t];
          assert th.OnThread(d, t, y) && y != x;
        }
      } else {
        forall y | y in th'.chains[u] ensures th'.OnThread(d, u, y) {
          assert th.OnThread(d, u, y) && th.OnThread(d, t, x);
        }
      }
    }
    forall y | y in th'.pending ensures y in th'.chains[d.words[y].target] {
      if d.words[y].target == t {
        var i :| 0 <= i < |th.chains[t]| && th.chains[t][i] == y;
        assert th'.chains[t][i - 1] == y;
      }
    }
  }

  lemma PopDrain(th: Threads, t: nat)
    requires t < |th.chains| && th.chains[t] != []
    ensures th.Pop(t).Drain(t) == th.Drain(t)
  {}

  ghost predicate LinksOk(m: seq<int>, d: Desc, lo: nat, th: Threads)
    requires d.Layout() && |th.chains| == |d.live|
  {
    forall t | lo <= t < |d.live| :: Linked(m, d.live[t].p - 1, d.orig[d.live[t].p - 1], th.chains[t])
  }

  /** Slots off the threads hold their original or their final value. */
  ghost predicate SlotsOk(m: seq<int>, d: Desc, lo: nat, th: Threads)
    requires d.Layout() && |m| == |d.orig|
  {
    forall x | x in d.words && d.words[x].Slot? && x !in th.pending
               && (d.words[x].owner < 0 || lo <= d.words[x].owner) ::
      m[x] == if x in th.resolved then Ptr(d.newP[d.words[x].target]) else d.orig[x]
  }

  ghost predicate PlainOk(m: seq<int>, d: Desc, lo: nat)
    requires d.Layout() && |m| == |d.orig|
  {
    forall x | x in d.words && d.words[x].Plain? && (d.words[x].owner < 0 || lo <= d.words[x].owner) ::
      m[x] == d.orig[x]
  }

  /** The memory of the globals and of the live objects from number `lo` on. */
  ghost predicate Threaded(m: seq<int>, d: Desc, lo: nat, th: Threads)
    requires d.Layout()
  {
    && |m| == |d.orig| && th.Consistent(d)
    && (forall x | x in th.pending :: d.words[x].owner < 0 || lo <= d.words[x].owner)
    && (forall t | 0 <= t < |d.live| && t < lo :: th.chains[t] == [])
    && LinksOk(m, d, lo, th) && SlotsOk(m, d, lo, th) && PlainOk(m, d, lo)
  }

  lemma LinksPush(m: seq<int>, d: Desc, lo: nat, th: Threads, x: nat, t: nat)
    requires d.Layout() && |m| == |d.orig| && th.Consistent(d) && LinksOk(m, d, lo, th)
    requires x in d.words && x !in th.pending && d.words[x].Slot? && lo <= t < |d.live|
    ensures LinksOk(m[x := m[d.live[t].p - 1]][d.live[t].p - 1 := Ptr(x)], d, lo, th.Push(t, x))
  {
    var h := d.live[t].p - 1;
    assert d.words[h] == Head(t);
    forall u | lo <= u < |d.live|
      ensures Linked(m[x := m[h]][h := Ptr(x)], d.live[u].p - 1, d.orig[d.live[u].p - 1], th.Push(t, x).chains[u])
    {
      assert th.ThreadOk(d, u);
      assert d.words[d.live[u].p - 1] == Head(u);
      assert h !in th.chains[u] && x !in th.chains[u];
      if u == t {
        LinkedPush(m, h, d.orig[h], th.chains[t], x);
      } else {
        LinkedFrame(m, d.live[u].p - 1, d.orig[d.live[u].p - 1], th.chains[u], x, m[h], h, Ptr(x));
      }
    }
  }

  lemma LinksPop(m: seq<int>, d: Desc, lo: nat, th: Threads, t: nat, v: int)
    requires d.Layout() && |m| == |d.orig| && th.Consistent(d) && LinksOk(m, d, lo, th)
    requires lo <= t < |d.live| && th.chains[t] != []
    ensures var x := th.chains[t][0];
            x < |m| && LinksOk(m[x := v][d.live[t].p - 1 := m[x]], d, lo, th.Pop(t))
  {
    var h := d.live[t].p - 1;
    var x := th.chains[t][0];
    assert d.words[h] == Head(t);
    assert th.ThreadOk(d, t) && x in th.chains[t] && th.OnThread(d, t, x);
    forall u | lo <= u < |d.live|
      ensures Linked(m[x := v][h := m[x]], d.live[u].p - 1, d.orig[d.live[u].p - 1], th.Pop(t).chains[u])
    {
      assert th.ThreadOk(d, u);
      assert d.words[d.live[u].p - 1] == Head(u);
      assert h !in th.chains[u];
      if u == t {
        LinkedPop(m, h, d.orig[h], th.chains[t], v);
      } else {
        assert x !in th.chains[u];
        LinkedFrame(m, d.live[u].p - 1, d.orig[d.live[u].p - 1], th.chains[u], x, v, h, m[x]);
      }
    }
  }

  /** Writing a slot and a header leaves the other slots and the plain words alone. */
  lemma OtherWords(m: seq<int>, d: Desc, lo: nat, th: Threads, th': Threads, t: nat, x: nat, v: int, w: int)
    requires d.Layout() && |m| == |d.orig| && SlotsOk(m, d, lo, th) && PlainOk(m, d, lo)
    requires x in d.words && d.words[x].Slot? && t < |d.live|
    requires forall y | y in d.words && y != x :: (y in th'.pending <==> y in th.pending)
                                                  && (y in th'.resolved <==> y in th.resolved)
    requires x in th'.pending || (x in th'.resolved && v == Ptr(d.newP[d.words[x].target]))
    ensures SlotsOk(m[x := v][d.live[t].p - 1 := w], d, lo, th')
    ensures PlainOk(m[x := v][d.live[t].p - 1 := w], d, lo)
  {}

  /** Threading a slot that is on no thread (the two copies of threadInternalObjptr). */
  lemma ThreadStep(m: seq<int>, d: Desc, lo: nat, th: Threads, x: nat, t: nat)
    requires d.Layout() && Threaded(m, d, lo, th)
    requires x in d.words && x !in th.pending && x !in th.resolved
    requires d.words[x].Slot? && d.words[x].target == t && lo <= t < |d.live|
    requires d.words[x].owner < 0 || lo <= d.words[x].owner
    ensures Threaded(m[x := m[d.live[t].p - 1]][d.live[t].p - 1 := Ptr(x)], d, lo, th.Push(t, x))
  {
    PushConsistent(d, th, x, t);
    LinksPush(m, d, lo, th, x, t);
    OtherWords(m, d, lo, th, th.Push(t, x), t, x, m[d.live[t].p - 1], Ptr(x));
  }

  /** Resolving the first slot of a thread (one turn of the do loop, lines 210-221 and 340-351). */
  lemma UnthreadStep(m: seq<int>, d: Desc, lo: nat, th: Threads, t: nat)
    requires d.Layout() && Threaded(m, d, lo, th)
    requires lo <= t < |d.live| && th.chains[t] != []
    ensures var x := th.chains[t][0];
            x < |m| && Threaded(m[x := Ptr(d.newP[t])][d.live[t].p - 1 := m[x]], d, lo, th.Pop(t))
  {
    var x := th.chains[t][0];
    assert th.ThreadOk(d, t) && x in th.chains[t] && th.OnThread(d, t, x);
    PopConsistent(d, th, t);
    LinksPop(m, d, lo, th, t, Ptr(d.newP[t]));
    OtherWords(m, d, lo, th, th.Pop(t), t, x, Ptr(d.newP[t]), m[x]);
  }

  // ------------------------------------------------------------------ dead runs

  ghost predicate GapsDead(m: seq<int>, d: Desc) {
    forall k | 0 <= k <= |d.live| :: DeadRun(m, d.types, d.GapStart(k), d.GapEnd(k))
  }

  /** Gaps hold no classified word. */
  lemma GapUnclassified(d: Desc, k: nat, a: nat)
    requires d.Valid() && k <= |d.live| && d.GapStart(k) <= a < d.GapEnd(k)
    ensures a !in d.words
  {
    if a in d.words {
      assert d.InHeap(a);
      if a >= d.start {
        var j :| 0 <= j < |d.live| && d.live[j].front <= a < d.live[j].end;
        if j < k { ObjectBeforeGap(d, j, k); } else { ObjectAfterGap(d, j, k); }
      }
    }
  }

  lemma ObjectBeforeGap(d: Desc, j: nat, k: nat)
    requires d.ObjectsOk() && j < k <= |d.live|
    ensures d.live[j].end <= d.GapStart(k)
  {}

  lemma ObjectAfterGap(d: Desc, j: nat, k: nat)
    requires d.ObjectsOk() && k <= j < |d.live|
    ensures d.GapEnd(k) <= d.live[j].front
  {}

  /** Gaps do not overlap. */
  lemma GapsApart(d: Desc, j: nat, k: nat)
    requires d.ObjectsOk() && j < k <= |d.live|
    ensures d.GapEnd(j) <= d.GapStart(k)
  {}

  lemma {:induction false} DeadRunFrame(m: seq<int>, m': seq<int>, types: seq<ObjType>, a: nat, b: nat)
    requires DeadRun(m, types, a, b) && |m| == |m'|
    requires forall i: nat | a <= i < b :: m'[i] == m[i]
    ensures DeadRun(m', types, a, b)
    decreases b - a
  {
    if a != b {
      assert m'[a] == m[a];
      var hw := HeaderWords(m[a]);
      assert m'[a + hw - 1] == m[a + hw - 1];
      if hw == 3 { assert m'[a + 1] == m[a + 1]; }
      DeadRunFrame(m, m', types, a + SizeAt(m, types, a), b);
    }
  }

  /** Gap `k` lies within the heap and holds no word of a live object. */
  ghost predicate GapClear(d: Desc, k: nat)
    requires k <= |d.live|
  {
    && d.GapStart(k) <= d.GapEnd(k) <= |d.orig|
    && forall a | d.GapStart(k) <= a < d.GapEnd(k) :: a !in d.words
  }

  ghost predicate TypesOk(d: Desc) {
    |d.types| > WORD8_VECTOR_TYPE_INDEX && d.types[WORD8_VECTOR_TYPE_INDEX] == ObjType(ArrayTag, 1, 0)
  }

  ghost predicate GapPair(d: Desc, j: nat, k: nat)
    requires j < k <= |d.live|
  {
    d.GapEnd(j) <= d.GapStart(k)
  }

  ghost predicate GapsOrdered(d: Desc) {
    forall j, k | 0 <= j < k <= |d.live| :: GapPair(d, j, k)
  }

  /** Where the passes are when they look at gap `k`, and what object `k` adds to the destination. */
  ghost predicate PassOk(d: Desc, k: nat)
    requires k <= |d.live| == |d.newP|
  {
    && d.GapStart(k) <= d.GapEnd(k) <= d.back
    && (d.GapEnd(k) == d.back ==> k == |d.live|)
    && (k == |d.live| ==> d.GapEnd(k) == d.back)
    && d.start <= d.Dest(k) <= d.GapStart(k)
    && (k < |d.live| ==>
          && d.newP[k] == d.Dest(k) + d.live[k].p - d.live[k].front
          && d.Dest(k + 1) == d.Dest(k) + d.live[k].end - d.live[k].front)
  }

  /** The first `n` gaps are each one byte vector, if they have room for it. */
  ghost predicate Vectors(m: seq<int>, d: Desc, n: nat) {
    forall k | 0 <= k < n && k <= |d.live| :: OneVector(m, d.GapStart(k), d.GapEnd(k))
  }

  /** The words from `e` to `f` are the header of a byte vector and its bytes, or too few for one. */
  ghost predicate OneVector(m: seq<int>, e: nat, f: nat) {
    e + ARRAY_HEADER_WORDS < f ==>
      && f <= |m| && m[e] == 0 && m[e + 2] == GC_WORD8_VECTOR_HEADER
      && m[e + 1] == 4 * (f - e) - 4 * ARRAY_HEADER_WORDS
  }

  /** Gaps stay dead, and vectors stay, when only classified words are written. */
  lemma GapsFrame(m: seq<int>, m': seq<int>, d: Desc)
    requires GapsDead(m, d) && |m| == |m'| == |d.orig|
    requires forall k | 0 <= k <= |d.live| :: GapClear(d, k)
    requires forall a: nat | a < |m| && a !in d.words :: m'[a] == m[a]
    ensures GapsDead(m', d)
    ensures forall n: nat | Vectors(m, d, n) :: Vectors(m', d, n)
  {
    forall k | 0 <= k <= |d.live|
      ensures DeadRun(m', d.types, d.GapStart(k), d.GapEnd(k))
      ensures OneVector(m, d.GapStart(k), d.GapEnd(k)) ==> OneVector(m', d.GapStart(k), d.GapEnd(k))
    {
      assert GapClear(d, k);
      DeadRunFrame(m, m', d.types, d.GapStart(k), d.GapEnd(k));
    }
  }

  /** The live objects do not notice writes to unclassified words. */
  lemma ThreadedFrame(m: seq<int>, m': seq<int>, d: Desc, lo: nat, th: Threads)
    requires d.Layout() && Threaded(m, d, lo, th) && |m'| == |m|
    requires forall a | a in d.words :: m'[a] == m[a]
    ensures Threaded(m', d, lo, th)
  {
    forall t | lo <= t < |d.live|
      ensures Linked(m', d.live[t].p - 1, d.orig[d.live[t].p - 1], th.chains[t])
    {
      assert th.ThreadOk(d, t);
      assert d.words[d.live[t].p - 1] == Head(t);
      assert Linked(m, d.live[t].p - 1, d.orig[d.live[t].p - 1], th.chains[t]);
      forall i | 0 <= i < |th.chains[t]|
        ensures th.chains[t][i] < |m| && m'[th.chains[t][i]] == m[th.chains[t][i]]
      {
        assert LinkAt(m, d.orig[d.live[t].p - 1], th.chains[t], i) && th.chains[t][i] in th.chains[t];
        assert th.OnThread(d, t, th.chains[t][i]);
      }
      LinkedSame(m, m', d.live[t].p - 1, d.orig[d.live[t].p - 1], th.chains[t]);
    }
  }

  /** The header word of a live object is a header exactly when its thread is empty. */
  lemma HeaderWord(m: seq<int>, d: Desc, lo: nat, th: Threads, k: nat)
    requires d.Layout() && Threaded(m, d, lo, th) && lo <= k < |d.live|
    ensures var h := d.live[k].p - 1;
            && 0 <= h < |m| && 0 < m[h]
            && (IsHeader(m[h]) <==> th.chains[k] == [])
            && m[h] == if th.chains[k] == [] then d.orig[h] else Ptr(th.chains[k][0])
  {
    assert d.HeadOk(k);
    assert Linked(m, d.live[k].p - 1, d.orig[d.live[k].p - 1], th.chains[k]);
    if th.chains[k] != [] {
      assert th.ThreadOk(d, k) && th.chains[k][0] in th.chains[k];
      assert th.OnThread(d, k, th.chains[k][0]);
    }
  }

  /** Threading does not change the kind or the length of a live object. */
  lemma FrontWord(m: seq<int>, d: Desc, lo: nat, th: Threads, k: nat)
    requires d.Layout() && Threaded(m, d, lo, th) && lo <= k < |d.live|
    ensures var o := d.live[k];
            && o.front < |m|
            && o.p == o.front + HeaderWords(m[o.front])
            && (m[o.front] == 0 <==> d.orig[o.front] == 0)
            && (m[o.front] == 0 ==> o.front + 1 < |m| && m[o.front + 1] == d.orig[o.front + 1])
  {
    assert d.HeadOk(k);
    if d.orig[d.live[k].front] != 0 {
      HeaderWord(m, d, lo, th, k);
    }
  }

  // ------------------------------------------------------------------ the state between objects

  /** Forward pass, `k` objects done. A slot is visited once its owner is done; it is resolved by
    the visit to its target if it comes before the target, and otherwise waits on a thread. */
  ghost predicate ForwardPhase(d: Desc, th: Threads, k: nat) {
    forall x | x in d.words && d.words[x].Slot? ::
      var o, t := d.words[x].owner, d.words[x].target;
      && (x in th.pending <==> o < k && (k <= t || t <= o))
      && (x in th.resolved <==> o < t < k)
  }

  /** Backward pass, `k` objects done: what waits are the slots that do not precede their target. */
  ghost predicate BackwardPhase(d: Desc, th: Threads, k: nat) {
    forall x | x in d.words && d.words[x].Slot? ::
      var o, t := d.words[x].owner, d.words[x].target;
      && (x in th.pending <==> k <= t <= o)
      && (x in th.resolved <==> x !in th.pending)
  }

  /** Forward pass, inside object `k`: its own thread is resolved and its first slots are threaded. */
  ghost predicate InsidePhase(d: Desc, th: Threads, k: nat, seen: set<nat>) {
    forall x | x in d.words && d.words[x].Slot? ::
      var o, t := d.words[x].owner, d.words[x].target;
      && (x in th.pending <==> (o < k && (k < t || t <= o)) || x in seen)
      && (x in th.resolved <==> o < t <= k)
  }

  /** Resolving the thread of `k` is what visiting the target `k` means. */
  lemma DrainForward(d: Desc, th: Threads, k: nat)
    requires th.Consistent(d) && k < |d.live| && ForwardPhase(d, th, k)
    ensures InsidePhase(d, th.Drain(k), k, {})
  {
    assert th.ThreadOk(d, k);
    forall x | x in d.words && d.words[x].Slot?
      ensures x in th.chains[k] <==> x in th.pending && d.words[x].target == k
    {
      if x in th.chains[k] { assert th.OnThread(d, k, x); }
    }
  }

  lemma DrainBackward(d: Desc, th: Threads, k: nat)
    requires th.Consistent(d) && k < |d.live| && BackwardPhase(d, th, k)
    ensures BackwardPhase(d, th.Drain(k), k + 1)
  {
    assert th.ThreadOk(d, k);
    forall x | x in d.words && d.words[x].Slot?
      ensures x in th.chains[k] <==> x in th.pending && d.words[x].target == k
    {
      if x in th.chains[k] { assert th.OnThread(d, k, x); }
    }
  }

  lemma LeaveObject(d: Desc, th: Threads, k: nat, seen: set<nat>)
    requires InsidePhase(d, th, k, seen)
    requires forall x | x in d.words && d.words[x].Slot? :: x in seen <==> d.words[x].owner == k
    ensures ForwardPhase(d, th, k + 1)
  {}

  /** The pointer slots of object `k` are those of its slots that hold a pointer. */
  ghost predicate SlotsListed(d: Desc, k: nat)
    requires k < |d.live|
  {
    && (forall i, j | 0 <= i < j < |d.live[k].slots| :: d.live[k].slots[i] != d.live[k].slots[j])
    && (forall x | x in d.live[k].slots :: SlotListed(d, k, x))
    && (forall x | x in d.words && d.words[x].Slot? && d.words[x].owner == k :: x in d.live[k].slots)
  }

  ghost predicate SlotListed(d: Desc, k: nat, x: nat) {
    && x in d.words && x < |d.orig|
    && if IsObjptr(d.orig[x]) then d.words[x].Slot? && d.words[x].owner == k else d.words[x] == Plain(k)
  }

  lemma SlotsOfObject(d: Desc, k: nat)
    requires d.Valid() && k < |d.live|
    ensures SlotsListed(d, k)
  {
    SlotsInBody(d, k);
    forall x | x in d.words && d.words[x].Slot? && d.words[x].owner == k
      ensures x in d.live[k].slots
    {
      SlotOwner(d, x);
    }
    forall x | x in d.live[k].slots ensures SlotListed(d, k, x) {
      SlotOfObject(d, k, x);
    }
  }

  lemma SlotOfObject(d: Desc, k: nat, x: nat)
    requires k < |d.live| && d.ObjectWordsOk(k) && x in d.live[k].slots
    requires Increasing(d.live[k].slots, d.live[k].p, d.live[k].end) && d.live[k].front < d.live[k].p
    ensures SlotListed(d, k, x)
  {}

  lemma SlotOwnerIn(d: Desc, x: nat, j: nat)
    requires j < |d.live| && d.ObjectWordsOk(j) && d.live[j].front <= x < d.live[j].end
    requires x in d.words && d.words[x].Slot?
    ensures d.words[x].owner == j && x in d.live[j].slots
  {}

  lemma GlobalSlotOwner(d: Desc, x: nat)
    requires d.WordsOk() && 0 < x < d.start && x in d.words && d.words[x].Slot?
    ensures d.words[x].owner == -1
  {
    assert d.SlotOk(x, -1);
  }

  lemma SlotOwner(d: Desc, x: nat)
    requires d.WordsOk() && x in d.words && d.words[x].Slot? && d.words[x].owner >= 0
    ensures d.words[x].owner < |d.live| && x in d.live[d.words[x].owner].slots
  {
    assert d.InHeap(x);
    if 0 < x < d.start {
      GlobalSlotOwner(d, x);
    } else {
      var j :| 0 <= j < |d.live| && d.live[j].front <= x < d.live[j].end;
      SlotOwnerIn(d, x, j);
    }
  }

  /** Everything the passes use, each part behind a predicate of its own. */
  ghost predicate Ready(d: Desc) {
    && d.Layout()
    && (forall k | 0 <= k <= |d.live| :: GapClear(d, k))
    && (forall k | 0 <= k < |d.live| :: SlotsListed(d, k))
    && (forall k | 0 <= k < |d.live| :: d.ObjectOk(k))
    && (forall k | 0 <= k <= |d.live| :: PassOk(d, k))
    && (forall x | x in d.words :: WordPlaced(d, x))
    && (forall k | 0 <= k < |d.live| :: ObjectFilled(d, k))
    && TypesOk(d) && GapsOrdered(d)
    && 0 < d.start <= |d.orig| && (forall x | 0 < x < d.start :: d.SlotOk(x, -1))
  }

  /** Globals lie before the heap, and a word of object `k` lies after gap `k`. */
  ghost predicate WordPlaced(d: Desc, x: nat)
    requires x in d.words
  {
    match d.words[x]
    case Head(t) => t < |d.live| && d.live[t].front <= x < d.live[t].end && x + 1 == d.live[t].p
    case Slot(o, _) => if o < 0 then x < d.start else o < |d.live| && d.live[o].front <= x < d.live[o].end
    case Plain(o) => if o < 0 then x < d.start else o < |d.live| && d.live[o].front <= x < d.live[o].end
  }

  lemma ValidReady(d: Desc)
    requires d.Valid()
    ensures Ready(d)
  {
    ValidLayout(d);
    forall k | 0 <= k <= |d.live| ensures GapClear(d, k) {
      GapIsClear(d, k);
    }
    forall k | 0 <= k < |d.live| ensures SlotsListed(d, k) {
      SlotsOfObject(d, k);
    }
    forall k | 0 <= k <= |d.live| ensures PassOk(d, k) {
      PassIsOk(d, k);
    }
    forall x | x in d.words ensures WordPlaced(d, x) {
      WordIsPlaced(d, x);
    }
    forall k | 0 <= k < |d.live| ensures ObjectFilled(d, k) {
      ObjectIsFilled(d, k);
    }
    forall j, k | 0 <= j < k <= |d.live| ensures GapPair(d, j, k) {
      GapsApart(d, j, k);
    }
  }

  lemma PassIsOk(d: Desc, k: nat)
    requires d.Valid() && k <= |d.live|
    ensures PassOk(d, k)
  {
    if 0 < k < |d.live| { assert d.live[k - 1].end <= d.live[k].front; }
    DestBelow(d, k);
  }

  /** Compaction only moves objects down. */
  lemma {:induction false} DestBelow(d: Desc, k: nat)
    requires d.ObjectsOk() && k <= |d.live|
    ensures d.start <= d.Dest(k) <= d.GapStart(k)
  {
    if k > 0 {
      DestBelow(d, k - 1);
      if k > 1 { assert d.live[k - 2].end <= d.live[k - 1].front; }
    }
  }

  lemma WordIsPlaced(d: Desc, x: nat)
    requires d.Valid() && x in d.words
    ensures WordPlaced(d, x)
  {
    assert d.InHeap(x);
    if 0 < x < d.start {
      assert d.SlotOk(x, -1);
    } else {
      var j :| 0 <= j < |d.live| && d.live[j].front <= x < d.live[j].end;
      WordInObjectPlaced(d, x, j);
    }
  }

  lemma WordInObjectPlaced(d: Desc, x: nat, j: nat)
    requires j < |d.live| && d.ObjectWordsOk(j) && d.live[j].front <= x < d.live[j].end
    ensures x in d.words && WordPlaced(d, x)
  {}

  lemma GapIsClear(d: Desc, k: nat)
    requires d.Valid() && k <= |d.live|
    ensures GapClear(d, k)
  {
    if 0 < k < |d.live| { assert d.live[k - 1].end <= d.live[k].front; }
    forall a | d.GapStart(k) <= a < d.GapEnd(k) ensures a !in d.words {
      GapUnclassified(d, k, a);
    }
  }

  /** Threading a slot of object `k` that has not been seen. */
  lemma VisitSlot(m: seq<int>, d: Desc, th: Threads, k: nat, seen: set<nat>, x: nat)
    requires d.Layout() && Threaded(m, d, 0, th) && InsidePhase(d, th, k, seen)
    requires x in d.words && d.words[x].Slot? && d.words[x].owner == k && x !in seen
    ensures var t := d.words[x].target;
            && t < |d.live| && t < |th.chains| && x < |m| && 0 < d.live[t].p <= |m| && m[x] == Ptr(d.live[t].p)
            && d.live[t].p - 1 in d.words
            && InsidePhase(d, th.Push(t, x), k, seen + {x})
            && Threaded(m[x := m[d.live[t].p - 1]][d.live[t].p - 1 := Ptr(x)], d, 0, th.Push(t, x))
  {
    var t := d.words[x].target;
    assert d.WordOk(x);
    assert d.HeadOk(t) && d.words[d.live[t].p - 1] == Head(t);
    ThreadStep(m, d, 0, th, x, t);
  }

  // ------------------------------------------------------------------ the collector

  class OldGeneration {
    const mem: array<int>
    const types: seq<ObjType>
    const start: nat
    var oldGenSize: nat

    constructor (m: array<int>, ts: seq<ObjType>, s: nat, size: nat)
      ensures mem == m && types == ts && start == s && oldGenSize == size
    {
      mem, types, start, oldGenSize := m, ts, s, size;
    }

    ghost predicate Describes(d: Desc)
      reads this
    {
      d.Valid() && d.types == types && d.start == start && d.back == start + oldGenSize && |d.orig| == mem.Length
    }

    /** object.c:97-115 */
    function AdvanceToObjectData(front: nat): nat
      requires front < mem.Length
      reads mem
    {
      front + HeaderWords(mem[front])
    }

    method ThreadInternalObjptr(opp: nat)
      requires opp < mem.Length && 0 < Addr(mem[opp]) <= mem.Length
      modifies mem
      ensures var h := Addr(old(mem[opp])) - 1;
              mem[..] == old(mem[..])[opp := old(mem[h])][h := Ptr(opp)]
    {
      var opop := Ptr(opp);
      var p := Addr(mem[opp]);
      var headerp := p - 1;
      mem[opp] := mem[headerp];
      mem[headerp] := opop;
    }

    /** One turn of the do loop that walks a thread. */
    method UnthreadOne(headerp: nat, newObjptr: int, ghost d: Desc, ghost lo: nat, ghost th: Threads, ghost t: nat)
      requires d.Layout() && Threaded(mem[..], d, lo, th)
      requires lo <= t < |d.live| && headerp == d.live[t].p - 1 && newObjptr == Ptr(d.newP[t])
      requires th.chains[t] != []
      modifies mem
      ensures Threaded(mem[..], d, lo, th.Pop(t))
      ensures forall a: nat | a < mem.Length && !d.ActiveWord(lo, a) :: mem[a] == old(mem[a])
    {
      ghost var m := mem[..];
      ghost var x := th.chains[t][0];
      UnthreadStep(m, d, lo, th, t);
      assert Linked(m, headerp, d.orig[headerp], th.chains[t]);
      assert th.ThreadOk(d, t) && x in th.chains[t] && th.OnThread(d, t, x);
      assert d.words[headerp] == Head(t);
      var cur := Addr(mem[headerp]);
      mem[headerp] := mem[cur];
      mem[cur] := newObjptr;
      assert mem[..] == m[x := newObjptr][headerp := m[x]];
    }

    /** The do loop that walks a thread and stores the new address in every slot on it. */
    method Unthread(p: nat, gap: nat, ghost d: Desc, ghost lo: nat, ghost th: Threads, ghost t: nat)
      returns (header: int)
      requires d.Layout() && Threaded(mem[..], d, lo, th)
      requires lo <= t < |d.live| && p == d.live[t].p && p - gap == d.newP[t]
      modifies mem
      ensures Threaded(mem[..], d, lo, th.Drain(t))
      ensures header == mem[p - 1] == d.orig[p - 1]
      ensures forall a: nat | a < mem.Length && !d.ActiveWord(lo, a) :: mem[a] == old(mem[a])
    {
      var newObjptr := Ptr(p - gap);
      ghost var th' := th;
      HeaderWord(mem[..], d, lo, th', t);
      header := mem[p - 1];
      while !IsHeader(header)
        invariant Threaded(mem[..], d, lo, th') && th'.Drain(t) == th.Drain(t)
        invariant header == mem[p - 1]
        invariant IsHeader(header) <==> th'.chains[t] == []
        invariant th'.chains[t] == [] ==> header == d.orig[p - 1]
        invariant forall a: nat | a < mem.Length && !d.ActiveWord(lo, a) :: mem[a] == old(mem[a])
        decreases |th'.chains[t]|
      {
        UnthreadOne(p - 1, newObjptr, d, lo, th', t);
        PopDrain(th', t);
        th' := th'.Pop(t);
        HeaderWord(mem[..], d, lo, th', t);
        header := mem[p - 1];
      }
      assert th'.chains[t := []] == th'.chains;
      assert th'.Drain(t) == th';
    }

    /** foreachObjptrInObject (s, p, threadInternalObjptr, FALSE), on the slots of object `k`. */
    method ThreadObject(slots: seq<nat>, ghost d: Desc, ghost th: Threads, ghost k: nat)
      returns (ghost th': Threads)
      requires d.Layout() && Threaded(mem[..], d, 0, th)
      requires k < |d.live| && slots == d.live[k].slots && SlotsListed(d, k) && InsidePhase(d, th, k, {})
      modifies mem
      ensures Threaded(mem[..], d, 0, th') && ForwardPhase(d, th', k + 1)
      ensures forall a: nat | a < mem.Length && a !in d.words :: mem[a] == old(mem[a])
    {
      th' := th;
      ghost var seen := {};
      for i := 0 to |slots|
        invariant Threaded(mem[..], d, 0, th') && InsidePhase(d, th', k, seen)
        invariant forall j | 0 <= j < |slots| && SlotListed(d, k, slots[j]) && d.words[slots[j]].Slot? ::
                    slots[j] in seen <==> j < i
        invariant seen <= set x | x in d.live[k].slots
        invariant forall a: nat | a < mem.Length && a !in d.words :: mem[a] == old(mem[a])
      {
        var x := slots[i];
        assert SlotListed(d, k, x);
        assert mem[..][x] == d.orig[x];
        if IsObjptr(mem[x]) {
          th' := ThreadSlot(x, d, th', k, seen);
          seen := seen + {x};
        }
      }
      LeaveObject(d, th', k, seen);
    }

    method ThreadSlot(x: nat, ghost d: Desc, ghost th: Threads, ghost k: nat, ghost seen: set<nat>)
      returns (ghost th': Threads)
      requires d.Layout() && Threaded(mem[..], d, 0, th) && InsidePhase(d, th, k, seen)
      requires x in d.words && d.words[x].Slot? && d.words[x].owner == k && x !in seen
      modifies mem
      ensures Threaded(mem[..], d, 0, th') && InsidePhase(d, th', k, seen + {x})
      ensures forall a: nat | a < mem.Length && a !in d.words :: mem[a] == old(mem[a])
    {
      hide Threaded, InsidePhase, Desc.Layout;
      ghost var t := d.words[x].target;
      ghost var m := mem[..];
      VisitSlot(m, d, th, k, seen, x);
      ThreadInternalObjptr(x);
      th' := th.Push(t, x);
    }

    /** The words of a live object, from its real header (lines 130-161 and 266-306). */
    method MarkedSize(header: int, p: nat) returns (size: nat, slots: seq<nat>)
      requires 0 < p <= mem.Length && ValidHeader(types, header)
      requires types[TypeIndex(header)].tag.ArrayTag? ==> p >= 2 && mem[p - 2] >= 0
      ensures var t := types[TypeIndex(header)];
              var length := if t.tag.ArrayTag? then mem[p - 2] else 0;
              && size == (if t.tag.ArrayTag? then ARRAY_HEADER_WORDS else 1) + BodyWords(t, length)
              && slots == SlotsOf(t, length, p)
    {
      var t := types[TypeIndex(header)];
      if t.tag.ArrayTag? {
        size := ARRAY_HEADER_WORDS + BodyWords(t, mem[p - 2]);
        slots := SlotsOf(t, mem[p - 2], p);
      } else {
        size := 1 + BodyWords(t, 0);
        slots := SlotsOf(t, 0, p);
      }
    }

    /** A live object still has its original size and slots. */
    method LiveSize(header: int, p: nat, ghost d: Desc, ghost lo: nat, ghost th: Threads, ghost k: nat)
      returns (size: nat, slots: seq<nat>)
      requires d.Layout() && d.types == types && Threaded(mem[..], d, lo, th)
      requires lo <= k < |d.live| && d.ObjectOk(k) && p == d.live[k].p && 0 < p <= |d.orig| && header == d.orig[p - 1]
      ensures size == d.live[k].end - d.live[k].front && slots == d.live[k].slots
    {
      FrontWord(mem[..], d, lo, th, k);
      size, slots := MarkedSize(header, p);
    }

    /** Lines 165-186: a long enough run of dead words before a live object becomes one vector. */
    method CompressDead(endOfLastMarked: nat, front: nat)
      requires endOfLastMarked <= front <= mem.Length
      modifies mem
      ensures mem[..] == Compressed(old(mem[..]), endOfLastMarked, front)
    {
      if front - endOfLastMarked >= ARRAY_HEADER_WORDS + 1 {
        var newArray := endOfLastMarked;
        mem[newArray] := 0;
        newArray := newArray + 1;
        mem[newArray] := 4 * (front - endOfLastMarked) - 4 * ARRAY_HEADER_WORDS;
        newArray := newArray + 1;
        mem[newArray] := GC_WORD8_VECTOR_HEADER;
      }
    }

    /** Lines 200-221, for the forward pointers to object `k`. */
    method ResolveForward(p: nat, gap: nat, ghost d: Desc, ghost th: Threads, ghost k: nat)
      returns (header: int)
      requires Ready(d) && ForwardState(mem[..], d, th, k) && k < |d.live| && p == d.live[k].p && p - gap == d.newP[k]
      modifies mem
      ensures InsideState(mem[..], d, th.Drain(k), k)
      ensures header == d.orig[p - 1]
    {
      ghost var m := mem[..];
      header := Unthread(p, gap, d, 0, th, k);
      DrainForward(d, th, k);
      GapsFrame(m, mem[..], d);
    }

    method CompressGap(endOfLastMarked: nat, front: nat, ghost d: Desc, ghost th: Threads, ghost k: nat)
      requires Ready(d) && InsideState(mem[..], d, th, k) && k < |d.live|
      requires endOfLastMarked == d.GapStart(k) <= front == d.GapEnd(k)
      modifies mem
      ensures InsideState(mem[..], d, th, k) && Vectors(mem[..], d, k + 1)
    {
      ghost var m := mem[..];
      WordsInMemory(d);
      assert GapClear(d, k);
      CompressedWords(m, d, k);
      CompressedGaps(m, d, k);
      CompressDead(endOfLastMarked, front);
      ThreadedFrame(m, mem[..], d, 0, th);
    }

    method ThreadLive(slots: seq<nat>, ghost d: Desc, ghost th: Threads, ghost k: nat) returns (ghost th': Threads)
      requires Ready(d) && InsideState(mem[..], d, th, k) && Vectors(mem[..], d, k + 1)
      requires k < |d.live| && slots == d.live[k].slots
      modifies mem
      ensures ForwardState(mem[..], d, th', k + 1)
    {
      ghost var m := mem[..];
      assert SlotsListed(d, k);
      th' := ThreadObject(slots, d, th, k);
      GapsFrame(m, mem[..], d);
    }

    /** The forward pass on the live object at `front`. */
    method ForwardLive(front: nat, gap: nat, endOfLastMarked: nat, ghost d: Desc, ghost th: Threads, ghost k: nat)
      returns (size: nat, ghost th': Threads)
      requires Ready(d) && ForwardState(mem[..], d, th, k) && d.types == types
      requires k < |d.live| && front == d.live[k].front && endOfLastMarked == d.GapStart(k) <= front
      requires front - gap + d.live[k].p - d.live[k].front == d.newP[k]
      modifies mem
      ensures ForwardState(mem[..], d, th', k + 1)
      ensures front + size == d.live[k].end
    {
      FrontWord(mem[..], d, 0, th, k);
      var p := AdvanceToObjectData(front);
      var header := ResolveForward(p, gap, d, th, k);
      var slots;
      size, slots, th' := ForwardThread(header, p, front, endOfLastMarked, d, th.Drain(k), k);
    }

    /** Lines 122-191: from the label `thread` on. */
    method ForwardThread(header: int, p: nat, front: nat, endOfLastMarked: nat, ghost d: Desc, ghost th: Threads,
                        ghost k: nat)
      returns (size: nat, slots: seq<nat>, ghost th': Threads)
      requires Ready(d) && InsideState(mem[..], d, th, k) && d.types == types
      requires k < |d.live| && front == d.live[k].front && endOfLastMarked == d.GapStart(k) <= front
      requires p == d.live[k].p && p <= |d.orig| && header == d.orig[p - 1]
      modifies mem
      ensures ForwardState(mem[..], d, th', k + 1)
      ensures front + size == d.live[k].end
    {
      assert d.ObjectOk(k);
      size, slots := LiveSize(header, p, d, 0, th, k);
      CompressGap(endOfLastMarked, front, d, th, k);
      th' := ThreadLive(slots, d, th, k);
    }

    /** The turn of the forward loop that handles live object `k`. */
    method ForwardLiveTurn(front: nat, gap: nat, endOfLastMarked: nat, ghost d: Desc, ghost th: Threads, ghost k: nat)
      returns (front': nat, ghost th': Threads)
      requires Ready(d) && ForwardLoop(mem[..], d, th, k, front, gap, endOfLastMarked) && d.types == types
      requires k < |d.live| && front == d.live[k].front
      modifies mem
      ensures ForwardLoop(mem[..], d, th', k + 1, front', gap, front')
      ensures front < front' <= d.back && (front' == d.back ==> k + 1 == |d.live|)
    {
      assert PassOk(d, k) && d.HeadOk(k) && d.ObjectOk(k);
      var size;
      size, th' := ForwardLive(front, gap, endOfLastMarked, d, th, k);
      front' := front + size;
      assert GapClear(d, k + 1) && PassOk(d, k + 1);
      NextGap(mem[..], d, k + 1);
    }

    method UpdateForwardPointers(ghost d: Desc, ghost th: Threads) returns (ghost th': Threads)
      requires Ready(d) && ForwardState(mem[..], d, th, 0)
      requires d.types == types && d.start == start && d.back == start + oldGenSize
      modifies mem
      ensures ForwardState(mem[..], d, th', |d.live|) && Vectors(mem[..], d, |d.live|)
    {
      var front := start;
      var back := start + oldGenSize;
      var gap: nat := 0;
      var endOfLastMarked: nat := front;
      ghost var k: nat := 0;
      th' := th;
      ForwardBegins(mem[..], d, th);
      while front != back
        invariant ForwardLoop(mem[..], d, th', k, front, gap, endOfLastMarked)
        invariant front <= back && (front == back ==> k == |d.live|)
        decreases back - front
      {
        front, gap, endOfLastMarked, th', k := ForwardTurn(front, gap, endOfLastMarked, d, th', k);
      }
    }

    method ForwardTurn(front: nat, gap: nat, endOfLastMarked: nat, ghost d: Desc, ghost th: Threads, ghost k: nat)
      returns (front': nat, gap': nat, endOfLastMarked': nat, ghost th': Threads, ghost k': nat)
      requires Ready(d) && ForwardLoop(mem[..], d, th, k, front, gap, endOfLastMarked) && d.types == types
      requires front < d.back
      modifies mem
      ensures ForwardLoop(mem[..], d, th', k', front', gap', endOfLastMarked')
      ensures front < front' <= d.back && (front' == d.back ==> k' == |d.live|)
    {
      hide *;
      TurnKind(mem[..], d, th, k, front, gap, endOfLastMarked);
      if IsDead(mem[..], front) {
        SkipDead(mem[..], d, th, k, front, gap, endOfLastMarked);
        var size := SizeAt(mem[..], types, front);
        return front + size, gap + size, endOfLastMarked, th, k;
      }
      front', th' := ForwardLiveTurn(front, gap, endOfLastMarked, d, th, k);
      return front', gap, front', th', k + 1;
    }

    /** GC_memmove from `src` down to `dst`. */
    method Memmove(src: nat, dst: nat, size: nat)
      requires dst <= src && src + size <= mem.Length
      modifies mem
      ensures mem[..] == Slid(old(mem[..]), src, dst, size)
    {
      for i := 0 to size
        invariant forall a | 0 <= a < mem.Length && !(dst <= a < dst + i) :: mem[a] == old(mem[a])
        invariant forall a | dst <= a < dst + i :: mem[a] == old(mem[a + (src - dst)])
      {
        mem[dst + i] := mem[src + i];
      }
    }

    /** Lines 340-351, for the backward pointers to object `k`. */
    method ResolveBackward(p: nat, gap: nat, ghost d: Desc, ghost th: Threads, ghost k: nat)
      returns (header: int)
      requires Ready(d) && BackwardState(mem[..], d, th, k)
      requires k < |d.live| && p == d.live[k].p && 0 < p <= mem.Length && p - gap == d.newP[k]
      modifies mem
      ensures |th.chains| == |d.live| && ResolvedState(mem[..], d, th.Drain(k), k)
      ensures header == d.orig[p - 1]
    {
      ghost var m := mem[..];
      header := Unthread(p, gap, d, k, th, k);
      ResolvedFrame(m, mem[..], d, th, k);
    }

    /** The backward pass on live object `k`: lines 330-353 and 258-319. */
    method BackwardLive(front: nat, gap: nat, ghost d: Desc, ghost th: Threads, ghost k: nat)
      returns (size: nat)
      requires Ready(d) && BackwardState(mem[..], d, th, k) && d.types == types
      requires k < |d.live| && front == d.live[k].front && front - gap == d.Dest(k)
      modifies mem
      ensures |th.chains| == |d.live| && BackwardState(mem[..], d, th.Drain(k), k + 1)
      ensures front + size == d.live[k].end
    {
      hide *;
      AtLive(mem[..], d, th, k);
      var p := front + HeaderWords(mem[front]);
      var header := ResolveBackward(p, gap, d, th, k);
      AtResolved(mem[..], d, th.Drain(k), k);
      var slots;
      size, slots := LiveSize(header, p, d, k, th.Drain(k), k);
      ghost var m := mem[..];
      SlideStep(m, d, th.Drain(k), k);
      mem[p - 1] := header - MARK_MASK;
      Memmove(front, front - gap, size);
    }

    method UpdateBackwardPointersAndSlide(ghost d: Desc, ghost th: Threads) returns (ghost th': Threads)
      requires Ready(d) && BackwardState(mem[..], d, th, 0)
      requires d.types == types && d.start == start && d.back == start + oldGenSize
      modifies mem, `oldGenSize
      ensures BackwardState(mem[..], d, th', |d.live|)
      ensures oldGenSize == d.LiveWords(|d.live|)
    {
      hide *;
      ReadyLayout(d);
      var front := start;
      var back := start + oldGenSize;
      var gap: nat := 0;
      ghost var k: nat := 0;
      th' := th;
      BackwardBegins(mem[..], d, th);
      while front != back
        invariant BackwardLoop(mem[..], d, th', k, front, gap)
        invariant front <= back && (front == back ==> k == |d.live|)
        decreases back - front
      {
        front, gap, th', k := BackwardTurn(front, gap, d, th', k);
      }
      BackwardEnds(mem[..], d, th', k, front, gap);
      oldGenSize := front - gap - start;
    }

    method BackwardTurn(front: nat, gap: nat, ghost d: Desc, ghost th: Threads, ghost k: nat)
      returns (front': nat, gap': nat, ghost th': Threads, ghost k': nat)
      requires Ready(d) && BackwardLoop(mem[..], d, th, k, front, gap) && d.types == types
      requires front < d.back
      modifies mem
      ensures BackwardLoop(mem[..], d, th', k', front', gap')
      ensures front < front' <= d.back && (front' == d.back ==> k' == |d.live|)
    {
      hide *;
      BackwardKind(mem[..], d, th, k, front, gap);
      if IsDead(mem[..], front) {
        BackwardSkip(mem[..], d, th, k, front, gap);
        var size := SizeAt(mem[..], types, front);
        return front + size, gap + size, th, k;
      }
      var size := BackwardLive(front, gap, d, th, k);
      BackwardNext(mem[..], d, th.Drain(k), k, gap);
      return front + size, gap, th.Drain(k), k + 1;
    }

    /** foreachGlobalObjptr (s, threadInternalObjptr), mark-compact.c:392 */
    method ThreadGlobals(ghost d: Desc) returns (ghost th: Threads)
      requires Ready(d) && d.start == start && mem[..] == d.orig && GapsDead(mem[..], d)
      modifies mem
      ensures ForwardState(mem[..], d, th, 0)
    {
      hide ForwardState, InsideState, Threaded, GlobalsState, GapsDead, Desc.WordOk, Desc.SlotOk;
      th := Threads(seq(|d.live|, _ => []), {}, {});
      NothingThreaded(d, th);
      var x := 1;
      while x < start
        invariant 1 <= x && x <= start && GlobalsState(mem[..], d, th, x)
      {
        th := ThreadGlobal(x, d, th);
        x := x + 1;
      }
      GlobalsDone(mem[..], d, th);
    }

    method ThreadGlobal(x: nat, ghost d: Desc, ghost th: Threads) returns (ghost th': Threads)
      requires Ready(d) && GlobalsState(mem[..], d, th, x) && 0 < x < d.start
      modifies mem
      ensures GlobalsState(mem[..], d, th', x + 1)
    {
      hide Threaded, GlobalsState, GapsDead, Desc.WordOk, Desc.SlotOk;
      GlobalSlot(mem[..], d, th, x);
      hide Ready, Desc.Layout;
      th' := th;
      if IsObjptr(mem[x]) {
        ThreadInternalObjptr(x);
        th' := th.Push(d.words[x].target, x);
      }
    }

    /** majorMarkCompactGC after the mark phase (mark-compact.c:392-394). Every live word ends up at
      its new place with its final value, and so does every global. */
    method MarkCompactGC(ghost d: Desc)
      requires Describes(d) && mem[..] == d.orig && GapsDead(mem[..], d)
      modifies mem, `oldGenSize
      ensures Compacted(mem[..], d)
      ensures oldGenSize == d.LiveWords(|d.live|)
    {
      hide *;
      DescribesReady(d);
      ghost var th := ThreadGlobals(d);
      th := UpdateForwardPointers(d, th);
      ForwardToBackward(mem[..], d, th);
      th := UpdateBackwardPointersAndSlide(d, th);
      BackwardFinal(mem[..], d, th);
    }

    lemma DescribesReady(d: Desc)
      requires Describes(d)
      ensures Ready(d) && d.types == types && d.start == start && d.back == start + oldGenSize
      ensures d.Valid() && |d.orig| == mem.Length
    {
      ValidReady(d);
    }
  }

  /** The heap after compaction. */
  ghost predicate Compacted(m: seq<int>, d: Desc) {
    && |m| == |d.orig|
    && (forall k | 0 <= k < |d.live| :: MovedObj(m, d, k))
    && (forall x | 0 < x < d.start && x < |m| :: m[x] == d.Final(x))
  }

  /** Memory `m` after `size` words have been moved from `src` to `dst`. */
  ghost function Slid(m: seq<int>, src: nat, dst: nat, size: nat): seq<int>
    requires dst <= src && src + size <= |m|
  {
    seq(|m|, a requires 0 <= a < |m| => if dst <= a < dst + size then m[a + (src - dst)] else m[a])
  }

  /** A pass that is not at the end is at a dead object or at live object `k`. */
  lemma TurnKind(m: seq<int>, d: Desc, th: Threads, k: nat, front: nat, gap: nat, endOfLastMarked: nat)
    requires Ready(d) && ForwardLoop(m, d, th, k, front, gap, endOfLastMarked) && front < d.back
    ensures front < |m| && front + HeaderWords(m[front]) <= |m|
    ensures !IsDead(m, front) ==> k < |d.live| && front == d.live[k].front
    ensures IsDead(m, front) ==> k <= |d.live| && front < d.GapEnd(k)
  {
    assert PassOk(d, k);
    if front < d.GapEnd(k) { DeadHeader(m, d, k, front); }
    else { LiveHeader(m, d, 0, th, k); }
  }

  /** Lines 192-198: skipping a dead object. */
  lemma SkipDead(m: seq<int>, d: Desc, th: Threads, k: nat, front: nat, gap: nat, endOfLastMarked: nat)
    requires Ready(d) && ForwardLoop(m, d, th, k, front, gap, endOfLastMarked) && front < d.GapEnd(k)
    ensures ObjectAt(m, d.types, front) && SizeAt(m, d.types, front) > 0
    ensures var size := SizeAt(m, d.types, front);
            && ForwardLoop(m, d, th, k, front + size, gap + size, endOfLastMarked)
            && front + size <= d.back && (front + size == d.back ==> k == |d.live|)
  {
    assert PassOk(d, k);
    hide Ready, ForwardState;
  }

  lemma ForwardBegins(m: seq<int>, d: Desc, th: Threads)
    requires Ready(d) && ForwardState(m, d, th, 0)
    ensures ForwardLoop(m, d, th, 0, d.start, 0, d.start)
    ensures d.start <= d.back && (d.start == d.back ==> |d.live| == 0)
  {
    assert GapClear(d, 0) && PassOk(d, 0);
    NextGap(m, d, 0);
  }

  ghost predicate ForwardLoop(m: seq<int>, d: Desc, th: Threads, k: nat, front: nat, gap: nat, endOfLastMarked: nat)
    requires d.Layout()
  {
    && ForwardState(m, d, th, k) && k <= |d.live|
    && endOfLastMarked == d.GapStart(k) && InGap(m, d, k, front)
    && front - gap == d.Dest(k)
  }

  /** The pass is at `front` in gap `k`, and what is left of the gap is dead objects. */
  ghost predicate InGap(m: seq<int>, d: Desc, k: nat, front: nat)
    requires k <= |d.live|
  {
    d.GapStart(k) <= front <= d.GapEnd(k) <= |m| && DeadRun(m, d.types, front, d.GapEnd(k))
  }

  lemma NextGap(m: seq<int>, d: Desc, k: nat)
    requires k <= |d.live| && GapClear(d, k) && |m| == |d.orig| && GapsDead(m, d)
    ensures InGap(m, d, k, d.GapStart(k))
  {}

  lemma DeadHeader(m: seq<int>, d: Desc, k: nat, front: nat)
    requires k <= |d.live| && InGap(m, d, k, front) && front < d.GapEnd(k)
    ensures front + HeaderWords(m[front]) <= |m|
    ensures var h := m[front + HeaderWords(m[front]) - 1]; IsHeader(h) && !IsMarked(h)
  {}

  /** The word where the passes look for a header does not look dead at a live object. */
  lemma LiveHeader(m: seq<int>, d: Desc, lo: nat, th: Threads, k: nat)
    requires d.Layout() && Threaded(m, d, lo, th) && lo <= k < |d.live|
    ensures var front := d.live[k].front;
            && front < |m| && front + HeaderWords(m[front]) <= |m|
            && var h := m[front + HeaderWords(m[front]) - 1];
               !(IsHeader(h) && !IsMarked(h))
  {
    FrontWord(m, d, lo, th, k);
    HeaderWord(m, d, lo, th, k);
    assert d.HeadOk(k);
  }

  ghost predicate ForwardState(m: seq<int>, d: Desc, th: Threads, k: nat)
    requires d.Layout()
  {
    Threaded(m, d, 0, th) && GapsDead(m, d) && ForwardPhase(d, th, k) && Vectors(m, d, k)
  }

  ghost predicate InsideState(m: seq<int>, d: Desc, th: Threads, k: nat)
    requires d.Layout()
  {
    Threaded(m, d, 0, th) && GapsDead(m, d) && InsidePhase(d, th, k, {}) && Vectors(m, d, k)
  }

  /** The vector written over gap `k` is one dead object that fills the gap. */
  lemma VectorFills(m: seq<int>, types: seq<ObjType>, e: nat, f: nat)
    requires |types| > WORD8_VECTOR_TYPE_INDEX && types[WORD8_VECTOR_TYPE_INDEX] == ObjType(ArrayTag, 1, 0)
    requires e + ARRAY_HEADER_WORDS < f <= |m|
    requires m[e] == 0 && m[e + 1] == 4 * (f - e) - 4 * ARRAY_HEADER_WORDS && m[e + 2] == GC_WORD8_VECTOR_HEADER
    ensures DeadRun(m, types, e, f)
  {}

  /** Memory `m` with a byte vector over the words from `e` to `f`, if a vector fits there. */
  function Compressed(m: seq<int>, e: nat, f: nat): seq<int>
    requires e <= f <= |m|
  {
    if f - e >= ARRAY_HEADER_WORDS + 1 then
      m[e := 0][e + 1 := 4 * (f - e) - 4 * ARRAY_HEADER_WORDS][e + 2 := GC_WORD8_VECTOR_HEADER]
    else m
  }

  lemma CompressedWords(m: seq<int>, d: Desc, k: nat)
    requires k < |d.live| && |m| == |d.orig| && GapClear(d, k)
    ensures forall a | a in d.words && a < |m| :: Compressed(m, d.GapStart(k), d.GapEnd(k))[a] == m[a]
  {}

  lemma WordsInMemory(d: Desc)
    requires d.Layout()
    ensures forall a | a in d.words :: 0 < a < |d.orig|
  {}

  lemma CompressedGaps(m: seq<int>, d: Desc, k: nat)
    requires TypesOk(d) && GapsOrdered(d) && GapsDead(m, d) && k < |d.live|
    requires d.GapStart(k) <= d.GapEnd(k) <= |m|
    ensures GapsDead(Compressed(m, d.GapStart(k), d.GapEnd(k)), d)
    ensures Vectors(m, d, k) ==> Vectors(Compressed(m, d.GapStart(k), d.GapEnd(k)), d, k + 1)
  {
    var m' := Compressed(m, d.GapStart(k), d.GapEnd(k));
    forall j | 0 <= j <= k && (j < k ==> OneVector(m, d.GapStart(j), d.GapEnd(j)))
      ensures OneVector(m', d.GapStart(j), d.GapEnd(j))
    {
      assert j < k ==> GapPair(d, j, k);
    }
    forall j | 0 <= j <= |d.live|
      ensures DeadRun(m', d.types, d.GapStart(j), d.GapEnd(j))
    {
      if m' == m {
      } else if j == k {
        VectorFills(m', d.types, d.GapStart(k), d.GapEnd(k));
      } else {
        assert if j < k then GapPair(d, j, k) else GapPair(d, k, j);
        DeadRunFrame(m, m', d.types, d.GapStart(j), d.GapEnd(j));
      }
    }
  }

  // ------------------------------------------------------------------ the backward pass

  /** Object `j` is at its new place with its final contents. */
  ghost predicate MovedObj(m: seq<int>, d: Desc, j: nat)
    requires j < |d.live|
  {
    && 0 <= d.Dest(j) && d.Dest(j) + d.live[j].end - d.live[j].front <= |m|
    && forall a | d.Dest(j) <= a < d.Dest(j) + d.live[j].end - d.live[j].front ::
         m[a] == d.Final(a - d.Dest(j) + d.live[j].front)
  }

  ghost predicate Moved(m: seq<int>, d: Desc, k: nat)
    requires k <= |d.live|
  {
    forall j | 0 <= j < k :: MovedObj(m, d, j)
  }

  ghost predicate DeadFrom(m: seq<int>, d: Desc, k: nat) {
    forall j | k <= j <= |d.live| :: DeadRun(m, d.types, d.GapStart(j), d.GapEnd(j))
  }

  ghost predicate BackwardState(m: seq<int>, d: Desc, th: Threads, k: nat)
    requires d.Layout()
  {
    k <= |d.live| && Threaded(m, d, k, th) && BackwardPhase(d, th, k) && Moved(m, d, k) && DeadFrom(m, d, k)
  }

  lemma AtLive(m: seq<int>, d: Desc, th: Threads, k: nat)
    requires Ready(d) && BackwardState(m, d, th, k) && k < |d.live|
    ensures d.live[k].front < |m| && d.live[k].p == d.live[k].front + HeaderWords(m[d.live[k].front])
    ensures d.Layout() && Threaded(m, d, k, th) && d.ObjectOk(k) && 0 < d.live[k].p <= |d.orig|
    ensures d.newP[k] == d.Dest(k) + d.live[k].p - d.live[k].front
  {
    FrontWord(m, d, k, th, k);
    assert PassOk(d, k) && d.HeadOk(k);
  }

  /** Between the resolution of the thread of object `k` and its move. */
  ghost predicate ResolvedState(m: seq<int>, d: Desc, th: Threads, k: nat)
    requires d.Layout()
  {
    && k < |d.live| && Threaded(m, d, k, th) && th.chains[k] == [] && BackwardPhase(d, th, k + 1)
    && Moved(m, d, k) && DeadFrom(m, d, k)
  }

  lemma AtResolved(m: seq<int>, d: Desc, th: Threads, k: nat)
    requires Ready(d) && ResolvedState(m, d, th, k)
    ensures Threaded(m, d, k, th)
  {}

  lemma ReadyGap(d: Desc, k: nat)
    requires Ready(d) && k <= |d.live|
    ensures |d.newP| == |d.live| && PassOk(d, k) && GapClear(d, k)
  {}

  lemma ReadyLayout(d: Desc)
    requires Ready(d)
    ensures d.Layout()
  {}

  lemma ReadyWord(d: Desc, x: nat)
    requires Ready(d) && x in d.words
    ensures WordPlaced(d, x)
  {}

  lemma ReadyObject(d: Desc, k: nat)
    requires Ready(d) && k < |d.live|
    ensures d.live[k].front < d.live[k].p <= d.live[k].end
  {}

  /** Active words lie past the gap they are counted from, or are globals. */
  lemma ActiveBounds(d: Desc, lo: nat, a: nat)
    requires Ready(d) && lo <= |d.live| && d.ActiveWord(lo, a)
    ensures a < d.start || d.GapStart(lo) <= a < d.back
  {
    hide Ready;
    ReadyWord(d, a);
    ReadyGap(d, lo);
    if a >= d.start {
      var o := match d.words[a] case Head(t) => t case Slot(o, _) => o case Plain(o) => o;
      OwnerBounds(d, lo, o);
    }
  }

  lemma OwnerBounds(d: Desc, lo: nat, o: nat)
    requires Ready(d) && lo <= o < |d.live|
    ensures d.GapStart(lo) <= d.live[o].front && d.live[o].end <= d.back
  {
    hide Ready;
    ReadyGap(d, o);
    ReadyGap(d, o + 1);
    if 0 < lo { FrontAfter(d, lo - 1, o); } else { ReadyGap(d, 0); }
  }

  lemma {:induction false} FrontAfter(d: Desc, j: nat, o: nat)
    requires Ready(d) && j < o < |d.live|
    ensures d.live[j].end <= d.live[o].front
    decreases o - j
  {
    ReadyGap(d, o);
    if j + 1 < o {
      FrontAfter(d, j, o - 1);
      ReadyObject(d, o - 1);
    }
  }

  lemma ResolvedMoved(m: seq<int>, m': seq<int>, d: Desc, k: nat)
    requires Ready(d) && k < |d.live| && Moved(m, d, k) && |m'| == |m|
    requires forall a: nat | a < |m| && !d.ActiveWord(k, a) :: m'[a] == m[a]
    ensures Moved(m', d, k)
  {
    hide Ready;
    forall j | 0 <= j < k ensures MovedObj(m', d, j) {
      assert MovedObj(m, d, j);
      MovedFrame(m, m', d, j, k);
    }
  }

  lemma ResolvedDead(m: seq<int>, m': seq<int>, d: Desc, k: nat)
    requires Ready(d) && k < |d.live| && DeadFrom(m, d, k) && |m'| == |m| == |d.orig|
    requires forall a: nat | a < |m| && !d.ActiveWord(k, a) :: m'[a] == m[a]
    ensures DeadFrom(m', d, k)
  {
    forall j | k <= j <= |d.live| ensures DeadRun(m', d.types, d.GapStart(j), d.GapEnd(j)) {
      ReadyGap(d, j);
      DeadRunFrame(m, m', d.types, d.GapStart(j), d.GapEnd(j));
    }
  }

  lemma ResolvedFrame(m: seq<int>, m': seq<int>, d: Desc, th: Threads, k: nat)
    requires Ready(d) && BackwardState(m, d, th, k) && k < |d.live|
    requires Threaded(m', d, k, th.Drain(k))
    requires forall a: nat | a < |m| && !d.ActiveWord(k, a) :: m'[a] == m[a]
    ensures ResolvedState(m', d, th.Drain(k), k)
  {
    DrainBackward(d, th, k);
    ResolvedMoved(m, m', d, k);
    ResolvedDead(m, m', d, k);
  }

  lemma {:induction false} DestSteps(d: Desc, j: nat, k: nat)
    requires Ready(d) && j < k <= |d.live|
    ensures d.start <= d.Dest(j) && d.Dest(j) + d.live[j].end - d.live[j].front <= d.Dest(k) <= d.GapStart(k)
    decreases k - j
  {
    DestStep(d, j);
    if j + 1 < k {
      hide Ready;
      DestSteps(d, j + 1, k);
      DestStep(d, j + 1);
    } else {
      assert PassOk(d, k);
    }
  }

  lemma DestStep(d: Desc, j: nat)
    requires Ready(d) && j < |d.live|
    ensures d.start <= d.Dest(j) && d.live[j].front <= d.live[j].end
    ensures d.Dest(j) + d.live[j].end - d.live[j].front == d.Dest(j + 1)
  {
    assert PassOk(d, j) && PassOk(d, j + 1) && d.ObjectOk(j);
  }

  lemma MovedFrame(m: seq<int>, m': seq<int>, d: Desc, j: nat, k: nat)
    requires Ready(d) && j < k <= |d.live| && MovedObj(m, d, j) && |m'| == |m|
    requires forall a: nat | a < |m| && !d.ActiveWord(k, a) :: m'[a] == m[a]
    ensures MovedObj(m', d, j)
  {
    DestSteps(d, j, k);
    forall a | d.Dest(j) <= a < d.Dest(j) + d.live[j].end - d.live[j].front
      ensures m'[a] == m[a]
    {
      if d.ActiveWord(k, a) { ActiveBounds(d, k, a); }
    }
  }

  /** The object that is about to move, once its mark is cleared. */
  lemma FinalContents(m: seq<int>, d: Desc, th: Threads, k: nat, a: nat)
    requires Ready(d) && ResolvedState(m, d, th, k)
    requires d.live[k].front <= a < d.live[k].end && 0 < d.live[k].p <= |m|
    requires a in d.words && InObject(d, k, a)
    ensures a < |m| && m[d.live[k].p - 1 := d.orig[d.live[k].p - 1] - MARK_MASK][a] == d.Final(a)
  {}

  ghost predicate InObject(d: Desc, k: nat, a: nat)
    requires a in d.words && k < |d.live|
  {
    match d.words[a]
    case Head(t) => t == k && a + 1 == d.live[k].p
    case Slot(o, _) => o == k
    case Plain(o) => o == k
  }

  lemma ObjectContents(m: seq<int>, d: Desc, th: Threads, k: nat, u: seq<int>)
    requires Ready(d) && ResolvedState(m, d, th, k) && 0 < d.live[k].p <= |m|
    requires u == m[d.live[k].p - 1 := d.orig[d.live[k].p - 1] - MARK_MASK]
    ensures d.live[k].end <= |u|
    ensures forall a: nat | d.live[k].front <= a < d.live[k].end :: u[a] == d.Final(a)
  {
    ObjectEnds(m, d, th, k);
    hide Ready, ResolvedState, Desc.Final, ObjectFilled, InObject, Desc.Layout;
    forall a: nat | d.live[k].front <= a < d.live[k].end
      ensures u[a] == d.Final(a)
    {
      FilledAt(d, k, a);
      FinalContents(m, d, th, k, a);
    }
  }

  lemma ObjectEnds(m: seq<int>, d: Desc, th: Threads, k: nat)
    requires Ready(d) && ResolvedState(m, d, th, k) && k < |d.live|
    ensures d.live[k].end <= |m| == |d.orig| && ObjectFilled(d, k)
  {
    assert ObjectFilled(d, k) && GapClear(d, k + 1);
  }

  lemma FilledAt(d: Desc, k: nat, a: nat)
    requires k < |d.live| && ObjectFilled(d, k) && d.live[k].front <= a < d.live[k].end
    ensures a in d.words && InObject(d, k, a)
  {}

  ghost predicate ObjectFilled(d: Desc, k: nat)
    requires k < |d.live|
  {
    forall a | d.live[k].front <= a < d.live[k].end :: a in d.words && InObject(d, k, a)
  }

  lemma ObjectIsFilled(d: Desc, k: nat)
    requires k < |d.live| && d.ObjectWordsOk(k)
    ensures ObjectFilled(d, k)
  {}

  /** The addresses the move of object `k` may change: none that is still in use. */
  ghost predicate SlideFrame(m: seq<int>, m': seq<int>, d: Desc, k: nat)
    requires k < |d.live|
  {
    |m'| == |m| && forall a: nat | a < |m| && (a < d.Dest(k) || d.live[k].end <= a) :: m'[a] == m[a]
  }

  lemma SlideThreads(m: seq<int>, m': seq<int>, d: Desc, th: Threads, k: nat)
    requires Ready(d) && ResolvedState(m, d, th, k) && SlideFrame(m, m', d, k)
    ensures Threaded(m', d, k + 1, th)
  {
    assert PassOk(d, k);
    forall a | a in d.words && d.ActiveWord(k + 1, a) ensures a < |m| && m'[a] == m[a] {
      assert d.WordOk(a);
      ActiveBounds(d, k + 1, a);
    }
    assert Threaded(m, d, k + 1, th);
    ThreadedActiveFrame(m, m', d, k + 1, th);
  }

  /** Threads only depend on active words. */
  lemma ThreadedActiveFrame(m: seq<int>, m': seq<int>, d: Desc, lo: nat, th: Threads)
    requires d.Layout() && Threaded(m, d, lo, th) && |m'| == |m|
    requires forall a | a in d.words && d.ActiveWord(lo, a) :: a < |m| && m'[a] == m[a]
    ensures Threaded(m', d, lo, th)
  {
    forall t | lo <= t < |d.live|
      ensures Linked(m', d.live[t].p - 1, d.orig[d.live[t].p - 1], th.chains[t])
    {
      assert th.ThreadOk(d, t);
      assert d.words[d.live[t].p - 1] == Head(t) && d.ActiveWord(lo, d.live[t].p - 1);
      assert Linked(m, d.live[t].p - 1, d.orig[d.live[t].p - 1], th.chains[t]);
      forall i | 0 <= i < |th.chains[t]|
        ensures th.chains[t][i] < |m| && m'[th.chains[t][i]] == m[th.chains[t][i]]
      {
        assert th.chains[t][i] in th.chains[t];
        assert th.OnThread(d, t, th.chains[t][i]);
        assert d.ActiveWord(lo, th.chains[t][i]);
      }
      LinkedSame(m, m', d.live[t].p - 1, d.orig[d.live[t].p - 1], th.chains[t]);
    }
    forall x | x in d.words && d.words[x].Slot? && x !in th.pending && (d.words[x].owner < 0 || lo <= d.words[x].owner)
      ensures m'[x] == m[x]
    {
      assert d.ActiveWord(lo, x);
    }
    forall x | x in d.words && d.words[x].Plain? && (d.words[x].owner < 0 || lo <= d.words[x].owner)
      ensures m'[x] == m[x]
    {
      assert d.ActiveWord(lo, x);
    }
  }

  lemma SlideMoved(m: seq<int>, m': seq<int>, d: Desc, k: nat)
    requires Ready(d) && k < |d.live| && Moved(m, d, k) && SlideFrame(m, m', d, k) && MovedObj(m', d, k)
    ensures Moved(m', d, k + 1)
  {
    hide Ready;
    forall j | 0 <= j < k + 1 ensures MovedObj(m', d, j) {
      if j < k {
        assert MovedObj(m, d, j);
        DestSteps(d, j, k);
      }
    }
  }

  lemma SlideDead(m: seq<int>, m': seq<int>, d: Desc, th: Threads, k: nat)
    requires Ready(d) && ResolvedState(m, d, th, k) && SlideFrame(m, m', d, k)
    ensures DeadFrom(m', d, k + 1)
  {
    forall j | k + 1 <= j <= |d.live| ensures DeadRun(m', d.types, d.GapStart(j), d.GapEnd(j)) {
      assert GapClear(d, j);
      EndBeforeGap(d, k, j);
      DeadRunFrame(m, m', d.types, d.GapStart(j), d.GapEnd(j));
    }
  }

  lemma {:induction false} EndBeforeGap(d: Desc, k: nat, j: nat)
    requires Ready(d) && k < j <= |d.live|
    ensures d.live[k].end <= d.GapStart(j)
    decreases j
  {
    if k + 1 < j {
      EndBeforeGap(d, k, j - 1);
      assert PassOk(d, j - 1) && d.ObjectOk(j - 1);
    }
  }

  lemma SlideStep(m: seq<int>, d: Desc, th: Threads, k: nat)
    requires Ready(d) && ResolvedState(m, d, th, k) && k < |d.live|
    ensures var o := d.live[k];
            && 0 < o.p <= |m| == |d.orig| && o.front <= o.end <= |m| && 0 <= d.Dest(k) <= o.front
            && BackwardState(Slid(m[o.p - 1 := d.orig[o.p - 1] - MARK_MASK], o.front, d.Dest(k), o.end - o.front),
                             d, th, k + 1)
  {
    hide Ready, ResolvedState, Threaded, Moved, DeadFrom, BackwardPhase;
    var o := d.live[k];
    SlideBounds(m, d, th, k);
    var u := m[o.p - 1 := d.orig[o.p - 1] - MARK_MASK];
    var m' := Slid(u, o.front, d.Dest(k), o.end - o.front);
    ObjectContents(m, d, th, k, u);
    assert MovedObj(m', d, k);
    assert SlideFrame(m, m', d, k);
    SlideThreads(m, m', d, th, k);
    SlideMoved(m, m', d, k);
    SlideDead(m, m', d, th, k);
  }

  lemma SlideBounds(m: seq<int>, d: Desc, th: Threads, k: nat)
    requires Ready(d) && ResolvedState(m, d, th, k)
    ensures var o := d.live[k];
            && o.front < o.p <= o.end <= |m| == |d.orig| && 0 <= d.Dest(k) <= o.front
            && BackwardPhase(d, th, k + 1) && Moved(m, d, k)
  {
    assert PassOk(d, k) && PassOk(d, k + 1) && d.HeadOk(k) && d.ObjectOk(k);
  }

  // ------------------------------------------------------------------ from pass to pass

  ghost predicate BackwardLoop(m: seq<int>, d: Desc, th: Threads, k: nat, front: nat, gap: nat)
    requires d.Layout()
  {
    BackwardState(m, d, th, k) && k <= |d.live| && InGap(m, d, k, front) && front - gap == d.Dest(k)
  }

  lemma BackwardBegins(m: seq<int>, d: Desc, th: Threads)
    requires Ready(d) && BackwardState(m, d, th, 0)
    ensures BackwardLoop(m, d, th, 0, d.start, 0)
    ensures d.start <= d.back && (d.start == d.back ==> |d.live| == 0)
  {
    assert GapClear(d, 0) && PassOk(d, 0);
  }

  lemma BackwardKind(m: seq<int>, d: Desc, th: Threads, k: nat, front: nat, gap: nat)
    requires Ready(d) && BackwardLoop(m, d, th, k, front, gap) && front < d.back
    ensures front < |m| && front + HeaderWords(m[front]) <= |m|
    ensures !IsDead(m, front) ==>
              k < |d.live| && front == d.live[k].front && front - gap == d.Dest(k) && BackwardState(m, d, th, k)
    ensures IsDead(m, front) ==> k <= |d.live| && front < d.GapEnd(k)
  {
    assert PassOk(d, k);
    if front < d.GapEnd(k) { DeadHeader(m, d, k, front); }
    else { BackwardHeader(m, d, th, k); }
  }

  lemma BackwardHeader(m: seq<int>, d: Desc, th: Threads, k: nat)
    requires Ready(d) && BackwardState(m, d, th, k) && k < |d.live|
    ensures var front := d.live[k].front;
            front < |m| && front + HeaderWords(m[front]) <= |m| && !IsDead(m, front)
  {
    hide Threaded, Moved, DeadFrom;
    LiveHeader(m, d, k, th, k);
  }

  lemma BackwardSkip(m: seq<int>, d: Desc, th: Threads, k: nat, front: nat, gap: nat)
    requires Ready(d) && BackwardLoop(m, d, th, k, front, gap) && front < d.GapEnd(k)
    ensures ObjectAt(m, d.types, front) && SizeAt(m, d.types, front) > 0
    ensures var size := SizeAt(m, d.types, front);
            && BackwardLoop(m, d, th, k, front + size, gap + size)
            && front + size <= d.back && (front + size == d.back ==> k == |d.live|)
  {
    assert PassOk(d, k);
  }

  lemma BackwardNext(m: seq<int>, d: Desc, th: Threads, k: nat, gap: nat)
    requires Ready(d) && k < |d.live| && BackwardState(m, d, th, k + 1)
    requires d.live[k].front - gap == d.Dest(k)
    ensures BackwardLoop(m, d, th, k + 1, d.live[k].end, gap)
    ensures d.live[k].front < d.live[k].end <= d.back && (d.live[k].end == d.back ==> k + 1 == |d.live|)
  {
    assert GapClear(d, k + 1) && PassOk(d, k) && PassOk(d, k + 1) && d.ObjectOk(k);
  }

  lemma BackwardEnds(m: seq<int>, d: Desc, th: Threads, k: nat, front: nat, gap: nat)
    requires Ready(d) && BackwardLoop(m, d, th, k, front, gap) && k == |d.live|
    ensures BackwardState(m, d, th, |d.live|)
    ensures gap + d.start <= front && front - gap - d.start == d.LiveWords(|d.live|)
  {
    ReadyGap(d, k);
  }

  lemma ForwardToBackward(m: seq<int>, d: Desc, th: Threads)
    requires Ready(d) && ForwardState(m, d, th, |d.live|)
    ensures BackwardState(m, d, th, 0)
  {}

  lemma BackwardFinal(m: seq<int>, d: Desc, th: Threads)
    requires Ready(d) && d.Valid() && BackwardState(m, d, th, |d.live|)
    ensures Compacted(m, d)
  {
    forall x | 0 < x < d.start && x < |m| ensures m[x] == d.Final(x) {
      GlobalFinal(m, d, th, x);
    }
  }

  lemma GlobalFinal(m: seq<int>, d: Desc, th: Threads, x: nat)
    requires Ready(d) && d.WordsOk() && BackwardState(m, d, th, |d.live|) && 0 < x < d.start && x < |m|
    ensures m[x] == d.Final(x)
  {
    assert d.SlotOk(x, -1);
    if d.words[x].Slot? {
      assert d.WordOk(x);
      assert x !in th.pending && x in th.resolved;
    }
  }

  /** The first `n - 1` globals have been threaded. */
  ghost predicate GlobalsState(m: seq<int>, d: Desc, th: Threads, n: nat)
    requires d.Layout()
  {
    && Threaded(m, d, 0, th) && GapsDead(m, d)
    && forall x | x in d.words && d.words[x].Slot? ::
         (x in th.pending <==> d.words[x].owner < 0 && x < n) && x !in th.resolved
  }

  lemma NothingThreaded(d: Desc, th: Threads)
    requires Ready(d) && GapsDead(d.orig, d)
    requires th == Threads(seq(|d.live|, _ => []), {}, {})
    ensures GlobalsState(d.orig, d, th, 1) && 0 < d.start <= |d.orig|
  {}

  lemma GlobalSlot(m: seq<int>, d: Desc, th: Threads, x: nat)
    requires Ready(d) && GlobalsState(m, d, th, x) && 0 < x < d.start
    ensures x < |m| && |th.chains| == |d.live|
    ensures IsObjptr(m[x]) ==>
              && x in d.words && d.words[x].Slot?
              && var t := d.words[x].target;
                 && t < |d.live| && 0 < d.live[t].p <= |m| && m[x] == Ptr(d.live[t].p)
                 && GlobalsState(m[x := m[d.live[t].p - 1]][d.live[t].p - 1 := Ptr(x)], d, th.Push(t, x), x + 1)
    ensures !IsObjptr(m[x]) ==> GlobalsState(m, d, th, x + 1)
  {
    GlobalHere(m, d, th, x);
    if d.words[x].Slot? {
      ThreadStep(m, d, 0, th, x, d.words[x].target);
      GlobalGaps(m, d, th, x);
    }
    hide Threaded, GapsDead, Ready, Desc.Layout;
  }

  /** The word of a global slot whose turn it is. */
  lemma GlobalHere(m: seq<int>, d: Desc, th: Threads, x: nat)
    requires Ready(d) && GlobalsState(m, d, th, x) && 0 < x < d.start
    ensures |m| == |d.orig| && x < |m| && |th.chains| == |d.live| && x in d.words
    ensures if IsObjptr(m[x]) then && d.words[x].Slot? && d.words[x].owner < 0 && d.words[x].target < |d.live|
                                   && m[x] == Ptr(d.live[d.words[x].target].p)
            else !d.words[x].Slot?
  {
    assert d.SlotOk(x, -1) && d.WordOk(x);
    hide GapsDead;
  }

  lemma GlobalGaps(m: seq<int>, d: Desc, th: Threads, x: nat)
    requires Ready(d) && GlobalsState(m, d, th, x) && x in d.words && d.words[x].Slot?
    ensures var t := d.words[x].target;
            && t < |d.live| && 0 < d.live[t].p <= |m| && x < |m|
            && GapsDead(m[x := m[d.live[t].p - 1]][d.live[t].p - 1 := Ptr(x)], d)
  {
    var t := d.words[x].target;
    assert d.WordOk(x);
    assert d.HeadOk(t) && d.words[d.live[t].p - 1] == Head(t);
    GapsFrame(m, m[x := m[d.live[t].p - 1]][d.live[t].p - 1 := Ptr(x)], d);
  }

  lemma GlobalsDone(m: seq<int>, d: Desc, th: Threads)
    requires Ready(d) && GlobalsState(m, d, th, d.start)
    ensures ForwardState(m, d, th, 0)
  {}

  // ------------------------------------------------------------------ what compaction achieves

  lemma MovedWord(m: seq<int>, d: Desc, k: nat, x: nat)
    requires Compacted(m, d) && k < |d.live| && d.live[k].front <= x < d.live[k].end
    ensures 0 <= d.Dest(k) + (x - d.live[k].front) < |m| && m[d.Dest(k) + (x - d.live[k].front)] == d.Final(x)
  {
    hide Desc.Final, Desc.LiveWords;
    assert MovedObj(m, d, k);
    var a := d.Dest(k) + (x - d.live[k].front);
    assert m[a] == d.Final(a - d.Dest(k) + d.live[k].front);
  }

  lemma SlotWord(d: Desc, k: nat, x: nat)
    requires d.Valid() && k < |d.live| && x in d.live[k].slots
    ensures d.live[k].front <= x < d.live[k].end && d.SlotOk(x, k)
  {
    SlotsInBody(d, k);
    hide Desc.SlotOk, Increasing;
    assert d.ObjectWordsOk(k);
    SlotInBounds(d.live[k].slots, d.live[k].p, d.live[k].end, x);
  }

  lemma SlotInBounds(s: seq<nat>, lo: nat, hi: nat, x: nat)
    requires Increasing(s, lo, hi) && x in s
    ensures lo <= x < hi
  {}

  /** A pointer slot of a live object moves with its object and holds the new address of its target: the
    old one less the gap before the target. */
  lemma PointersFollow(m: seq<int>, d: Desc, k: nat, x: nat) returns (t: nat)
    requires d.Valid() && Compacted(m, d) && k < |d.live| && x in d.live[k].slots
    ensures x < |d.orig| && 0 <= d.Dest(k) + (x - d.live[k].front) < |m|
    ensures IsObjptr(d.orig[x]) ==>
              && t < |d.live| && d.orig[x] == Ptr(d.live[t].p)
              && m[d.Dest(k) + (x - d.live[k].front)] == Ptr(d.live[t].p - (d.live[t].front - d.Dest(t)))
    ensures !IsObjptr(d.orig[x]) ==> m[d.Dest(k) + (x - d.live[k].front)] == d.orig[x]
  {
    hide Compacted, Desc.ObjectsOk, Desc.WordsOk, Desc.LiveWords;
    t := 0;
    SlotWord(d, k, x);
    MovedWord(m, d, k, x);
    if IsObjptr(d.orig[x]) { t := d.words[x].target; }
  }

  /** The words before the data of a live object. */
  lemma HeadWords(d: Desc, k: nat)
    requires d.Valid() && k < |d.live|
    ensures var o := d.live[k];
            && ObjectAt(d.orig, d.types, o.front) && o.p == o.front + HeaderWords(d.orig[o.front]) &&
              o.front < o.p <= o.end
            && o.end == o.front + SizeAt(d.orig, d.types, o.front)
            && MARK_MASK <= d.orig[o.p - 1] < 2 * MARK_MASK && d.Final(o.p - 1) == d.orig[o.p - 1] - MARK_MASK
            && (d.orig[o.front] == 0 ==>
                o.front + 2 < o.p && d.Final(o.front) == 0 && d.Final(o.front + 1) == d.orig[o.front + 1])
  {
    hide Desc.WordsOk, Desc.NewPOk, SizeAt, SlotsOf, BodyWords, TypeAt, Desc.Valid;
    ObjectFacts(d, k);
    HeadWord(d, k);
    if d.orig[d.live[k].front] == 0 { ArrayWords(d, k); }
  }

  lemma ObjectFacts(d: Desc, k: nat)
    requires d.Valid() && k < |d.live|
    ensures var o := d.live[k];
            && ObjectAt(d.orig, d.types, o.front) && o.p == o.front + HeaderWords(d.orig[o.front]) &&
              o.front < o.p <= o.end <= |d.orig|
            && o.end == o.front + SizeAt(d.orig, d.types, o.front)
            && MARK_MASK <= d.orig[o.p - 1] < 2 * MARK_MASK
  {
    hide Desc.WordsOk, Desc.NewPOk, SizeAt, SlotsOf, BodyWords, TypeAt, WellFormedType;
    assert d.ObjectOk(k);
  }

  lemma ArrayWords(d: Desc, k: nat)
    requires d.Valid() && k < |d.live| && d.live[k].p == d.live[k].front + 3
    ensures forall x | d.live[k].front <= x < d.live[k].front + 2 :: x in d.words && d.words[x] == Plain(k)
  {
    hide Desc.SlotOk, Desc.ObjectOk;
    SlotsInBody(d, k);
    assert d.ObjectWordsOk(k);
    forall x | d.live[k].front <= x < d.live[k].front + 2 ensures x !in d.live[k].slots {
      if x in d.live[k].slots { SlotInBounds(d.live[k].slots, d.live[k].p, d.live[k].end, x); }
    }
  }

  /** An unmarked object of this size and type begins at `a`. */
  ghost predicate ObjectHere(m: seq<int>, types: seq<ObjType>, a: int, size: int, t: ObjType) {
    && a >= 0 && ObjectAt(m, types, a) && !IsMarked(m[a + HeaderWords(m[a]) - 1])
    && SizeAt(m, types, a) == size && TypeAt(m, types, a) == t
  }

  /** An object is recognised by its first words. */
  lemma SameObject(m: seq<int>, m': seq<int>, types: seq<ObjType>, a: nat, b: nat)
    requires ObjectAt(m, types, a) && b + HeaderWords(m[a]) <= |m'|
    requires MARK_MASK <= m[a + HeaderWords(m[a]) - 1] < 2 * MARK_MASK
    requires m'[b + HeaderWords(m[a]) - 1] == m[a + HeaderWords(m[a]) - 1] - MARK_MASK
    requires m[a] == 0 ==> m'[b] == 0 && m'[b + 1] == m[a + 1]
    ensures ObjectHere(m', types, b, SizeAt(m, types, a), TypeAt(m, types, a))
  {}

  lemma MovedHeadWords(m: seq<int>, d: Desc, k: nat)
    requires d.Valid() && Compacted(m, d) && k < |d.live|
    ensures var o, dst := d.live[k], d.Dest(k);
            && 0 <= dst && o.front < o.p <= |d.orig| && o.p == o.front + HeaderWords(d.orig[o.front]) &&
              dst + HeaderWords(d.orig[o.front]) <= |m|
            && m[dst + HeaderWords(d.orig[o.front]) - 1] == d.orig[o.p - 1] - MARK_MASK
            && (d.orig[o.front] == 0 ==> m[dst] == 0 && m[dst + 1] == d.orig[o.front + 1])
  {
    hide Desc.Valid, Compacted, Desc.Final, SizeAt, Desc.LiveWords;
    var o := d.live[k];
    HeadWords(d, k);
    DestPositive(d, k);
    MovedWord(m, d, k, o.p - 1);
    if d.orig[o.front] == 0 {
      MovedWord(m, d, k, o.front);
      MovedWord(m, d, k, o.front + 1);
    }
  }

  /** The first words of a moved object: its counter and length, if it is an array, and its header
    without the mark. */
  lemma MovedHead(m: seq<int>, d: Desc, k: nat)
    requires d.Valid() && Compacted(m, d) && k < |d.live|
    ensures ObjectAt(d.orig, d.types, d.live[k].front)
    ensures ObjectHere(m, d.types, d.Dest(k), d.live[k].end - d.live[k].front, TypeAt(d.orig, d.types, d.live[k].front))
  {
    hide *;
    HeadWords(d, k);
    DestPositive(d, k);
    MovedHeadWords(m, d, k);
    SameObject(d.orig, m, d.types, d.live[k].front, d.Dest(k));
  }

  lemma DestPositive(d: Desc, k: nat)
    requires d.Valid() && k < |d.live|
    ensures d.Dest(k) >= 0 && d.Dest(k + 1) == d.Dest(k) + (d.live[k].end - d.live[k].front) &&
            d.live[k].front < d.live[k].end
  {
    DestBelow(d, k);
  }

  lemma DestInside(m: seq<int>, d: Desc)
    requires d.Valid() && Compacted(m, d)
    ensures 0 <= d.Dest(|d.live|) <= |m|
  {
    DestBelow(d, |d.live|);
  }

  /** After compaction the old generation is exactly the live objects, unmarked, one after the other. */
  lemma {:induction false} CompactedHeap(m: seq<int>, d: Desc, k: nat)
    requires d.Valid() && Compacted(m, d) && k <= |d.live|
    ensures 0 <= d.Dest(k) <= d.Dest(|d.live|)
    ensures DeadRun(m, d.types, d.Dest(k), d.Dest(|d.live|))
    decreases |d.live| - k
  {
    hide Desc.Valid, Compacted, SizeAt, ObjectAt, TypeAt, Desc.LiveWords;
    DestInside(m, d);
    if k < |d.live| {
      CompactedHeap(m, d, k + 1);
      MovedHead(m, d, k);
      DestPositive(d, k);
    }
  }
}
