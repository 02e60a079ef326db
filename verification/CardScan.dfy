/** The minor collection (runtime/gc/forward.c:130-225, cheney-copy.c:102-154): the nursery is copied
  to the end of the old generation, and the only old slots looked at are those that the card map and
  the cross map lead to. */
module CardScan {
  import opened CrossMap
  import Cheney
  import Reachability

  /** What the scan knows about the old generation: the objects in address order, the addresses of
    their pointer slots, and whether a card is marked. */
  datatype Layout = Layout(bounds: seq<nat>, slots: map<nat, seq<nat>>, marked: seq<bool>) {
    ghost predicate Ok(mem: map<nat, Cheney.Value>) {
      && Boundaries(bounds)
      && (forall n | 0 <= n < |bounds| - 1 :: ObjectOk(n, mem))
      && (forall a | a in mem :: InObject(a))
      && CardOf(End()) < |marked|
    }

    ghost predicate ObjectOk(n: nat, mem: map<nat, Cheney.Value>)
      requires n + 1 < |bounds|
    {
      bounds[n] in slots && forall a | a in slots[bounds[n]] :: a in mem && bounds[n] <= a < bounds[n + 1]
    }

    ghost predicate InObject(a: nat) {
      exists n :: 0 <= n < |bounds| - 1 && bounds[n] in slots && a in slots[bounds[n]]
    }

    function End(): nat
    {
      if bounds == [] then 0 else bounds[|bounds| - 1]
    }

    /** The number of cards the old generation reaches into. */
    function Cards(): nat { (End() + CARD_SIZE - 1) / CARD_SIZE }
  }

  /** Old slots that hold nursery pointers lie in marked cards (the mutator's card marking). */
  ghost predicate Remembered(l: Layout, mem: map<nat, Cheney.Value>) {
    forall a | a in mem && mem[a].From? :: a / CARD_SIZE < |l.marked| && l.marked[a / CARD_SIZE]
  }

  ghost predicate CleanBelow(mem: map<nat, Cheney.Value>, b: nat) {
    forall a | a in mem && a < b :: !mem[a].From?
  }

  ghost predicate CleanAll(mem: map<nat, Cheney.Value>) {
    forall a | a in mem :: !mem[a].From?
  }

  /** The scan is at card `c` and at boundary `n`: slots before either are clean. */
  ghost predicate At(l: Layout, mem: map<nat, Cheney.Value>, c: nat, n: nat) {
    && l.Ok(mem) && Remembered(l, mem)
    && n < |l.bounds| && CleanBelow(mem, l.bounds[n]) && CleanBelow(mem, CARD_SIZE * c)
    && l.bounds[n] < CARD_SIZE * c + CARD_SIZE
  }

  /** An unmarked card holds no nursery pointer. */
  lemma UnmarkedCard(l: Layout, mem: map<nat, Cheney.Value>, c: nat)
    requires Remembered(l, mem) && CleanBelow(mem, CARD_SIZE * c) && c < |l.marked| && !l.marked[c]
    ensures CleanBelow(mem, CARD_SIZE * c + CARD_SIZE)
  {}

  /** The cross map entry of a card leads to the last boundary of the card. */
  lemma EntryLeads(bounds: seq<nat>, c: nat) returns (k: nat)
    requires Boundaries(bounds)
    ensures Entry(bounds, c) != CROSS_MAP_EMPTY ==>
              k < |bounds| && bounds[k] == CARD_SIZE * c + Entry(bounds, c) * CROSS_MAP_OFFSET_SCALE &&
                CardOf(bounds[k]) == c
  {
    var r := LastIn(bounds, c);
    k := 0;
    if r >= 0 {
      k :| k < |bounds| && bounds[k] == r;
      assert r % CROSS_MAP_OFFSET_SCALE == 0;
      hide Boundaries;
      EntryOffset(r, c);
    }
  }

  lemma EntryOffset(r: nat, c: nat)
    requires r % CROSS_MAP_OFFSET_SCALE == 0 && CardOf(r) == c
    ensures r == CARD_SIZE * c + (r - CARD_SIZE * c) / CROSS_MAP_OFFSET_SCALE * CROSS_MAP_OFFSET_SCALE
  {
    assert 0 <= r - CARD_SIZE * c <= CARD_SIZE;
  }

  /** An unmarked card below the last: the scan goes on at its last boundary. */
  lemma SkipCard(l: Layout, mem: map<nat, Cheney.Value>, c: nat, n: nat) returns (n': nat)
    requires At(l, mem, c, n) && c < |l.marked| && !l.marked[c]
    ensures At(l, mem, c + 1, n')
    ensures l.bounds[n'] == if Entry(l.bounds, c) == CROSS_MAP_EMPTY then l.bounds[n]
                            else CARD_SIZE * c + Entry(l.bounds, c) * CROSS_MAP_OFFSET_SCALE
  {
    hide Entry, Layout.ObjectOk, Layout.InObject, Remembered;
    UnmarkedCard(l, mem, c);
    n' := n;
    if Entry(l.bounds, c) != CROSS_MAP_EMPTY {
      n' := EntryLeads(l.bounds, c);
      assert l.bounds[n'] <= CARD_SIZE * c + CARD_SIZE;
    }
  }

  /** After the last card everything has been seen. */
  lemma LastCard(l: Layout, mem: map<nat, Cheney.Value>, c: nat, n: nat)
    requires At(l, mem, c, n) && c < |l.marked| && !l.marked[c] && c + 1 >= l.Cards()
    ensures CleanAll(mem)
  {
    UnmarkedCard(l, mem, c);
    SlotsBelowEnd(l, mem);
  }

  lemma SlotsBelowEnd(l: Layout, mem: map<nat, Cheney.Value>)
    requires l.Ok(mem)
    ensures forall a | a in mem :: a < l.End()
  {
    forall a | a in mem ensures a < l.End() {
      assert l.InObject(a);
      var n: nat :| n < |l.bounds| - 1 && l.bounds[n] in l.slots && a in l.slots[l.bounds[n]];
      assert l.ObjectOk(n, mem);
    }
  }

  lemma BoundsOrdered(bounds: seq<nat>, i: nat, j: nat)
    requires Boundaries(bounds) && i <= j < |bounds|
    ensures bounds[i] <= bounds[j]
  {}

  /** A slot between two boundaries is a slot of the object between them. */
  lemma SlotSide(l: Layout, mem: map<nat, Cheney.Value>, n: nat, a: nat)
    requires l.Ok(mem) && n + 1 < |l.bounds| && a in mem && l.bounds[n] <= a < l.bounds[n + 1]
    ensures l.bounds[n] in l.slots && a in l.slots[l.bounds[n]]
  {
    assert l.InObject(a) && l.ObjectOk(n, mem);
    var k: nat :| k < |l.bounds| - 1 && l.bounds[k] in l.slots && a in l.slots[l.bounds[k]];
    assert l.ObjectOk(k, mem);
  }

  // ------------------------------------------------------------------ forwarding old slots

  /** Between `m` and `m'` some slots have been forwarded. */
  ghost predicate Progress(m: map<nat, Cheney.Value>, m': map<nat, Cheney.Value>, fwd: seq<int>) {
    && m'.Keys == m.Keys
    && forall a | a in m :: m'[a] == m[a] || Cheney.Moved(m[a], m'[a], fwd)
  }

  /** The nursery objects that old slots hold are reached. */
  ghost predicate HeldReached(from: seq<Cheney.Obj>, roots: set<nat>, mem: map<nat, Cheney.Value>) {
    forall a | a in mem && mem[a].From? :: mem[a].obj < |from| && Cheney.Reached(from, roots, mem[a].obj)
  }

  lemma ProgressTrans(m: map<nat, Cheney.Value>, m1: map<nat, Cheney.Value>, m2: map<nat, Cheney.Value>,
                      c: Cheney.Copied, d: Cheney.Copied)
    requires Progress(m, m1, c.fwd) && Cheney.FwdKept(c, d) && Progress(m1, m2, d.fwd)
    ensures Progress(m, m2, d.fwd)
  {}

  lemma ProgressAt(l: Layout, m: map<nat, Cheney.Value>, m': map<nat, Cheney.Value>, fwd: seq<int>)
    requires l.Ok(m) && Remembered(l, m) && Progress(m, m', fwd)
    ensures l.Ok(m') && Remembered(l, m')
    ensures forall b: nat | CleanBelow(m, b) :: CleanBelow(m', b)
  {
    forall n | 0 <= n < |l.bounds| - 1 ensures l.ObjectOk(n, m') { assert l.ObjectOk(n, m); }
  }

  class Scanner {
    const g: OldGeneration
    var slots: map<nat, seq<nat>>
    const cardMap: array<bool>
    var mem: map<nat, Cheney.Value>

    constructor (g': OldGeneration, ss: map<nat, seq<nat>>, cards: array<bool>, m: map<nat, Cheney.Value>)
      ensures g == g' && slots == ss && cardMap == cards && mem == m
    {
      g, slots, cardMap, mem := g', ss, cards, m;
    }

    ghost function Here(): Layout
      reads this`slots, g, cardMap
    {
      Layout(g.bounds, slots, cardMap[..])
    }

    /** foreachObjptrInObject with forwardObjptrIfInNursery on the old object at `front`. */
    method ForwardObject(front: nat, c: Cheney.Collector)
      requires c.Accounted() && c.Now().Scanning(0, 0) && HeldReached(c.from, c.roots, mem)
      requires front in slots && forall a | a in slots[front] :: a in mem
      modifies this`mem, c, c.fwd
      ensures c.Accounted() && c.Now().Scanning(0, 0) && HeldReached(c.from, c.roots, mem)
      ensures Cheney.FwdKept(old(c.Now()), c.Now()) && Progress(old(mem), mem, c.fwd[..])
      ensures forall a | a in slots[front] :: a in mem && !mem[a].From?
    {
      hide Cheney.Collector.Accounted, Cheney.Copied.Scanning, Cheney.FwdKept, Progress, HeldReached, Cheney.Moved;
      ghost var d := c.Now();
      Nothing(mem, d);
      var s := slots[front];
      for i := 0 to |s|
        invariant c.Accounted() && c.Now().Scanning(0, 0) && HeldReached(c.from, c.roots, mem)
        invariant Cheney.FwdKept(d, c.Now()) && Progress(old(mem), mem, c.fwd[..])
        invariant mem.Keys == old(mem).Keys && forall j | 0 <= j < i :: !mem[s[j]].From?
      {
        var a := s[i];
        assert a in s;
        ghost var e := c.Now();
        ghost var m := mem;
        HeldAt(c.from, c.roots, mem, a);
        var v := c.ForwardValue(mem[a], 0, 0);
        Forwarded(old(mem), m, a, v, d, e, c.Now());
        mem := mem[a := v];
      }
    }

    /** The collector and the old slots, part way through a collection that began at `m0` and `c0`. */
    ghost predicate Forwarding(c: Cheney.Collector, m0: map<nat, Cheney.Value>, c0: Cheney.Copied)
      reads this, c, c.fwd
    {
      && c.Accounted() && c.Now().Scanning(0, 0) && HeldReached(c.from, c.roots, mem)
      && Cheney.FwdKept(c0, c.Now()) && Progress(m0, mem, c.fwd[..])
    }

    ghost predicate Scannable()
      reads this, g, cardMap
    {
      g.Objects() && Here().Ok(mem) && Remembered(Here(), mem)
    }

    /** The slots of one old object, as part of a collection. */
    method ForwardSlots(front: nat, c: Cheney.Collector, ghost m0: map<nat, Cheney.Value>, ghost c0: Cheney.Copied)
      requires Forwarding(c, m0, c0) && front in slots && forall a | a in slots[front] :: a in mem
      modifies this`mem, c, c.fwd
      ensures Forwarding(c, m0, c0) && Progress(old(mem), mem, c.fwd[..])
      ensures forall a | a in slots[front] :: a in mem && !mem[a].From?
    {
      hide HeldReached, Cheney.Collector.Accounted, Cheney.Copied.Scanning, Cheney.FwdKept, Progress;
      ghost var m, d := mem, c.Now();
      ForwardObject(front, c);
      ProgressTrans(m0, m, mem, d, c.Now());
      KeptTrans(c0, d, c.Now());
    }

    /** One object of foreachObjptrInRange. */
    method ForwardNext(front: nat, c: Cheney.Collector, ghost n: nat, ghost m0: map<nat, Cheney.Value>,
                       ghost c0: Cheney.Copied)
      returns (front': nat)
      requires Scannable() && Forwarding(c, m0, c0)
      requires n + 1 < |g.bounds| && front == g.bounds[n] && CleanBelow(mem, g.bounds[n])
      modifies this`mem, c, c.fwd
      ensures Scannable() && Forwarding(c, m0, c0)
      ensures front' == g.bounds[n + 1] > front && CleanBelow(mem, g.bounds[n + 1])
      ensures forall b: nat | old(CleanBelow(mem, b)) :: CleanBelow(mem, b)
    {
      StepHere(n);
      assert g.Objects() && Here().Ok(mem) && Remembered(Here(), mem);
      hide *;
      ghost var m := mem;
      front' := front + g.sizes[front];
      ForwardSlots(front, c, m0, c0);
      SlotsForwarded(n, m, c.fwd[..]);
    }

    lemma StepHere(n: nat)
      requires Scannable() && n + 1 < |g.bounds|
      ensures g.bounds[n] in slots && g.bounds[n] in g.sizes
      ensures g.bounds[n] + g.sizes[g.bounds[n]] == g.bounds[n + 1] > g.bounds[n]
      ensures forall a | a in slots[g.bounds[n]] :: a in mem
    {
      g.NextObject(n);
      assert Here().ObjectOk(n, mem);
    }

    /** With the slots of object number `n` forwarded, the next one can be looked at. */
    lemma SlotsForwarded(n: nat, m: map<nat, Cheney.Value>, fwd: seq<int>)
      requires g.Objects() && Here().Ok(m) && Remembered(Here(), m) && Progress(m, mem, fwd)
      requires n + 1 < |g.bounds| && CleanBelow(m, g.bounds[n]) && g.bounds[n] in slots
      requires forall a | a in slots[g.bounds[n]] :: a in mem && !mem[a].From?
      ensures Scannable() && CleanBelow(mem, g.bounds[n + 1])
      ensures forall b: nat | CleanBelow(m, b) :: CleanBelow(mem, b)
    {
      ProgressAt(Here(), m, mem, fwd);
      CleanNext(Here(), mem, n);
    }

    /** foreachObjptrInRange (s, objectStart, &cardEnd, forwardObjptrIfInNursery, FALSE). */
    method ForwardRange(objectStart: nat, cardEnd: nat, c: Cheney.Collector, ghost n: nat,
                        ghost m0: map<nat, Cheney.Value>, ghost c0: Cheney.Copied)
      returns (front: nat, ghost n': nat)
      requires Scannable() && Forwarding(c, m0, c0) && cardEnd <= g.oldGenSize
      requires n < |g.bounds| && objectStart == g.bounds[n] && CleanBelow(mem, g.bounds[n])
      modifies this`mem, c, c.fwd
      ensures Scannable() && Forwarding(c, m0, c0)
      ensures n' < |g.bounds| && front == g.bounds[n'] && cardEnd <= front && CleanBelow(mem, front)
    {
      hide Forwarding, CleanBelow;
      front, n' := objectStart, n;
      while front < cardEnd
        invariant Scannable() && Forwarding(c, m0, c0)
        invariant n' < |g.bounds| && front == g.bounds[n'] && CleanBelow(mem, front)
        decreases |g.bounds| - n'
      {
        g.NextObject(n');
        front := ForwardNext(front, c, n', m0, c0);
        n' := n' + 1;
      }
    }

    /** The marked branch of checkCard (lines 179-205); `done` when the end was reached. */
    method MarkedCard(objectStart: nat, cardIndex: nat, c: Cheney.Collector, ghost n: nat,
                      ghost m0: map<nat, Cheney.Value>, ghost c0: Cheney.Copied)
      returns (objectStart': nat, cardIndex': nat, done: bool, ghost n': nat)
      requires Scannable() && Forwarding(c, m0, c0) && cardIndex < Here().Cards()
      requires At(Here(), mem, cardIndex, n) && objectStart == g.bounds[n]
      modifies this`mem, c, c.fwd
      ensures Scannable() && Forwarding(c, m0, c0)
      ensures done ==> CleanAll(mem)
      ensures !done ==> && At(Here(), mem, cardIndex', n') && n' < |g.bounds| && objectStart' == g.bounds[n']
                        && cardIndex < cardIndex' < Here().Cards()
    {
      AtObject(Here(), mem, cardIndex, n);
      hide Forwarding, Scannable, Layout.Ok, Layout.Cards, Layout.End, Remembered, CleanBelow, CleanAll, At,
           OldGeneration.Objects;
      var cardEnd := CARD_SIZE * cardIndex + CARD_SIZE;
      if g.oldGenSize < cardEnd { cardEnd := g.oldGenSize; }
      objectStart', n' := ForwardRange(objectStart, cardEnd, c, n, m0, c0);
      done := objectStart' == g.oldGenSize;
      cardIndex' := objectStart' / CARD_SIZE;
      Landed(cardIndex, n');
    }

    /** Once card `c` has been scanned, up to boundary `n`. */
    lemma Landed(c: nat, n: nat)
      requires Scannable() && n < |g.bounds| && CleanBelow(mem, g.bounds[n])
      requires CARD_SIZE * c + CARD_SIZE <= g.bounds[n] || g.oldGenSize <= g.bounds[n]
      ensures if g.bounds[n] == g.oldGenSize then CleanAll(mem)
              else At(Here(), mem, g.bounds[n] / CARD_SIZE, n) && c < g.bounds[n] / CARD_SIZE < Here().Cards()
    {
      g.NextObject(n);
      hide Layout.Ok, Remembered, CleanBelow, CleanAll, At;
      if g.bounds[n] == g.oldGenSize { EndReached(Here(), mem, n); } else { AtCard(Here(), mem, n); }
    }

    /** The unmarked branch of checkCard (lines 206-220). */
    method UnmarkedCard(objectStart: nat, cardIndex: nat, ghost n: nat) returns (objectStart': nat, ghost n': nat)
      requires Scannable() && MapIs(g.crossMap[..], g.bounds, LastEntry(g.oldGenSize))
      requires cardIndex < Here().Cards() && cardIndex < cardMap.Length && cardIndex < g.crossMap.Length &&
               !cardMap[cardIndex]
      requires At(Here(), mem, cardIndex, n) && objectStart == g.bounds[n]
      ensures objectStart' == if g.crossMap[cardIndex] == CROSS_MAP_EMPTY then objectStart
                              else CARD_SIZE * cardIndex + g.crossMap[cardIndex] * CROSS_MAP_OFFSET_SCALE
      ensures cardIndex + 1 == Here().Cards() ==> CleanAll(mem)
      ensures cardIndex + 1 < Here().Cards() ==>
                At(Here(), mem, cardIndex + 1, n') && n' < |g.bounds| && objectStart' == g.bounds[n']
    {
      LastCards(Here(), cardIndex);
      MapEntry(g.crossMap[..], g.bounds, g.oldGenSize, cardIndex);
      hide Forwarding, Scannable, Layout.Ok, Layout.Cards, Layout.End, Remembered, CleanBelow, CleanAll, At, MapIs,
           Entry, CardOf, OldGeneration.Objects;
      objectStart', n' := objectStart, n;
      if g.crossMap[cardIndex] != CROSS_MAP_EMPTY {
        var next := CARD_SIZE * cardIndex + g.crossMap[cardIndex] * CROSS_MAP_OFFSET_SCALE;
        objectStart' := next;
      }
      if cardIndex + 1 == Here().Cards() {
        LastCard(Here(), mem, cardIndex, n);
      } else {
        n' := SkipCard(Here(), mem, cardIndex, n);
      }
    }

    /** The scan stands at a card, or everything has been seen. */
    ghost predicate Standing(objectStart: nat, cardIndex: nat, done: bool, n: nat)
      reads this, g, cardMap
    {
      if done || cardIndex == Here().Cards() then CleanAll(mem)
      else At(Here(), mem, cardIndex, n) && n < |g.bounds| && objectStart == g.bounds[n] && cardIndex < Here().Cards()
    }

    /** checkCard (lines 173-220). */
    method CheckCard(objectStart: nat, cardIndex: nat, c: Cheney.Collector, ghost n: nat,
                     ghost m0: map<nat, Cheney.Value>, ghost c0: Cheney.Copied)
      returns (objectStart': nat, cardIndex': nat, done: bool, ghost n': nat)
      requires Scannable() && Forwarding(c, m0, c0) && MapIs(g.crossMap[..], g.bounds, LastEntry(g.oldGenSize))
      requires cardIndex != Here().Cards() && Standing(objectStart, cardIndex, false, n)
      modifies this`mem, c, c.fwd
      ensures Scannable() && Forwarding(c, m0, c0) && Standing(objectStart', cardIndex', done, n')
      ensures cardIndex <= cardIndex' <= Here().Cards() && (done || cardIndex < cardIndex')
    {
      hide Forwarding, Layout.Ok, Remembered, CleanBelow, CleanAll, At, MapIs, Layout.Cards;
      CardInMap(cardIndex);
      if cardMap[cardIndex] {
        objectStart', cardIndex', done, n' := MarkedCard(objectStart, cardIndex, c, n, m0, c0);
        if done { cardIndex' := cardIndex; }
        return;
      }
      objectStart', n' := UnmarkedCard(objectStart, cardIndex, n);
      cardIndex', done := cardIndex + 1, false;
    }

    /** The loop of forwardInterGenerationalObjptrs. */
    method CheckCards(c: Cheney.Collector, ghost m0: map<nat, Cheney.Value>, ghost c0: Cheney.Copied)
      requires Scannable() && Forwarding(c, m0, c0) && c.fwd != g.crossMap
      requires g.oldGenSize > 0 ==> MapIs(g.crossMap[..], g.bounds, LastEntry(g.oldGenSize))
      modifies this`mem, c, c.fwd
      ensures Scannable() && Forwarding(c, m0, c0) && CleanAll(mem)
    {
      hide Scannable, Forwarding, Standing, MapIs, CleanAll, Layout.Cards, Here;
      var maxCardIndex := (g.oldGenSize + CARD_SIZE - 1) / CARD_SIZE;
      var objectStart, cardIndex, done := g.first, 0, false;
      ghost var n: nat := 0;
      Begins();
      while cardIndex != maxCardIndex && !done
        invariant Scannable() && Forwarding(c, m0, c0) && Standing(objectStart, cardIndex, done, n)
        invariant cardIndex <= maxCardIndex == Here().Cards()
        invariant maxCardIndex > 0 ==> MapIs(g.crossMap[..], g.bounds, LastEntry(g.oldGenSize))
        decreases maxCardIndex - cardIndex, !done
      {
        objectStart, cardIndex, done, n := CheckCard(objectStart, cardIndex, c, n, m0, c0);
      }
      Ends(objectStart, cardIndex, done, n);
    }

    /** forwardInterGenerationalObjptrs (forward.c:147-225). */
    method ForwardInterGenerationalObjptrs(c: Cheney.Collector, ghost m0: map<nat, Cheney.Value>,
                        ghost c0: Cheney.Copied)
      requires g.Valid() && Scannable() && Forwarding(c, m0, c0) && c.fwd != g.crossMap
      requires g.oldGenSize > 0 ==> |g.bounds| > 1
      modifies this`mem, c, c.fwd, g.crossMap, g`crossMapValidSize, g`seen
      ensures g.Valid() && g.oldGenSize == old(g.oldGenSize) && g.bounds == old(g.bounds)
      ensures Forwarding(c, m0, c0) && CleanAll(mem)
    {
      hide Forwarding, Layout.Ok, Remembered, CleanAll, MapIs, Boundaries, SizesOk, CardOf;
      g.UpdateCrossMap();
      CheckCards(c, m0, c0);
    }

    lemma Begins()
      requires Scannable()
      ensures Standing(g.first, 0, false, 0) && Here().Cards() == (g.oldGenSize + CARD_SIZE - 1) / CARD_SIZE
      ensures Here().Cards() > 0 ==> g.oldGenSize > 0
    {
      ScanBegins(Here(), mem);
    }

    lemma Ends(objectStart: nat, cardIndex: nat, done: bool, n: nat)
      requires Standing(objectStart, cardIndex, done, n) && (done || cardIndex == Here().Cards())
      ensures CleanAll(mem)
    {}

    lemma CardInMap(cardIndex: nat)
      requires Scannable() && cardIndex < Here().Cards()
      ensures cardIndex < cardMap.Length && cardIndex < g.crossMap.Length && g.Objects()
    {}
  }

  lemma LastCards(l: Layout, c: nat)
    requires l.bounds != [] && c < l.Cards()
    ensures c <= CardOf(l.End()) && (c + 1 < l.Cards() <==> c < CardOf(l.End()))
  {}

  lemma MapEntry(m: seq<int>, bounds: seq<nat>, end: nat, c: nat)
    requires MapIs(m, bounds, LastEntry(end)) && bounds[|bounds| - 1] == end && c <= CardOf(end)
    ensures c < |m| && 0 <= m[c] && (c < CardOf(end) ==> m[c] == Entry(bounds, c))
  {}

  lemma ScanBegins(l: Layout, mem: map<nat, Cheney.Value>)
    requires l.Ok(mem) && Remembered(l, mem)
    ensures At(l, mem, 0, 0) && (l.Cards() == 0 ==> CleanAll(mem))
  {
    forall a | a in mem ensures l.bounds[0] <= a {
      assert l.InObject(a);
      var n: nat :| n < |l.bounds| - 1 && l.bounds[n] in l.slots && a in l.slots[l.bounds[n]];
      assert l.ObjectOk(n, mem);
      BoundsOrdered(l.bounds, 0, n);
    }
    SlotsBelowEnd(l, mem);
  }

  lemma AtObject(l: Layout, mem: map<nat, Cheney.Value>, c: nat, n: nat)
    requires At(l, mem, c, n)
    ensures n < |l.bounds| && CleanBelow(mem, l.bounds[n])
  {}

  /** After a marked card the scan is at the card of the object it stopped at. */
  lemma AtCard(l: Layout, mem: map<nat, Cheney.Value>, n: nat)
    requires l.Ok(mem) && Remembered(l, mem) && n < |l.bounds| && CleanBelow(mem, l.bounds[n])
    ensures At(l, mem, l.bounds[n] / CARD_SIZE, n)
  {}

  lemma EndReached(l: Layout, mem: map<nat, Cheney.Value>, n: nat)
    requires l.Ok(mem) && n < |l.bounds| && l.bounds[n] == l.End() && CleanBelow(mem, l.bounds[n])
    ensures CleanAll(mem)
  {
    SlotsBelowEnd(l, mem);
  }

  lemma KeptTrans(c: Cheney.Copied, d: Cheney.Copied, e: Cheney.Copied)
    requires Cheney.FwdKept(c, d) && Cheney.FwdKept(d, e)
    ensures Cheney.FwdKept(c, e)
  {}

  /** Once the object after boundary `n` is clean, everything before the next boundary is. */
  lemma CleanNext(l: Layout, mem: map<nat, Cheney.Value>, n: nat)
    requires l.Ok(mem) && n + 1 < |l.bounds| && CleanBelow(mem, l.bounds[n])
    requires l.bounds[n] in l.slots && forall a | a in l.slots[l.bounds[n]] :: a in mem && !mem[a].From?
    ensures CleanBelow(mem, l.bounds[n + 1])
  {
    forall a | a in mem && a < l.bounds[n + 1] ensures !mem[a].From? {
      if l.bounds[n] <= a { SlotSide(l, mem, n, a); }
    }
  }

  lemma Nothing(m: map<nat, Cheney.Value>, c: Cheney.Copied)
    ensures Progress(m, m, c.fwd) && Cheney.FwdKept(c, c)
  {}

  lemma HeldAt(from: seq<Cheney.Obj>, roots: set<nat>, mem: map<nat, Cheney.Value>, a: nat)
    requires HeldReached(from, roots, mem) && a in mem
    ensures mem[a].From? ==> mem[a].obj < |from| && Cheney.Reached(from, roots, mem[a].obj)
  {}

  lemma Forwarded(m0: map<nat, Cheney.Value>, m: map<nat, Cheney.Value>, a: nat, v: Cheney.Value,
                  c0: Cheney.Copied, c: Cheney.Copied, d: Cheney.Copied)
    requires Progress(m0, m, c.fwd) && a in m && Cheney.Extends(c, d) && Cheney.FwdKept(c0, c)
    requires v == Cheney.Image(m[a], d.fwd) && !v.From? && HeldReached(d.from, d.roots, m)
    ensures Progress(m0, m[a := v], d.fwd) && Cheney.FwdKept(c0, d) && HeldReached(d.from, d.roots, m[a := v])
  {}

  // ------------------------------------------------------------------ a minor collection

  /** The nursery objects that globals and old slots hold. */
  ghost function NurseryRoots(globals: seq<Cheney.Value>, mem: map<nat, Cheney.Value>): set<nat> {
    Cheney.GlobalRoots(globals) + set a | a in mem && mem[a].From? :: mem[a].obj
  }

  ghost predicate HeldInside(from: seq<Cheney.Obj>, mem: map<nat, Cheney.Value>) {
    forall a | a in mem && mem[a].From? :: mem[a].obj < |from|
  }

  lemma RootsHeld(from: seq<Cheney.Obj>, globals: seq<Cheney.Value>, mem: map<nat, Cheney.Value>)
    requires forall i | 0 <= i < |globals| && globals[i].From? :: globals[i].obj < |from|
    requires HeldInside(from, mem)
    ensures var rs := NurseryRoots(globals, mem); Cheney.GlobalsOk(from, rs, globals) && HeldReached(from, rs, mem)
  {
    var rs := NurseryRoots(globals, mem);
    forall i | 0 <= i < |globals| && globals[i].From? ensures Cheney.Reached(from, rs, globals[i].obj) {
      assert globals[i].obj in Cheney.GlobalRoots(globals);
      Reachability.RootReached(Cheney.Edges(from), rs, globals[i].obj);
    }
    forall a | a in mem && mem[a].From? ensures Cheney.Reached(from, rs, mem[a].obj) {
      Reachability.RootReached(Cheney.Edges(from), rs, mem[a].obj);
    }
  }

  /** Once globals and old slots have been forwarded, every root has been copied. */
  lemma RootsCopied(globals: seq<Cheney.Value>, globals': seq<Cheney.Value>, m: map<nat, Cheney.Value>,
                    m': map<nat, Cheney.Value>, c: Cheney.Copied)
    requires Cheney.AllMoved(globals, globals', c.fwd) && Progress(m, m', c.fwd) && CleanAll(m')
    requires c.roots == NurseryRoots(globals, m)
    ensures Cheney.RootsCopied(c)
  {}

  lemma ProgressKept(m: map<nat, Cheney.Value>, m': map<nat, Cheney.Value>, c: Cheney.Copied, d: Cheney.Copied)
    requires Progress(m, m', c.fwd) && Cheney.FwdKept(c, d)
    ensures Progress(m, m', d.fwd)
  {}

  /** The boundaries `bounds` are followed by those of `objs`, one object after the other. */
  ghost predicate Placed(bounds: seq<nat>, bounds': seq<nat>, objs: seq<Cheney.Obj>) {
    && bounds != [] && |bounds'| == |bounds| + |objs| && bounds <= bounds'
    && forall k | 0 <= k <= |objs| :: PlacedAt(bounds, bounds', objs, k)
  }

  ghost predicate PlacedAt(bounds: seq<nat>, bounds': seq<nat>, objs: seq<Cheney.Obj>, k: nat)
    requires bounds != [] && |bounds'| == |bounds| + |objs| && k <= |objs|
  {
    bounds'[|bounds| - 1 + k] == bounds[|bounds| - 1] + Cheney.Total(objs[..k])
  }

  lemma PlacedNext(bounds: seq<nat>, bounds': seq<nat>, objs: seq<Cheney.Obj>, k: nat, end: nat)
    requires k < |objs| && Placed(bounds, bounds', objs[..k])
    requires end == bounds'[|bounds'| - 1] + objs[k].size
    ensures Placed(bounds, bounds' + [end], objs[..k + 1])
  {
    Cheney.TotalPrefix(objs, k);
    var was, now, bs := objs[..k], objs[..k + 1], bounds' + [end];
    assert PlacedAt(bounds, bounds', was, k) && was[..k] == was && now[..k + 1] == now;
    forall i | 0 <= i <= k + 1 ensures PlacedAt(bounds, bs, now, i) {
      if i <= k { assert PlacedAt(bounds, bounds', was, i) && now[..i] == was[..i]; }
    }
  }

  lemma PlacedNone(bounds: seq<nat>)
    requires bounds != []
    ensures Placed(bounds, bounds, [])
  {}

  /** Objects of no size at all are no objects. */
  lemma NoObjects(objs: seq<Cheney.Obj>)
    requires Aligned(objs)
    ensures Cheney.Total(objs) == 0 ==> objs == []
  {
    if objs != [] { assert objs[|objs| - 1] in objs; }
  }

  /** The old generation takes in the objects that now follow it. */
  method Promote(g: OldGeneration, objs: seq<Cheney.Obj>)
    requires g.Valid() && CardOf(g.oldGenSize + Cheney.Total(objs)) < g.crossMap.Length
    requires Aligned(objs)
    modifies g
    ensures g.Valid() && g.oldGenSize == old(g.oldGenSize) + Cheney.Total(objs)
    ensures Placed(old(g.bounds), g.bounds, objs)
    ensures g.crossMapValidSize == old(g.crossMapValidSize)
  {
    assert g.bounds != [] && g.bounds[|g.bounds| - 1] == g.oldGenSize;
    PlacedNone(g.bounds);
    assert objs[..0] == [] && Cheney.Total([]) == 0;
    hide OldGeneration.Valid, CardOf, Placed, Cheney.Total, Aligned;
    ghost var bounds0, start := g.bounds, g.oldGenSize;
    for k := 0 to |objs|
      invariant Promoted(g, bounds0, start, objs[..k]) && g.crossMapValidSize == old(g.crossMapValidSize)
    {
      PromoteNext(g, objs, k, bounds0, start);
    }
    assert objs[..|objs|] == objs;
  }

  /** The objects follow what was there, and the last boundary is the end. */
  ghost predicate Promoted(g: OldGeneration, bounds0: seq<nat>, start: nat, objs: seq<Cheney.Obj>)
    reads g, g.crossMap
  {
    && g.Valid() && g.oldGenSize == start + Cheney.Total(objs) && Placed(bounds0, g.bounds, objs)
    && g.bounds != [] && g.bounds[|g.bounds| - 1] == g.oldGenSize
  }

  method PromoteNext(g: OldGeneration, objs: seq<Cheney.Obj>, k: nat, ghost bounds0: seq<nat>, ghost start: nat)
    requires k < |objs| && Aligned(objs) && Promoted(g, bounds0, start, objs[..k])
    requires CardOf(start + Cheney.Total(objs)) < g.crossMap.Length
    modifies g
    ensures Promoted(g, bounds0, start, objs[..k + 1]) && g.crossMapValidSize == old(g.crossMapValidSize)
  {
    hide OldGeneration.Valid, CardOf, Placed, Cheney.Total, Aligned;
    AlignedAt(objs, k);
    Cheney.TotalPrefix(objs, k);
    Cheney.TotalMono(objs, k + 1);
    CardMono(g.oldGenSize + objs[k].size, start + Cheney.Total(objs));
    PlacedNext(bounds0, g.bounds, objs, k, g.oldGenSize + objs[k].size);
    g.Extend(objs[k].size);
  }

  lemma AlignedAt(objs: seq<Cheney.Obj>, k: nat)
    requires Aligned(objs) && k < |objs|
    ensures 0 < objs[k].size && objs[k].size % CROSS_MAP_OFFSET_SCALE == 0
  {
    assert objs[k] in objs;
  }

  ghost predicate Aligned(objs: seq<Cheney.Obj>) {
    forall o | o in objs :: 0 < o.size && o.size % CROSS_MAP_OFFSET_SCALE == 0
  }

  /** What a minor collection leaves behind: the copies are complete, globals and old slots hold what
    they held with nursery pointers replaced, and no nursery pointer is left. */
  ghost predicate Collected(c: Cheney.Copied, g: seq<Cheney.Value>, g': seq<Cheney.Value>,
                            m: map<nat, Cheney.Value>, m': map<nat, Cheney.Value>)
  {
    && c.roots == NurseryRoots(g, m) && Cheney.Finished(c) && Cheney.RootsCopied(c)
    && Cheney.AllMoved(g, g', c.fwd) && Progress(m, m', c.fwd) && CleanAll(m')
  }

  lemma CollectedAligned(c: Cheney.Copied, g: seq<Cheney.Value>, g': seq<Cheney.Value>,
                         m: map<nat, Cheney.Value>, m': map<nat, Cheney.Value>)
    requires Collected(c, g, g', m, m') && Aligned(c.from)
    ensures Aligned(c.to)
  {}

  /** The copying part of minorCheneyCopyGC (lines 130-141). */
  method CopyNursery(s: Scanner, from: seq<Cheney.Obj>, globals: array<Cheney.Value>) returns (c: Cheney.Collector)
    requires s.g.Valid() && s.Scannable() && (s.g.oldGenSize > 0 ==> |s.g.bounds| > 1)
    requires Cheney.SpaceOk(from) && HeldInside(from, s.mem)
    requires forall i | 0 <= i < globals.Length && globals[i].From? :: globals[i].obj < |from|
    modifies s`mem, s.g`crossMapValidSize, s.g`seen, s.g.crossMap, globals
    ensures fresh(c) && fresh(c.fwd) && c.from == from && c.toStart == old(s.g.oldGenSize)
    ensures s.g.Valid() && s.g.oldGenSize == old(s.g.oldGenSize) && s.g.bounds == old(s.g.bounds)
    ensures Collected(c.Now(), old(globals[..]), globals[..], old(s.mem), s.mem)
    ensures c.back == c.toStart + Cheney.Total(c.to) <= c.toStart + Cheney.Total(from)
  {
    hide Cheney.Copied.Scanning, Cheney.Collector.Accounted, Cheney.Finished, Cheney.AllMoved, Cheney.FwdKept,
      Cheney.RootsCopied,
         Cheney.GlobalsOk, Cheney.SpaceOk, OldGeneration.Valid, NurseryRoots, CleanAll, Progress, HeldReached;
    ghost var gs, m := globals[..], s.mem;
    ghost var rs := NurseryRoots(gs, m);
    RootsHeld(from, gs, m);
    var toStart := s.g.oldGenSize;
    c := new Cheney.Collector(from, toStart, toStart + Cheney.Total(from), rs);
    c.ForwardGlobals(globals);
    ghost var d := c.Now();
    Nothing(m, d);
    s.ForwardInterGenerationalObjptrs(c, m, d);
    ghost var e := c.Now();
    c.ForeachObjptrInRange();
    KeptTrans(d, e, c.Now());
    Cheney.MovedAll(gs, globals[..], d, c.Now());
    ProgressKept(m, s.mem, e, c.Now());
    c.UpdateWeaksForCheneyCopy();
    RootsCopied(gs, globals[..], m, s.mem, c.Now());
    c.InRoom();
  }

  /** Lines 130-145: the copies become part of the old generation. */
  method CopyAndPromote(s: Scanner, from: seq<Cheney.Obj>, globals: array<Cheney.Value>) returns (c: Cheney.Collector)
    requires s.g.Valid() && s.Scannable() && (s.g.oldGenSize > 0 ==> |s.g.bounds| > 1)
    requires Cheney.SpaceOk(from) && Aligned(from) && HeldInside(from, s.mem)
    requires CardOf(s.g.oldGenSize + Cheney.Total(from)) < s.g.crossMap.Length
    requires forall i | 0 <= i < globals.Length && globals[i].From? :: globals[i].obj < |from|
    modifies s`mem, s.g, s.g.crossMap, globals
    ensures s.g.Valid() && Placed(old(s.g.bounds), s.g.bounds, c.to)
    ensures c.from == from && c.toStart == old(s.g.oldGenSize)
    ensures Collected(c.Now(), old(globals[..]), globals[..], old(s.mem), s.mem)
    ensures s.g.oldGenSize == c.back == c.toStart + Cheney.Total(c.to) <= c.toStart + Cheney.Total(from)
  {
    hide OldGeneration.Valid, Scanner.Scannable, CardOf, Collected, Cheney.SpaceOk, HeldInside, Cheney.Total, Placed;
    c := CopyNursery(s, from, globals);
    CollectedAligned(c.Now(), old(globals[..]), globals[..], old(s.mem), s.mem);
    CardMono(c.back, s.g.oldGenSize + Cheney.Total(from));
    Promote(s.g, c.to);
  }

  /** minorCheneyCopyGC (cheney-copy.c:102-154). */
  method MinorCheneyCopyGC(s: Scanner, from: seq<Cheney.Obj>, globals: array<Cheney.Value>, canMinor: bool)
    returns (c: Cheney.Collector?)
    requires s.g.Valid() && s.Scannable() && (s.g.oldGenSize > 0 ==> |s.g.bounds| > 1)
    requires Cheney.SpaceOk(from) && Aligned(from) && HeldInside(from, s.mem)
    requires CardOf(s.g.oldGenSize + Cheney.Total(from)) < s.g.crossMap.Length
    requires forall i | 0 <= i < globals.Length && globals[i].From? :: globals[i].obj < |from|
    modifies s`mem, s.g, s.g.crossMap, globals
    ensures s.g.Valid() && (c == null <==> Cheney.Total(from) == 0 || !canMinor)
    ensures c == null ==> s.mem == old(s.mem) && globals[..] == old(globals[..])
    ensures c == null ==> s.g.oldGenSize == old(s.g.oldGenSize) + Cheney.Total(from)
    ensures Placed(old(s.g.bounds), s.g.bounds, if c == null then from else c.to)
    ensures c != null ==> c.from == from && c.toStart == old(s.g.oldGenSize)
    ensures c != null ==> Collected(c.Now(), old(globals[..]), globals[..], old(s.mem), s.mem)
    ensures c != null ==> s.g.oldGenSize == c.back == c.toStart + Cheney.Total(c.to) <= c.toStart + Cheney.Total(from)
  {
    assert s.g.bounds != [];
    hide OldGeneration.Valid, Scanner.Scannable, CardOf, Collected, Cheney.SpaceOk, HeldInside, Cheney.Total,
         Placed, Aligned, Cheney.Collector.Now;
    var bytesAllocated := Cheney.Total(from);
    if bytesAllocated == 0 {
      NoObjects(from);
      PlacedNone(s.g.bounds);
      c := null;
      return;
    }
    if !canMinor {
      Promote(s.g, from);
      c := null;
      return;
    }
    c := CopyAndPromote(s, from, globals);
  }
}
