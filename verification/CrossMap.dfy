/** The cross map of the old generation (runtime/gc/generational.c:287-395).

  Addresses are byte offsets from the start of the heap. `bounds` lists the object boundaries of
  the old generation in address order: where each object starts and, last, where the last one ends. */
module CrossMap {

  const CARD_SIZE := 256
  const CROSS_MAP_EMPTY := 255
  const CROSS_MAP_OFFSET_SCALE := 4

  /** The card whose entry a boundary belongs to: a boundary at the start of a card counts for the
    card before it (getCrossMapCardStart). */
  function CardOf(b: nat): nat { if b == 0 then 0 else (b - 1) / CARD_SIZE }

  ghost predicate Boundaries(bounds: seq<nat>) {
    && bounds != [] && bounds[0] < CARD_SIZE
    && (forall i | 0 <= i < |bounds| :: bounds[i] % CROSS_MAP_OFFSET_SCALE == 0)
    && (forall i, j | 0 <= i < j < |bounds| :: bounds[i] < bounds[j])
  }

  /** The last boundary that belongs to card `i`, if there is one. */
  function LastIn(bounds: seq<nat>, i: nat): (r: int)
    ensures r == -1 || (r >= 0 && CardOf(r) == i && r in bounds)
    ensures r == -1 ==> forall b | b in bounds :: CardOf(b) != i
    ensures r >= 0 && Boundaries(bounds) ==> forall b | b in bounds && CardOf(b) == i :: b <= r
  {
    if bounds == [] then -1
    else
      var b := bounds[|bounds| - 1];
      if CardOf(b) == i then b
      else
        assert bounds == bounds[..|bounds| - 1] + [b];
        LastIn(bounds[..|bounds| - 1], i)
  }

  /** What the entry of card `i` must be. */
  function Entry(bounds: seq<nat>, i: nat): int {
    var b := LastIn(bounds, i);
    if b < 0 then CROSS_MAP_EMPTY else (b - CARD_SIZE * i) / CROSS_MAP_OFFSET_SCALE
  }

  ghost function Entries(bounds: seq<nat>, n: nat): (r: seq<int>)
    ensures |r| == n && forall i | 0 <= i < n :: r[i] == Entry(bounds, i)
  {
    seq(n, i requires 0 <= i < n => Entry(bounds, i))
  }

  /** The object that starts at a boundary ends at the next one. */
  ghost predicate SizesOk(bounds: seq<nat>, sizes: map<nat, nat>) {
    forall n | 0 <= n < |bounds| - 1 :: bounds[n] in sizes && bounds[n] + sizes[bounds[n]] == bounds[n + 1]
  }

  lemma BoundariesPush(bounds: seq<nat>, sizes: map<nat, nat>, size: nat)
    requires Boundaries(bounds) && SizesOk(bounds, sizes) && 0 < size && size % CROSS_MAP_OFFSET_SCALE == 0
    ensures bounds != []
    ensures var last := bounds[|bounds| - 1];
            Boundaries(bounds + [last + size]) && SizesOk(bounds + [last + size], sizes[last := size])
  {}

  lemma CardMono(a: nat, b: nat)
    requires a <= b
    ensures CardOf(a) <= CardOf(b)
  {}

  /** The map is right for `bounds`, but for the card of the last boundary, whose entry is `last`. */
  ghost predicate MapIs(m: seq<int>, bounds: seq<nat>, last: int) {
    && bounds != [] && CardOf(bounds[|bounds| - 1]) < |m|
    && forall i | 0 <= i < |m| ::
         m[i] == if i == CardOf(bounds[|bounds| - 1]) then last else Entry(bounds, i)
  }

  /** What updateCrossMap leaves in the entry of the last card (lines 385-386). The byte offset is
    cast to an 8-bit element before it is scaled. */
  function LastEntry(end: nat): int {
    ((end - CARD_SIZE * CardOf(end)) % 256) / CROSS_MAP_OFFSET_SCALE
  }

  /** The entry of the last card is right unless the old generation ends exactly at the end of a
    card: then the cast turns the byte offset 256 into 0. */
  lemma LastEntryExact(bounds: seq<nat>)
    requires Boundaries(bounds) && bounds[|bounds| - 1] > 0
    ensures var end := bounds[|bounds| - 1];
            LastEntry(end) == Entry(bounds, CardOf(end)) <==> end % CARD_SIZE != 0
  {}

  /** One object that fills the first card: the entry should be 64 and is 0. */
  lemma LastEntryWrong()
    ensures Boundaries([0, 256]) && CardOf(256) == 0 && Entry([0, 256], 0) == 64 && LastEntry(256) == 0
  {
    assert LastIn([0, 256], 0) == 256;
  }

  /** The map is right for `bounds`, but for the card of the last boundary. */
  ghost predicate RightElsewhere(m: seq<int>, bounds: seq<nat>) {
    && bounds != [] && CardOf(bounds[|bounds| - 1]) < |m|
    && forall i | 0 <= i < |m| && i != CardOf(bounds[|bounds| - 1]) :: m[i] == Entry(bounds, i)
  }

  /** Moving on to the boundary `b` within the same card, or to another card once the entry of the
    card that is left has been stored (lines 364-380). */
  lemma NextBoundary(m: seq<int>, bounds: seq<nat>, b: nat, m': seq<int>)
    requires Boundaries(bounds + [b]) && bounds != [] && RightElsewhere(m, bounds) && CardOf(b) < |m|
    requires var a := bounds[|bounds| - 1]; var c := CardOf(a);
             m' == if b > CARD_SIZE * c + CARD_SIZE then m[c := (a - CARD_SIZE * c) / CROSS_MAP_OFFSET_SCALE] else m
    ensures RightElsewhere(m', bounds + [b])
  {}

  class OldGeneration {
    /** The sizes read from the object headers. */
    var sizes: map<nat, nat>
    var oldGenSize: nat
    var crossMapValidSize: nat
    const crossMap: array<int>
    /** alignFrontier of the start of the heap. */
    const first: nat
    ghost var bounds: seq<nat>
    /** How many boundaries had been seen at the last update. */
    ghost var seen: nat

    ghost predicate Objects()
      reads this
    {
      && Boundaries(bounds) && bounds[0] == first && bounds[|bounds| - 1] == oldGenSize
      && CardOf(oldGenSize) < crossMap.Length
      && SizesOk(bounds, sizes)
    }

    ghost predicate Valid()
      reads this, crossMap
    {
      && Objects() && seen <= |bounds|
      && (if seen == 0 then
            crossMapValidSize == 0
            && forall i | 0 <= i < crossMap.Length :: crossMap[i] == CROSS_MAP_EMPTY
          else
            crossMapValidSize == bounds[seen - 1] > 0
            && MapIs(crossMap[..], bounds[..seen], LastEntry(crossMapValidSize)))
    }

    constructor (start: nat, cards: nat)
      requires start < CARD_SIZE && start % CROSS_MAP_OFFSET_SCALE == 0 && cards > 0
      ensures Valid() && bounds == [start] && seen == 0 && fresh(crossMap) && crossMap.Length == cards
    {
      sizes, oldGenSize, crossMapValidSize, first := map[], start, 0, start;
      crossMap := new int[cards](_ => CROSS_MAP_EMPTY);
      bounds, seen := [start], 0;
    }

    /** The old generation grows by an object of `size` bytes. */
    method Extend(size: nat)
      requires Valid() && 0 < size && size % CROSS_MAP_OFFSET_SCALE == 0
      requires CardOf(oldGenSize + size) < crossMap.Length
      modifies this
      ensures Valid() && bounds == old(bounds) + [old(oldGenSize) + size] && oldGenSize == old(oldGenSize) + size
      ensures crossMapValidSize == old(crossMapValidSize) && seen == old(seen)
    {
      hide MapIs, Entry, CardOf, Boundaries, SizesOk;
      BoundariesPush(bounds, sizes, size);
      sizes := sizes[oldGenSize := size];
      bounds := bounds + [oldGenSize + size];
      oldGenSize := oldGenSize + size;
      assert bounds[..seen] == old(bounds)[..seen];
    }

    /** What a loop over the objects learns when it is at boundary `n`. */
    lemma NextObject(n: nat)
      requires Objects() && n < |bounds|
      ensures CardOf(bounds[n]) < crossMap.Length
      ensures Boundaries(bounds[..n + 1]) && (bounds[n] < oldGenSize <==> n + 1 < |bounds|) && bounds[n] <= oldGenSize
      ensures n + 1 < |bounds| ==>
                && bounds[n] in sizes && bounds[n] + sizes[bounds[n]] == bounds[n + 1] > bounds[n]
                && CardOf(bounds[n + 1]) < crossMap.Length
                && bounds[..n + 2] == bounds[..n + 1] + [bounds[n + 1]]
                && Boundaries(bounds[..n + 2])
    {}

    /** One turn of loopObjects (lines 348-381). */
    method UpdateTurn(objectStart: nat, cardIndex: nat, ghost n: nat) returns (nextObject: nat, cardIndex': nat)
      requires Objects() && n + 1 < |bounds| && objectStart == bounds[n] && cardIndex == CardOf(objectStart)
      requires RightElsewhere(crossMap[..], bounds[..n + 1])
      modifies crossMap
      ensures nextObject == bounds[n + 1] && cardIndex' == CardOf(nextObject)
      ensures RightElsewhere(crossMap[..], bounds[..n + 2])
    {
      NextObject(n);
      hide Objects, Boundaries, Entry, RightElsewhere;
      var cardStart := CARD_SIZE * cardIndex;
      var cardEnd := cardStart + CARD_SIZE;
      nextObject := objectStart + sizes[objectStart];
      cardIndex' := cardIndex;
      ghost var m := crossMap[..];
      NextBoundary(m, bounds[..n + 1], nextObject,
        if nextObject > cardEnd then m[cardIndex := (objectStart - cardStart) / CROSS_MAP_OFFSET_SCALE] else m);
      if nextObject > cardEnd {
        crossMap[cardIndex] := (objectStart - cardStart) / CROSS_MAP_OFFSET_SCALE;
        cardIndex' := (nextObject - 1) / CARD_SIZE;
      }
    }

    /** The part of updateCrossMap that looks at the objects from boundary `n` on. */
    method UpdateFrom(start: nat, index: nat, ghost from: nat)
      requires Objects() && from + 1 < |bounds| && start == bounds[from] && index == CardOf(start)
      requires RightElsewhere(crossMap[..], bounds[..from + 1])
      modifies crossMap
      ensures MapIs(crossMap[..], bounds, LastEntry(oldGenSize))
    {
      hide Objects, Boundaries, Entry, RightElsewhere, CardOf;
      var objectStart, cardIndex := start, index;
      ghost var n := from;
      NextObject(n);
      while objectStart < oldGenSize
        invariant Objects() && n < |bounds| && objectStart == bounds[n] && cardIndex == CardOf(objectStart)
        invariant objectStart <= oldGenSize && (objectStart < oldGenSize <==> n + 1 < |bounds|)
        invariant RightElsewhere(crossMap[..], bounds[..n + 1])
        decreases |bounds| - n
      {
        objectStart, cardIndex := UpdateTurn(objectStart, cardIndex, n);
        n := n + 1;
        NextObject(n);
      }
      assert bounds[..n + 1] == bounds;
      assert objectStart == oldGenSize;
      ghost var m := crossMap[..];
      LastStored(m);
      crossMap[cardIndex] := ((oldGenSize - CARD_SIZE * cardIndex) % 256) / CROSS_MAP_OFFSET_SCALE;
      assert crossMap[..] == m[cardIndex := ((oldGenSize - CARD_SIZE * cardIndex) % 256) / CROSS_MAP_OFFSET_SCALE];
    }

    lemma LastStored(m: seq<int>)
      requires Objects() && RightElsewhere(m, bounds)
      ensures var c := CardOf(oldGenSize);
              && c < |m|
              && MapIs(m[c := ((oldGenSize - CARD_SIZE * c) % 256) / CROSS_MAP_OFFSET_SCALE], bounds,
                       LastEntry(oldGenSize))
    {}

    /** generational.c:325-395. As the source asserts, there is something new to look at unless the
      map is up to date. */
    method UpdateCrossMap()
      requires Valid() && (crossMapValidSize != oldGenSize ==> |bounds| > 1)
      modifies crossMap, `crossMapValidSize, `seen
      ensures Valid() && crossMapValidSize == oldGenSize
      ensures oldGenSize > 0 ==> MapIs(crossMap[..], bounds, LastEntry(oldGenSize))
    {
      hide MapIs, RightElsewhere, Entry, SizesOk, CardOf;
      if crossMapValidSize == oldGenSize {
        WholeMap();
        return;
      }
      Resume();
      var objectStart := crossMapValidSize;
      var cardIndex := 0;
      if objectStart == 0 {
        objectStart := first;
      } else {
        cardIndex := (objectStart - 1) / CARD_SIZE;
      }
      UpdateFrom(objectStart, cardIndex, if seen == 0 then 0 else seen - 1);
      crossMapValidSize := oldGenSize;
      seen := |bounds|;
      assert bounds[..seen] == bounds;
    }

    lemma WholeMap()
      requires Valid() && crossMapValidSize == oldGenSize
      ensures oldGenSize > 0 ==> MapIs(crossMap[..], bounds, LastEntry(oldGenSize))
    {
      if oldGenSize > 0 { assert seen == |bounds| && bounds[..seen] == bounds; }
    }

    /** Where the update picks up: at the last boundary of the valid part. */
    lemma Resume()
      requires Valid() && crossMapValidSize != oldGenSize && |bounds| > 1
      ensures var n := if seen == 0 then 0 else seen - 1;
              && n + 1 < |bounds|
              && bounds[n] == (if crossMapValidSize == 0 then first else crossMapValidSize)
              && CardOf(bounds[n]) == (if crossMapValidSize == 0 then 0 else (crossMapValidSize - 1) / CARD_SIZE)
              && RightElsewhere(crossMap[..], bounds[..n + 1])
    {}

    /** The first loop of isCrossMapOk (lines 304-317). */
    method Recompute() returns (m: array<int>)
      requires Objects()
      ensures fresh(m) && m.Length == crossMap.Length
      ensures forall i | 0 <= i < m.Length :: m[i] == Entry(bounds, i)
    {
      hide Objects, Boundaries, Entry;
      m := new int[crossMap.Length](_ => CROSS_MAP_EMPTY);
      var front := first;
      ghost var n := 0;
      ghost var m0 := m[..];
      FirstBoundary(m0);
      var cardStart := if front == 0 then 0 else (front - 1) - (front - 1) % CARD_SIZE;
      m[cardStart / CARD_SIZE] := (front - cardStart) / CROSS_MAP_OFFSET_SCALE;
      assert m[..] == m0[0 := first / CROSS_MAP_OFFSET_SCALE];
      while front < oldGenSize
        invariant n < |bounds| && front == bounds[n] && Objects()
        invariant front < oldGenSize <==> n + 1 < |bounds|
        invariant m[..] == Entries(bounds[..n + 1], crossMap.Length)
        decreases |bounds| - n
      {
        NextObject(n);
        front := front + sizes[front];
        cardStart := (front - 1) - (front - 1) % CARD_SIZE;
        ghost var was := bounds[..n + 1];
        n := n + 1;
        NextObject(n);
        EntriesPush(was, front, m[..]);
        m[cardStart / CARD_SIZE] := (front - cardStart) / CROSS_MAP_OFFSET_SCALE;
      }
      assert bounds[..n + 1] == bounds;
    }

    lemma FirstBoundary(m: seq<int>)
      requires Objects()
      ensures |bounds| > 0 && bounds[0] == first && (first < oldGenSize <==> |bounds| > 1)
      ensures first < CARD_SIZE && CardOf(first) == 0 < crossMap.Length
      ensures |m| == crossMap.Length && (forall i | 0 <= i < |m| :: m[i] == CROSS_MAP_EMPTY) ==>
                m[0 := first / CROSS_MAP_OFFSET_SCALE] == Entries(bounds[..1], |m|)
    {}

    lemma EntriesPush(was: seq<nat>, b: nat, m: seq<int>)
      requires m == Entries(was, crossMap.Length) && 0 < b && CardOf(b) < crossMap.Length
      ensures var cardStart := (b - 1) - (b - 1) % CARD_SIZE;
              && cardStart / CARD_SIZE == CardOf(b)
              && m[CardOf(b) := (b - cardStart) / CROSS_MAP_OFFSET_SCALE] == Entries(was + [b], crossMap.Length)
    {}

    /** isCrossMapOk (lines 294-322): computes the map from scratch and compares the entries below
      the card where the old generation ends. */
    method IsCrossMapOk() returns (ok: bool)
      requires Objects()
      ensures ok <==> forall i | 0 <= i < CardOf(oldGenSize) :: crossMap[i] == Entry(bounds, i)
    {
      hide Boundaries, Entry;
      var m := Recompute();
      ok := true;
      for i := 0 to if oldGenSize == 0 then 0 else (oldGenSize - 1) / CARD_SIZE
        invariant ok <==> forall j | 0 <= j < i :: crossMap[j] == Entry(bounds, j)
      {
        if m[i] != crossMap[i] { ok := false; }
      }
    }

    /** The assertion at the end of updateCrossMap (line 390): after an update the check succeeds. */
    method UpdateAndCheck() returns (ok: bool)
      requires Valid() && (crossMapValidSize != oldGenSize ==> |bounds| > 1)
      modifies crossMap, `crossMapValidSize, `seen
      ensures Valid() && crossMapValidSize == oldGenSize && ok
    {
      hide Valid, MapIs, Entry;
      UpdateCrossMap();
      MapRight();
      ok := IsCrossMapOk();
    }

    lemma MapRight()
      requires Valid() && crossMapValidSize == oldGenSize
      ensures Objects() && forall i | 0 <= i < CardOf(oldGenSize) :: crossMap[i] == Entry(bounds, i)
    {}
  }
}
