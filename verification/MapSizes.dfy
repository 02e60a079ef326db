/** The sizes of the card map and the cross map, and the inverse computation
  (runtime/gc/generational.c:54-57, 76-79, 116-155, 188-251). The floating-point guess is taken exactly. */
module MapSizes {
  import opened Arithmetic
  import opened CrossMap

  const CARD_MAP_ELEM_SIZE := 1
  const CROSS_MAP_ELEM_SIZE := 1

  /** `x` rounded down and up to a multiple of `b` (alignDown and align). For the powers of two that the
    source asks for, masking with -b takes `x % b` away. */
  function AlignDown(x: nat, b: nat): (r: nat)
    requires b > 0
    ensures r % b == 0 && r <= x < r + b
  {
    DownMod(x, b);
    x - x % b
  }

  function Align(x: nat, b: nat): (r: nat)
    requires b > 0
    ensures r % b == 0 && x <= r < x + b
  {
    AlignDown(x + b - 1, b)
  }

  lemma DownMod(x: nat, b: nat)
    requires b > 0
    ensures (x - x % b) % b == 0
  {
    assert x - x % b == b * (x / b);
    DivUnique(x - x % b, b, x / b, 0);
  }

  function SizeofCardMap(marksCards: bool, page: nat, heapSize: nat): nat
    requires page > 0
  {
    if marksCards then Align(heapSize / CARD_SIZE * CARD_MAP_ELEM_SIZE, page) else 0
  }

  function SizeofCrossMap(marksCards: bool, page: nat, heapSize: nat): nat
    requires page > 0
  {
    if marksCards then Align(heapSize / CARD_SIZE * CROSS_MAP_ELEM_SIZE, page) else 0
  }

  function SizeofMaps(marksCards: bool, page: nat, heapSize: nat): nat
    requires page > 0
  {
    SizeofCardMap(marksCards, page, heapSize) + SizeofCrossMap(marksCards, page, heapSize)
  }

  /** The first guess, before it is aligned (lines 211-221). */
  function Guess(page: nat, size: nat): real {
    (256.0 / 258.0) * ((size - 3 * page) as real) - (2.0 / 258.0) * (page as real)
  }

  lemma GuessBounds(page: nat, size: nat)
    requires page > 0 && size > 3 * page && size % page == 0
    ensures Guess(page, size).Floor >= 0
    ensures 258 * Guess(page, size).Floor <= 256 * (size - 3 * page) - 2 * page
  {
    assert size >= 4 * page by { Multiple(size, page); }
    var g := Guess(page, size);
    assert 258.0 * g == 256.0 * ((size - 3 * page) as real) - 2.0 * (page as real);
    assert 258.0 * g == (256 * (size - 3 * page) - 2 * page) as real;
    assert g >= 0.0;
    assert 258.0 * (g.Floor as real) <= 258.0 * g;
  }

  lemma Multiple(size: nat, page: nat)
    requires page > 0 && size > 3 * page && size % page == 0
    ensures size >= 4 * page
  {}

  /** The guess never leaves too little room for the maps. */
  lemma GuessFits(page: nat, size: nat, heapSize: nat)
    requires page > 0 && size > 3 * page && 258 * heapSize <= 256 * (size - 3 * page) - 2 * page
    ensures heapSize + SizeofMaps(true, page, heapSize) <= size
  {}

  lemma AlignMono(x: nat, y: nat, b: nat)
    requires b > 0 && x <= y
    ensures Align(x, b) <= Align(y, b)
  {
    AlignIs(x, b);
    AlignIs(y, b);
    hide Align;
    DivMono(x + b - 1, y + b - 1, b);
    MulMono(b, (x + b - 1) / b, (y + b - 1) / b);
  }

  lemma AlignIs(x: nat, b: nat)
    requires b > 0
    ensures Align(x, b) == b * ((x + b - 1) / b)
  {}

  lemma DivMono(x: nat, y: nat, b: nat)
    requires b > 0 && x <= y
    ensures x / b <= y / b
  {
    var k, l := x / b, y / b;
    assert x == b * k + x % b && y == b * l + y % b;
    if l < k { MulMono(b, l + 1, k); }
  }

  lemma MapsMono(marksCards: bool, page: nat, h: nat, h': nat)
    requires page > 0 && h <= h'
    ensures SizeofMaps(marksCards, page, h) <= SizeofMaps(marksCards, page, h')
  {
    AlignMono(h / CARD_SIZE, h' / CARD_SIZE, page);
  }

  /** The heap size meets the stated bound. */
  predicate Fits(marksCards: bool, page: nat, size: nat, heapSize: nat)
    requires page > 0
  {
    heapSize + SizeofMaps(marksCards, page, heapSize) <= size
  }

  /** Lines 207-222: where the search starts. */
  method FirstGuess(page: nat, size: nat) returns (heapSize: nat)
    requires page > 0 && size % page == 0
    ensures Aligned(heapSize, page) && Fits(true, page, size, heapSize)
  {
    hide Guess, SizeofMaps, Align;
    heapSize := 0;
    if size > 3 * page {
      GuessBounds(page, size);
      heapSize := AlignDown(Guess(page, size).Floor, page);
      GuessFits(page, size, heapSize);
    } else {
      EmptyHeapFits(page);
    }
  }

  /** invertSizeofCardMapAndCrossMap (lines 198-251). */
  method InvertSizeofMaps(marksCards: bool, page: nat, size: nat) returns (heapSize: nat)
    requires page > 0 && page % CARD_SIZE == 0 && size % page == 0
    ensures Aligned(heapSize, page)
    ensures Fits(marksCards, page, size, heapSize) && !Fits(marksCards, page, size, heapSize + page)
  {
    NoMaps(page, size);
    hide Align, AlignDown, Guess, Fits, SizeofMaps, Aligned;
    if !marksCards { return size; }
    heapSize := FirstGuess(page, size);
    var nextHeapSize := heapSize + page;
    NextAligned(heapSize, page);
    while size >= SizeofMaps(true, page, nextHeapSize) && size - SizeofMaps(true, page, nextHeapSize) >= nextHeapSize
      invariant Aligned(heapSize, page) && nextHeapSize == heapSize + page && Aligned(nextHeapSize, page)
      invariant Fits(true, page, size, heapSize)
      decreases size - heapSize
    {
      FitsIs(page, size, nextHeapSize);
      NextAligned(nextHeapSize, page);
      heapSize := nextHeapSize;
      nextHeapSize := nextHeapSize + page;
    }
    FitsIs(page, size, nextHeapSize);
  }

  predicate Aligned(h: nat, page: nat)
    requires page > 0
  {
    h % page == 0
  }

  lemma NoMaps(page: nat, size: nat)
    requires page > 0 && size % page == 0
    ensures Aligned(size, page) && Fits(false, page, size, size) && !Fits(false, page, size, size + page)
  {}

  lemma FitsIs(page: nat, size: nat, h: nat)
    requires page > 0
    ensures Fits(true, page, size, h) <==> size >= SizeofMaps(true, page, h) && size - SizeofMaps(true, page, h) >= h
  {}

  lemma EmptyHeapFits(page: nat)
    requires page > 0
    ensures SizeofMaps(true, page, 0) == 0
  {}

  lemma NextAligned(h: nat, page: nat)
    requires page > 0 && Aligned(h, page)
    ensures Aligned(h + page, page)
  {
    assert h == page * (h / page);
    DivUnique(h + page, page, h / page + 1, 0);
  }

  /** What fits is unique: the result is the largest aligned heap size that leaves room for its maps. */
  lemma FitsLargest(marksCards: bool, page: nat, size: nat, heapSize: nat, other: nat)
    requires page > 0 && Aligned(heapSize, page) && Aligned(other, page)
    requires Fits(marksCards, page, size, heapSize) && !Fits(marksCards, page, size, heapSize + page)
    ensures Fits(marksCards, page, size, other) <==> other <= heapSize
  {
    hide SizeofMaps;
    if other <= heapSize {
      MapsMono(marksCards, page, other, heapSize);
    } else {
      NextMultiple(heapSize, other, page);
      MapsMono(marksCards, page, heapSize + page, other);
    }
  }

  lemma NextMultiple(a: nat, b: nat, page: nat)
    requires page > 0 && a % page == 0 && b % page == 0 && a < b
    ensures a + page <= b
  {
    var k, l := a / page, b / page;
    assert a == page * k && b == page * l;
    if k < l { MulMono(page, k + 1, l); } else { MulMono(page, l, k); }
  }
}
