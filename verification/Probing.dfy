/** The arithmetic of double hashing modulo a power of two (runtime/gc/hash-cons.c:14-27, 125-157),
  on 32-bit words. */
module Probing {
  import opened Arithmetic

  const WORD: nat := 0x1_0000_0000

  lemma Pow32()
    ensures Pow2(32) == WORD
  {
    assert Pow2(8) == 256;
    PowAdd(8, 8);
    PowAdd(16, 16);
  }

  /** The first slot: the high bits of the low word of the product (line 125). */
  function FirstSlot(mult: nat, hash: nat, log2: nat): nat
    requires log2 <= 32
  {
    HighPart(LowWord(mult, hash), log2)
  }

  function LowWord(mult: nat, hash: nat): (r: nat)
    ensures r < WORD
  {
    mult * hash % WORD
  }

  function HighPart(x: nat, log2: nat): nat
    requires log2 <= 32
  {
    Quotient(x, Pow2(32 - log2))
  }

  function Quotient(x: nat, b: nat): nat
    requires b > 0
  {
    x / b
  }

  lemma HighBits(x: nat, log2: nat)
    requires x < WORD && log2 <= 32
    ensures HighPart(x, log2) < Pow2(log2)
  {
    Pow32();
    PowAdd(log2, 32 - log2);
    DivBound(x, Pow2(log2), Pow2(32 - log2));
  }

  lemma FirstSlotBound(mult: nat, hash: nat, log2: nat)
    requires log2 <= 32
    ensures FirstSlot(mult, hash, log2) < Pow2(log2)
  {
    hide Pow2, HighPart;
    HighBits(LowWord(mult, hash), log2);
  }

  lemma DivBound(x: nat, a: nat, b: nat)
    requires b > 0 && x < a * b
    ensures x / b < a
  {}

  /** The probe: an odd word (line 126); slot 0 wraps around. */
  function Probe(slot: nat): (r: nat)
    requires slot < WORD
    ensures r < WORD && r % 2 == 1
  {
    if slot % 2 == 1 then slot else (slot + WORD - 1) % WORD
  }

  /** The next slot to look at (line 156); the sum wraps around. */
  function NextSlot(slot: nat, probe: nat, max: nat): nat
    requires max > 0
  {
    (slot + probe) % WORD % max
  }

  /** The slot looked at after `j` steps. */
  function SlotAt(first: nat, max: nat, j: nat): (r: nat)
    requires 0 < max <= WORD && first < max
    ensures r < max
  {
    if j == 0 then first else NextSlot(SlotAt(first, max, j - 1), Probe(first), max)
  }

  // ------------------------------------------------------------------ every slot is visited

  /** Reducing by a multiple first does not matter. */
  lemma ModMod(x: nat, max: nat, k: nat)
    requires max > 0 && k > 0
    ensures max * k > 0 && x % (max * k) % max == x % max
  {
    MulGe(max, k);
    var q, r := x / (max * k), x % (max * k);
    assert x == max * k * q + r;
    MulAssoc(max, k, q);
    var a := r / max;
    assert r == max * a + r % max;
    assert x == max * (k * q + a) + r % max by { MulPlus(max, k * q, a); }
    DivUnique(x, max, k * q + a, r % max);
  }

  lemma ModAdd(x: nat, y: nat, m: nat)
    requires m > 0
    ensures (x % m + y) % m == (x + y) % m
  {
    var q := x / m;
    assert x == m * q + x % m;
    var s := x % m + y;
    assert s == m * (s / m) + s % m;
    MulPlus(m, q, s / m);
    DivUnique(x + y, m, q + s / m, s % m);
  }

  /** `max` is a power of two no larger than a word. */
  ghost predicate TableSize(max: nat, log2: nat) {
    1 <= log2 <= 32 && max == Pow2(log2)
  }

  lemma SizeDividesWord(max: nat, log2: nat)
    requires TableSize(max, log2)
    ensures 2 <= max <= WORD && max % 2 == 0 && WORD == max * Pow2(32 - log2)
  {
    Pow32();
    PowAdd(log2, 32 - log2);
    MulGe(max, Pow2(32 - log2));
  }

  /** The terms of an arithmetic progression. */
  function Term(first: nat, step: nat, j: nat): nat {
    if j == 0 then first else Term(first, step, j - 1) + step
  }

  lemma {:induction false} TermDiff(first: nat, step: nat, i: nat, j: nat)
    requires i <= j
    ensures Term(first, step, j) == Term(first, step, i) + (j - i) * step
  {
    if i < j {
      TermDiff(first, step, i, j - 1);
      MulPlus(step, j - 1 - i, 1);
    }
  }

  /** The slots are an arithmetic progression modulo the table size, whose step is odd. */
  lemma {:induction false} SlotAtIs(first: nat, max: nat, log2: nat, j: nat)
    requires TableSize(max, log2) && first < max <= WORD
    ensures SlotAt(first, max, j) == Term(first, Probe(first), j) % max
  {
    SizeDividesWord(max, log2);
    if j == 0 {
      DivUnique(first, max, 0, first);
    } else {
      SlotAtIs(first, max, log2, j - 1);
      NextIs(Term(first, Probe(first), j - 1), Probe(first), max, Pow2(32 - log2));
    }
  }

  lemma NextIs(s: nat, p: nat, max: nat, k: nat)
    requires max > 0 && k > 0 && WORD == max * k
    ensures NextSlot(s % max, p, max) == (s + p) % max
  {
    ModMod(s % max + p, max, k);
    ModAdd(s, p, max);
  }

  /** A power of two that divides a product with an odd number divides the other factor. */
  lemma {:induction false} OddCancels(x: nat, d: nat, k: nat)
    requires d % 2 == 1 && x * d % Pow2(k) == 0
    ensures x % Pow2(k) == 0
  {
    if k > 0 {
      var h := Pow2(k - 1);
      var q := x * d / Pow2(k);
      assert x * d == 2 * h * q;
      MulAssoc(2, h, q);
      Even(x, d, h * q);
      var y := x / 2;
      assert x == 2 * y;
      MulAssoc(2, y, d);
      assert y * d == h * q;
      DivUnique(y * d, h, q, 0);
      OddCancels(y, d, k - 1);
      assert y == h * (y / h);
      MulAssoc(2, h, y / h);
      DivUnique(x, 2 * h, y / h, 0);
    } else {
      DivUnique(x, 1, x, 0);
    }
  }

  lemma Even(x: nat, d: nat, e: int)
    requires d % 2 == 1 && x * d == 2 * e
    ensures x % 2 == 0
  {
    var c := d / 2;
    OddTimes(x, c);
    assert x == 2 * (e - x * c);
  }

  lemma OddTimes(x: nat, c: nat)
    ensures x * (2 * c + 1) == 2 * (x * c) + x
  {
    MulPlus(x, 2 * c, 1);
    MulAssoc(x, 2, c);
    MulAssoc(2, x, c);
  }

  /** Within the first `max` probes no slot comes twice. */
  lemma ProbesDistinct(first: nat, max: nat, log2: nat, i: nat, j: nat)
    requires TableSize(max, log2) && first < max <= WORD && i < j < max
    ensures SlotAt(first, max, i) != SlotAt(first, max, j)
  {
    hide Pow2, NextSlot, Probe, SlotAt, Term;
    SlotAtIs(first, max, log2, i);
    SlotAtIs(first, max, log2, j);
    if SlotAt(first, max, i) == SlotAt(first, max, j) {
      StepsApart(first, Probe(first), max, log2, i, j);
      DivUnique(j - i, max, 0, j - i);
    }
  }

  lemma StepsApart(first: nat, p: nat, max: nat, log2: nat, i: nat, j: nat)
    requires max == Pow2(log2) && i < j && p % 2 == 1
    requires Term(first, p, i) % max == Term(first, p, j) % max
    ensures (j - i) % max == 0
  {
    hide Pow2, Term;
    TermDiff(first, p, i, j);
    MulPos(j - i, p);
    SameResidue(Term(first, p, i), Term(first, p, j), max);
    OddCancels(j - i, p, log2);
  }

  lemma MulPos(a: nat, b: nat)
    ensures a * b >= 0
  {}

  lemma SameResidue(a: nat, b: nat, m: nat)
    requires m > 0 && a <= b && a % m == b % m
    ensures (b - a) % m == 0
  {
    assert a == m * (a / m) + a % m && b == m * (b / m) + b % m;
    MulMinus(m, b / m, a / m);
    DivUnique(b - a, m, b / m - a / m, 0);
  }

  /** The slots of the first `n` probes. */
  ghost function Visited(first: nat, max: nat, n: nat): set<nat>
    requires 0 < max <= WORD && first < max
  {
    if n == 0 then {} else Visited(first, max, n - 1) + {SlotAt(first, max, n - 1)}
  }

  lemma {:induction false} VisitedAt(first: nat, max: nat, n: nat, s: nat) returns (j: nat)
    requires 0 < max <= WORD && first < max && s in Visited(first, max, n)
    ensures j < n && SlotAt(first, max, j) == s
  {
    if s == SlotAt(first, max, n - 1) { j := n - 1; } else { j := VisitedAt(first, max, n - 1, s); }
  }

  lemma {:induction false} VisitedSize(first: nat, max: nat, log2: nat, n: nat)
    requires TableSize(max, log2) && first < max <= WORD && n <= max
    ensures |Visited(first, max, n)| == n
  {
    if n > 0 {
      VisitedSize(first, max, log2, n - 1);
      if SlotAt(first, max, n - 1) in Visited(first, max, n - 1) {
        var j := VisitedAt(first, max, n - 1, SlotAt(first, max, n - 1));
        ProbesDistinct(first, max, log2, j, n - 1);
      }
    }
  }

  lemma SubsetSize(a: set<nat>, b: set<nat>)
    requires a <= b
    ensures |a| <= |b| && (|a| == |b| ==> a == b)
  {
    var c := b - a;
    assert b == a + c;
    assert |b| == |a| + |c|;
  }

  /** An odd probe modulo a power of two visits every slot. */
  lemma ProbesVisitAll(first: nat, max: nat, log2: nat, slot: nat) returns (j: nat)
    requires TableSize(max, log2) && first < max <= WORD && slot < max
    ensures j < max && SlotAt(first, max, j) == slot
  {
    VisitedSize(first, max, log2, max);
    var v := Visited(first, max, max);
    forall s | s in v ensures s in Below(max) { var i := VisitedAt(first, max, max, s); }
    SubsetSize(v, Below(max));
    j := VisitedAt(first, max, max, slot);
  }
}
