/** Products and quotients: the steps the solver does not take on its own. */
module Arithmetic {

  lemma MulMono(k: nat, a: nat, b: nat)
    requires a <= b
    ensures k * a <= k * b
  {}

  lemma MulAssoc(a: int, b: int, c: int)
    ensures a * (b * c) == (a * b) * c
  {}

  lemma MulMinus(k: int, a: int, b: int)
    ensures k * (a - b) == k * a - k * b
  {}

  lemma MulPlus(k: int, a: int, b: int)
    ensures k * (a + b) == k * a + k * b
  {}

  lemma MulPositive(a: nat, b: nat)
    requires a > 0 && b > 0
    ensures a * b > 0
  {}

  lemma MulGe(a: nat, b: nat)
    requires b >= 1
    ensures a * b >= a
  {}

  function Pow2(k: nat): (r: nat)
    ensures r >= 1 && (k > 0 ==> r % 2 == 0)
  {
    if k == 0 then 1 else 2 * Pow2(k - 1)
  }

  lemma {:induction false} PowAdd(a: nat, b: nat)
    ensures Pow2(a + b) == Pow2(a) * Pow2(b)
  {
    if a > 0 {
      PowAdd(a - 1, b);
      assert Pow2(a + b) == 2 * Pow2(a - 1 + b);
      MulAssoc(2, Pow2(a - 1), Pow2(b));
    }
  }

  /** The numbers below `n`. */
  ghost function Below(n: nat): (r: set<nat>)
    ensures |r| == n && forall k: nat :: k in r <==> k < n
  {
    if n == 0 then {} else Below(n - 1) + {n - 1}
  }

  /** Quotient and remainder are determined by the equation between them. */
  lemma DivUnique(x: int, b: nat, q: int, r: nat)
    requires r < b && x == b * q + r
    ensures x / b == q && x % b == r
  {
    var d := x / b;
    assert x == b * d + x % b;
    var e := d - q;
    assert b * e == r - x % b by { MulMinus(b, d, q); }
    if e >= 1 { MulGe(b, e); } else if e <= -1 { MulGe(b, -e); MulMinus(b, 0, e); }
  }
}
