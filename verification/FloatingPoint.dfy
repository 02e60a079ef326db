/** The floating-point expression of UM_Array_offset (runtime/gc/um.c:319) in each of the formats in which C
  may evaluate it (FLT_EVAL_METHOD). Operations are rounded to nearest, ties to even.

  Single precision is what targets with 32-bit float registers use, such as x86 with SSE. The 32-bit x86 build
  (runtime/Makefile:133-134) has no SSE option and evaluates in the extended format of the x87. */
module FloatingPoint {
  import opened Arithmetic
  import opened ArrayTree
  import ArrayIndex

  datatype Format = Single | Double | Extended

  const FLOAT_BITS := 24
  const DOUBLE_BITS := 53

  /** The bits of a significand. */
  function Bits(f: Format): (b: nat)
    ensures b >= FLOAT_BITS
  {
    match f case Single => FLOAT_BITS case Double => DOUBLE_BITS case Extended => 64
  }

  /** m * d is the multiple of `d` that is nearest to `y`, the even one if there are two. */
  predicate Nearest(y: nat, d: nat, m: nat) {
    && m * d - d / 2 <= y <= m * d + d / 2
    && (d % 2 == 0 && (y == m * d - d / 2 || y == m * d + d / 2) ==> m % 2 == 0)
  }

  /** m / 2^p is n / d, correctly rounded to `bits` bits. */
  ghost predicate Rounds(bits: nat, n: nat, d: nat, m: nat, p: nat)
    requires bits > 0
  {
    Pow2(bits - 1) * d <= n * Pow2(p) < Pow2(bits) * d && Nearest(n * Pow2(p), d, m)
  }

  /** The conversion of an integer to float: numbers of more than 24 bits are rounded. */
  ghost predicate Cast(x: nat, y: nat) {
    if x < Pow2(FLOAT_BITS) then y == x else exists m, e :: CastBy(x, y, m, e)
  }

  ghost predicate CastBy(x: nat, y: nat, m: nat, e: nat) {
    y == m * Pow2(e) && Pow2(FLOAT_BITS - 1) * Pow2(e) <= x < Pow2(FLOAT_BITS) * Pow2(e) && Nearest(x, Pow2(e), m)
  }

  ghost predicate CastExact(x: nat) { forall y | Cast(x, y) :: y == x }

  /** Quotient and product, each rounded to the format, and the argument of floor, which is a double. */
  ghost predicate FindsBy(f: Format, n: nat, s: nat, next: nat, m: nat, p: nat, m': nat, p': nat, m'': nat, p'': nat) {
    && Rounds(Bits(f), n, s, m, p) && Rounds(Bits(f), INTERNAL_POINTERS * m, Pow2(p), m', p')
    && Rounds(DOUBLE_BITS, m', Pow2(p'), m'', p'') && next == m'' / Pow2(p'')
  }

  /** The pointer found for a converted distance of `n` in a converted slice of `s`. */
  ghost predicate FindsIn(f: Format, n: nat, s: nat, next: nat) {
    if n == 0 then next == 0
    else exists m, p, m', p', m'', p'' :: FindsBy(f, n, s, next, m, p, m', p', m'', p'')
  }

  /** What a distance of `d` elements and a slice of 75 * `g` are converted to. The slice is cast to float; the
    distance takes the format of the evaluation. */
  ghost predicate CastTo(f: Format, d: nat, g: nat, n: nat, s: nat) {
    (if f.Single? then Cast(d, n) else n == d) && Cast(INTERNAL_POINTERS * g, s)
  }

  /** The pointer that line 319 finds. */
  ghost predicate Finds(f: Format, d: nat, g: nat, next: nat) {
    exists n, s :: CastTo(f, d, g, n, s) && FindsIn(f, n, s, next)
  }

  // ------------------------------------------------------------------ powers of two

  lemma PowGrows(a: nat, b: nat)
    ensures a <= b ==> Pow2(a) <= Pow2(b)
    ensures a < b ==> 2 * Pow2(a) <= Pow2(b)
  {
    if a < b {
      PowAdd(b - a - 1, a);
      MulGe(Pow2(a), Pow2(b - a - 1));
    }
  }

  lemma PowOrder(a: nat, b: nat)
    ensures Pow2(a) < Pow2(b) ==> a < b
    ensures Pow2(a) <= Pow2(b) ==> a <= b
  {
    PowGrows(a, b);
    PowGrows(b, a);
  }

  lemma SmallPowers(j: nat)
    ensures Pow2(5) == 32 && Pow2(6) == 64 && Pow2(7) == 128 && Pow2(8) == 256
    ensures j <= 5 ==> Pow2(j) <= 32
    ensures j >= 8 ==> Pow2(j) >= 256
  {
    assert Pow2(3) == 8;
    PowGrows(j, 5);
    PowGrows(8, j);
  }

  lemma LargePowers()
    ensures Pow2(24) == 0x100_0000 && Pow2(32) == 0x1_0000_0000
    ensures Pow2(53) == 0x20_0000_0000_0000 && Pow2(64) == 0x1_0000_0000_0000_0000
  {
    SmallPowers(0);
    PowAdd(8, 8);
    PowAdd(16, 8);
    PowAdd(16, 16);
    PowAdd(32, 32);
    PowAdd(24, 24);
    PowAdd(48, 5);
  }

  /** The size of a significand: at least 2^24, a multiple of 128, and twice the power below. */
  lemma Significand(bits: nat)
    requires bits >= FLOAT_BITS
    ensures Pow2(bits) == 2 * Pow2(bits - 1) && Pow2(bits) >= 0x100_0000 && Pow2(bits) % 128 == 0
  {
    assert Pow2(bits) == 2 * Pow2(bits - 1);
    Multiple128(bits);
    hide Pow2;
    LargePowers();
    PowGrows(24, bits);
  }

  lemma Multiple128(bits: nat)
    requires bits >= 7
    ensures Pow2(bits) % 128 == 0
  {
    SmallPowers(0);
    hide Pow2;
    PowAdd(7, bits - 7);
    DivUnique(Pow2(bits), 128, Pow2(bits - 7), 0);
  }

  // ------------------------------------------------------------------ cancelling

  /** Cancelling a positive factor. */
  lemma Cancel(a: int, b: int, c: nat)
    requires c > 0
    ensures a * c <= b * c <==> a <= b
    ensures a * c < b * c <==> a < b
  {
    if a <= b { MulOrder(a, b, c); }
    if b <= a { MulOrder(b, a, c); }
    if a < b { MulOrder(a + 1, b, c); }
    if b < a { MulOrder(b + 1, a, c); }
  }

  lemma MulOrder(a: int, b: int, c: nat)
    requires a <= b
    ensures a * c <= b * c
  {}

  lemma Spread(a: int, b: int, w: int)
    ensures (a - b) * w == a * w - b * w && (a + b) * w == a * w + b * w
  {}

  // ------------------------------------------------------------------ the product

  /** Rounding x / 2^(p' + j) to m' / 2^p' drops the lowest j bits of `x`. */
  lemma Scaled(bits: nat, x: nat, p: nat, m': nat, p': nat, j: nat)
    requires bits > 0 && Rounds(bits, x, Pow2(p), m', p') && p == p' + j && j >= 1
    ensures Nearest(x, Pow2(j), m')
  {
    var h, w := Pow2(j - 1), Pow2(p');
    PowAdd(j - 1, p');
    PowAdd(j, p');
    assert Pow2(j) == 2 * h && Pow2(p) == 2 * (h * w);
    hide Pow2;
    ScaledBy(x, m', 2 * h, h, w, Pow2(p));
  }

  lemma ScaledBy(x: nat, m': nat, u: nat, h: nat, w: nat, big: nat)
    requires w > 0 && big == u * w && big / 2 == h * w && big % 2 == 0 && u == 2 * h
    requires Nearest(x * w, big, m')
    ensures Nearest(x, u, m')
  {
    MulAssoc(m', u, w);
    Spread(m' * u, h, w);
    Cancel(m' * u - h, x, w);
    Cancel(x, m' * u + h, w);
  }

  /** The product has 6 or 7 bits more than fit: p is that much more than p', and the error is at most half of
    2^(p - p'). */
  lemma ProductError(bits: nat, m: nat, p: nat, m': nat, p': nat) returns (j: nat)
    requires bits >= FLOAT_BITS && Pow2(bits) <= 2 * m <= 2 * Pow2(bits)
    requires Rounds(bits, INTERNAL_POINTERS * m, Pow2(p), m', p')
    ensures p == p' + j && (if INTERNAL_POINTERS * m >= 64 * Pow2(bits) then j == 7 else j == 6)
    ensures Nearest(INTERNAL_POINTERS * m, Pow2(j), m')
  {
    var x, b := INTERNAL_POINTERS * m, Pow2(bits - 1);
    Significand(bits);
    ProductBits(x, b, Pow2(p), Pow2(p'));
    PowOrder(p', p);
    j := p - p';
    PowAdd(j, p');
    SmallPowers(j);
    hide Pow2;
    ProductBounds(x, b, Pow2(j), Pow2(p'), Pow2(p));
    WhichBits(x, b, j, Pow2(j));
    Scaled(bits, x, p, m', p', j);
  }

  lemma ProductBits(x: nat, b: nat, power: nat, power': nat)
    requires power' > 0 && x >= 75 * b && x * power' < 2 * b * power && b > 0
    ensures power' < power
  {
    if power <= power' {
      MulMono(2 * b, power, power');
      MulOrder(2 * b, x, power');
    }
  }

  lemma ProductBounds(x: nat, b: nat, u: nat, w: nat, power: nat)
    requires w > 0 && power == u * w && b * power <= x * w < 2 * b * power
    ensures b * u <= x < 2 * b * u
  {
    MulAssoc(b, u, w);
    MulAssoc(2 * b, u, w);
    Cancel(b * u, x, w);
    Cancel(x, 2 * b * u, w);
  }

  lemma WhichBits(x: nat, b: nat, j: nat, u: nat)
    requires b > 0 && b * u <= x < 2 * b * u && 75 * b <= x <= 150 * b
    requires (j <= 5 ==> u <= 32) && (j == 6 ==> u == 64) && (j == 7 ==> u == 128) && (j >= 8 ==> u >= 256)
    ensures if x >= 128 * b then j == 7 else j == 6
  {
    if j <= 5 { MulMono(2 * b, u, 32); }
    if j >= 8 { MulMono(b, 256, u); }
  }

  // ------------------------------------------------------------------ the quotient

  /** The value a / power of the expression is off from d / g by at most e / (2 * power). */
  ghost predicate Near(a: nat, power: nat, d: nat, g: nat, e: nat) {
    2 * (a * g) <= 2 * (d * power) + e * g && 2 * (d * power) <= 2 * (a * g) + e * g
  }

  /** What the quotient is like: m has all the bits, and p is at least their number. */
  lemma QuotientBits(bits: nat, d: nat, g: nat, m: nat, p: nat)
    requires bits >= FLOAT_BITS && 0 < d < INTERNAL_POINTERS * g && Rounds(bits, d, INTERNAL_POINTERS * g, m, p)
    ensures Pow2(bits) <= 2 * m <= 2 * Pow2(bits) && Pow2(p) >= Pow2(bits) && p >= bits
    ensures Near(INTERNAL_POINTERS * m, Pow2(p), d, g, INTERNAL_POINTERS)
  {
    hide Pow2, Nearest, Near;
    Significand(bits);
    QuotientAt(d, INTERNAL_POINTERS * g, Pow2(bits - 1), m, Pow2(p));
    PowOrder(bits - 1, p);
    PowGrows(bits, p);
    ShareNear(d, g, m, Pow2(p));
  }

  lemma QuotientAt(d: nat, s: nat, b: nat, m: nat, power: nat)
    requires b > 0 && d < s && b * s <= d * power < 2 * b * s && Nearest(d * power, s, m)
    ensures power > b && b <= m <= 2 * b
  {
    BigPower(d, s, b, power);
    Between(m, s, b, d * power);
  }

  lemma ShareNear(d: nat, g: nat, m: nat, power: nat)
    requires Nearest(d * power, INTERNAL_POINTERS * g, m)
    ensures Near(INTERNAL_POINTERS * m, power, d, g, INTERNAL_POINTERS)
  {
    TimesShare(m, g);
  }

  lemma BigPower(d: nat, s: nat, b: nat, power: nat)
    requires b * s <= d * power && d < s && b > 0
    ensures power > b
  {
    if power <= b {
      MulMono(d, power, b);
      MulOrder(d + 1, s, b);
      Spread(d, 1, b);
    }
  }

  lemma TimesShare(m: nat, g: nat)
    ensures m * (INTERNAL_POINTERS * g) == INTERNAL_POINTERS * m * g
  {}

  /** A number between two multiples of `s`. */
  lemma Between(m: nat, s: nat, b: nat, y: nat)
    requires s > 0 && b * s <= y < 2 * b * s && Nearest(y, s, m)
    ensures b <= m <= 2 * b
  {
    Cancel(b, m + 1, s);
    Cancel(m, 2 * b + 1, s);
    Spread(m, 1, s);
    Spread(2 * b, 1, s);
  }

  // ------------------------------------------------------------------ which pointer it is

  /** Rounding to a multiple of `u` adds half of it to the error. */
  lemma MoreError(x: nat, a: nat, u: nat, power: nat, d: nat, g: nat, e: nat)
    requires Near(x, power, d, g, e) && 2 * a <= 2 * x + u && 2 * x <= 2 * a + u
    ensures Near(a, power, d, g, e + u)
  {
    MulOrder(2 * a, 2 * x + u, g);
    MulOrder(2 * x, 2 * a + u, g);
    Spread(2 * x, u, g);
    Spread(2 * a, u, g);
    Spread(e, u, g);
  }

  /** The value is never as large as the next pointer. */
  lemma NotTooFar(d: nat, g: nat, k: nat, r: nat, a: nat, power: nat, e: nat)
    requires d == k * g + r && r < g && Near(a, power, d, g, e) && e * g < 2 * power
    ensures a < (k + 1) * power
  {
    if a >= (k + 1) * power {
      MulOrder((k + 1) * power, a, g);
      Ahead(k, g, r, power);
      MulMono(power, 1, g - r);
    }
  }

  lemma Ahead(k: nat, g: nat, r: nat, power: nat)
    requires r < g
    ensures (k + 1) * power * g == (k * g + r) * power + power * (g - r)
  {}

  lemma Behind(k: nat, g: nat, r: nat, power: nat)
    ensures k * power * g == (k * g + r) * power - power * r
  {}

  /** A value that is a multiple of `v` is as large as its own pointer, unless `v` is small and the distance is a
    whole number of children. */
  lemma FarEnough(d: nat, g: nat, k: nat, r: nat, n: nat, power: nat, v: nat, power': nat, e: nat)
    requires d == k * g + r && g > 0 && v > 0 && power == v * power' && Near(n * v, power, d, g, e)
    ensures n * v < k * power ==> 2 * v <= e && 2 * (power * r) <= (e - 2 * v) * g
    ensures n * v < k * power ==> n * v + v <= k * power
  {
    if n * v < k * power {
      OneStep(n, v, k, power, power');
      MulOrder(n * v + v, k * power, g);
      Spread(n * v, v, g);
      Behind(k, g, r, power);
      LeftOver(power * r, v, g, e);
    }
  }

  lemma OneStep(n: nat, v: nat, k: nat, power: nat, power': nat)
    requires v > 0 && power == v * power' && n * v < k * power
    ensures n * v + v <= k * power
  {
    MulAssoc(k, power', v);
    Cancel(n, k * power', v);
    MulOrder(n + 1, k * power', v);
    Spread(n, 1, v);
  }

  lemma LeftOver(a: nat, v: nat, g: nat, e: nat)
    requires g > 0 && 2 * a + 2 * (v * g) <= e * g
    ensures 2 * v <= e && 2 * a <= (e - 2 * v) * g
  {
    Spread(e, 2 * v, g);
    Cancel(2 * v, e, g);
  }

  /** The bounds on the value say which pointer it is. */
  lemma Quotient(n: nat, k: nat, power': nat, v: nat, power: nat)
    requires power' > 0 && v > 0 && power == v * power'
    ensures n * v < (k + 1) * power && n * v >= k * power ==> n / power' == k
  {
    if n * v < (k + 1) * power && n * v >= k * power {
      MulAssoc(k, power', v);
      MulAssoc(k + 1, power', v);
      Cancel(k * power', n, v);
      Cancel(n, (k + 1) * power', v);
      Spread(k, 1, power');
      DivUnique(n, power', k, n - k * power');
    }
  }

  // ------------------------------------------------------------------ whole numbers of children

  /** Whether dropping 6 bits of 75 * m, which is within 37 of whole * b, falls short of that: it depends on what
    `b` leaves when divided by 75. */
  lemma Residue(whole: nat, m: nat, m': nat, b: nat, c: nat, rest: nat)
    requires 38 <= whole <= 74 && b == 75 * c + rest && b % 128 == 0 && b > 0
    requires whole * b - 37 <= INTERNAL_POINTERS * m <= whole * b + 37 && INTERNAL_POINTERS * m < 64 * b
    requires Nearest(INTERNAL_POINTERS * m, 64, m')
    ensures rest == 16 ==> (m' * 64 < whole * b <==> whole == 49 || whole == 63)
    ensures rest == 17 ==> (m' * 64 < whole * b <==> whole == 55)
    ensures m' * 64 >= whole * b - 64
  {
    var x, y := INTERNAL_POINTERS * m, whole * b;
    Whole75(whole, b, c, rest, m, x - y);
    Multiple(whole, b);
    Small64(whole, b, x);
    hide Nearest;
    if rest == 16 { Residue16(whole, m - c * whole, x - y); }
    if rest == 17 { Residue17(whole, m - c * whole, x - y); }
    Dropped(x, y, m');
  }

  lemma Small64(whole: nat, b: nat, x: nat)
    requires whole * b - 37 <= x < 64 * b && b >= 38
    ensures whole <= 64
  {
    if whole >= 65 { MulOrder(65, whole, b); }
  }

  /** Dropping 6 bits of `x`, which is near the multiple `y` of 128. */
  lemma Dropped(x: nat, y: nat, m': nat)
    requires y % 128 == 0 && y - 37 <= x <= y + 37 && Nearest(x, 64, m')
    ensures m' * 64 < y <==> x < y - 32
    ensures m' * 64 >= y - 64
  {
    var c := y / 128;
    assert y == 128 * c;
    DroppedAt(x, c, m');
  }

  lemma DroppedAt(x: nat, c: nat, m': nat)
    requires 128 * c - 37 <= x <= 128 * c + 37 && Nearest(x, 64, m')
    ensures m' < 2 * c <==> x < 128 * c - 32
    ensures m' + 1 >= 2 * c
  {
    if m' + 1 == 2 * c { assert m' % 2 == 1; }
  }

  lemma Whole75(whole: nat, b: nat, c: nat, rest: nat, m: nat, delta: int)
    requires b == 75 * c + rest && delta == 75 * m - whole * b
    ensures 75 * (m - c * whole) == whole * rest + delta
  {}

  lemma Multiple(whole: nat, b: nat)
    requires b % 128 == 0
    ensures (whole * b) % 128 == 0
  {
    assert whole * b == 128 * (whole * (b / 128));
    DivUnique(whole * b, 128, whole * (b / 128), 0);
  }

  lemma Residue16(whole: nat, t: int, delta: int)
    requires 38 <= whole <= 64 && -37 <= delta <= 37 && 75 * t == whole * 16 + delta
    ensures delta < -32 <==> whole == 49 || whole == 63
  {
    assert 8 <= t <= 14;
  }

  lemma Residue17(whole: nat, t: int, delta: int)
    requires 38 <= whole <= 64 && -37 <= delta <= 37 && 75 * t == whole * 17 + delta
    ensures delta < -32 <==> whole == 55
  {
    assert 8 <= t <= 15;
  }

  /** Scaling a number of children to between 38 and 74, by the power of two in the quotient's exponent. */
  lemma Whole(bits: nat, k: nat, g: nat, m: nat, p: nat) returns (whole: nat)
    requires 0 < k < INTERNAL_POINTERS && 0 < g && bits >= FLOAT_BITS && p >= bits
    requires Rounds(bits, k * g, INTERNAL_POINTERS * g, m, p)
    ensures whole == k * Pow2(p - bits) && 38 <= whole <= 74 && k * Pow2(p) == whole * Pow2(bits)
    ensures whole * Pow2(bits) - 37 <= INTERNAL_POINTERS * m <= whole * Pow2(bits) + 37
  {
    Significand(bits);
    hide Pow2;
    whole := k * Pow2(p - bits);
    PowAdd(bits, p - bits);
    Shift(k, Pow2(bits), Pow2(p - bits), Pow2(p));
    WholeBounds(k, g, m, Pow2(bits - 1), Pow2(p));
    WholeRange(whole, Pow2(bits - 1));
  }

  lemma Shift(k: nat, b: nat, w: nat, power: nat)
    requires power == b * w
    ensures k * power == k * w * b
  {}

  lemma WholeRange(whole: nat, b: nat)
    requires b > 0 && 75 * b <= whole * (2 * b) < 150 * b
    ensures 38 <= whole <= 74
  {
    if whole <= 37 { MulOrder(whole, 37, 2 * b); }
    if whole >= 75 { MulOrder(75, whole, 2 * b); }
  }

  lemma WholeBounds(k: nat, g: nat, m: nat, b: nat, power: nat)
    requires g > 0
    requires var s := INTERNAL_POINTERS * g; b * s <= k * g * power < 2 * b * s && Nearest(k * g * power, s, m)
    ensures 75 * b <= k * power < 150 * b
    ensures k * power - 37 <= INTERNAL_POINTERS * m <= k * power + 37
  {
    var y := k * power;
    Regroup(k, g, power, b);
    Cancel(75 * b, y, g);
    Cancel(y, 150 * b, g);
    TimesShare(m, g);
    WholeNearest(y, g, m);
  }

  lemma Regroup(k: nat, g: nat, power: nat, b: nat)
    ensures k * g * power == k * power * g
    ensures b * (INTERNAL_POINTERS * g) == 75 * b * g && 2 * b * (INTERNAL_POINTERS * g) == 150 * b * g
  {}

  lemma WholeNearest(y: nat, g: nat, m: nat)
    requires g > 0 && Nearest(y * g, INTERNAL_POINTERS * g, m)
    requires m * (INTERNAL_POINTERS * g) == INTERNAL_POINTERS * m * g
    ensures y - 37 <= INTERNAL_POINTERS * m <= y + 37
  {
    Cancel(2 * (INTERNAL_POINTERS * m), 2 * y + INTERNAL_POINTERS, g);
    Cancel(2 * y, 2 * (INTERNAL_POINTERS * m) + INTERNAL_POINTERS, g);
    Spread(2 * y, INTERNAL_POINTERS, g);
    Spread(2 * (INTERNAL_POINTERS * m), INTERNAL_POINTERS, g);
  }

  // ------------------------------------------------------------------ the argument of floor

  /** A product of at most 53 bits is a double. */
  lemma ArgumentExact(m': nat, p': nat, m'': nat, p'': nat)
    requires m' <= Pow2(DOUBLE_BITS) && Rounds(DOUBLE_BITS, m', Pow2(p'), m'', p'')
    ensures m'' / Pow2(p'') == m' / Pow2(p')
  {
    hide Nearest, Pow2;
    Significand(DOUBLE_BITS);
    ExponentsClose(Pow2(DOUBLE_BITS - 1), m', p', p'');
    if p' <= p'' {
      PowAdd(p'' - p', p');
      WiderIsExact(m', Pow2(p'' - p'), Pow2(p'), Pow2(p''), m'');
    } else {
      FullIsExact(Pow2(DOUBLE_BITS - 1), m', Pow2(p'), Pow2(p''), m'');
    }
  }

  lemma ExponentsClose(b: nat, m': nat, p': nat, p'': nat)
    requires b > 0 && m' <= 2 * b && b * Pow2(p') <= m' * Pow2(p'')
    ensures p' <= p'' + 1 && (p' == p'' + 1 ==> Pow2(p') == 2 * Pow2(p''))
  {
    HalfAtMost(b, m', Pow2(p'), Pow2(p''));
    assert Pow2(p'' + 1) == 2 * Pow2(p'');
    PowOrder(p', p'' + 1);
  }

  lemma WiderIsExact(m': nat, t: nat, w': nat, w'': nat, m'': nat)
    requires w' > 0 && w'' > 0 && w'' == t * w' && Nearest(m' * w'', w', m'')
    ensures m'' / w'' == m' / w'
  {
    MulAssoc(m', t, w');
    NearestMultiple(m' * t, w', m'');
    SameQuotient(m'', w'', m', w');
  }

  lemma FullIsExact(b: nat, m': nat, w': nat, w'': nat, m'': nat)
    requires w' > 0 && w' == 2 * w'' && m' <= 2 * b && b * w' <= m' * w'' && Nearest(m' * w'', w', m'')
    ensures m'' / w'' == m' / w'
  {
    FullMantissa(b, m', w'');
    MulAssoc(b, 2, w'');
    NearestMultiple(b, w', m'');
    SameQuotient(m'', w'', m', w');
  }

  lemma HalfAtMost(b: nat, m': nat, w': nat, w'': nat)
    requires b > 0 && m' <= 2 * b && b * w' <= m' * w''
    ensures w' <= 2 * w''
  {
    MulOrder(m', 2 * b, w'');
    MulAssoc(b, 2, w'');
    if w' > 2 * w'' { MulMono(b, 2 * w'' + 1, w'); MulPlus(b, 2 * w'', 1); }
  }

  lemma FullMantissa(b: nat, m': nat, w'': nat)
    requires w'' > 0 && m' <= 2 * b && b * (2 * w'') <= m' * w''
    ensures m' == 2 * b
  {
    Cancel(2 * b, m', w'');
    MulAssoc(b, 2, w'');
  }

  /** The multiple of `d` nearest to a multiple of `d` is itself. */
  lemma NearestMultiple(n: nat, d: nat, m: nat)
    requires d > 0 && Nearest(n * d, d, m)
    ensures m == n
  {
    Cancel(m, n + 1, d);
    Cancel(n, m + 1, d);
    Spread(n, 1, d);
    Spread(m, 1, d);
  }

  lemma SameQuotient(a: nat, b: nat, c: nat, d: nat)
    requires b > 0 && d > 0 && a * d == c * b
    ensures a / b == c / d
  {
    var q, r := c / d, c % d;
    assert c == d * q + r;
    Spread(d * q, r, b);
    MulAssoc(d, q, b);
    Cancel(q * b, a, d);
    MulOrder(r + 1, d, b);
    Spread(r, 1, b);
    Cancel(a, q * b + b, d);
    Spread(q * b, b, d);
    DivUnique(a, b, q, a - q * b);
  }

  /** A product of 64 bits loses 11 or 12 of them as a double. */
  lemma ArgumentNarrow(m': nat, p': nat, m'': nat, p'': nat) returns (j: nat)
    requires Pow2(64) <= 2 * m' <= 2 * Pow2(64) && Rounds(DOUBLE_BITS, m', Pow2(p'), m'', p'')
    ensures p' == p'' + j && 2048 <= Pow2(j) <= 4096 && Nearest(m', Pow2(j), m'')
  {
    hide Nearest, Pow2;
    LargePowers();
    Significand(DOUBLE_BITS);
    var b := Pow2(DOUBLE_BITS - 1);
    ProductBits(m', b, Pow2(p'), Pow2(p''));
    PowOrder(p'', p');
    j := p' - p'';
    PowAdd(j, p'');
    ProductBounds(m', b, Pow2(j), Pow2(p''), Pow2(p'));
    ElevenBits(m', b, j);
    Scaled(DOUBLE_BITS, m', p', m'', p'', j);
  }

  lemma ElevenBits(x: nat, b: nat, j: nat)
    requires b == 0x10_0000_0000_0000 && b * Pow2(j) <= x < 2 * b * Pow2(j) && 2048 * b <= x <= 4096 * b
    ensures 2048 <= Pow2(j) <= 4096
  {
    SmallPowers(j);
    PowAdd(8, 2);
    PowAdd(8, 3);
    PowOrder(10, j);
    PowGrows(11, j);
  }

  // ------------------------------------------------------------------ the pointer that is found

  /** The numbers of children that are rounded down. */
  function Wrong(f: Format): set<nat> {
    match f case Single => {49, 63} case Double => {55} case Extended => {}
  }

  /** An element that many whole children away is sent to the child before. */
  predicate Misled(f: Format, d: nat, g: nat)
    requires g > 0
  {
    d % g == 0 && d / g in Wrong(f)
  }

  /** Children of `g` elements are small enough that rounding never leads too far: 160000 elements in single
    precision, all that a 32-bit size can count in the others. */
  predicate Small(f: Format, g: nat) {
    0 < g && if f.Single? then g <= 160000 else INTERNAL_POINTERS * g <= 0x1_0000_0000
  }

  lemma OneTooLow(f: Format, d: nat, g: nat, k: nat, m: nat, p: nat, m': nat, u: nat)
    requires !f.Extended? && 0 < k < INTERNAL_POINTERS && 0 < g && d == k * g
    requires Rounds(Bits(f), d, INTERNAL_POINTERS * g, m, p) && p >= Bits(f)
    requires u == if INTERNAL_POINTERS * m >= 64 * Pow2(Bits(f)) then 128 else 64
    requires Nearest(INTERNAL_POINTERS * m, u, m')
    ensures u == 64 ==> (m' * u < k * Pow2(p) <==> k in Wrong(f))
    ensures k in Wrong(f) ==> u == 64 && m' * u >= (k - 1) * Pow2(p)
  {
    var bits := Bits(f);
    Significand(bits);
    hide Pow2, Nearest, Rounds, Wrong;
    var whole := Whole(bits, k, g, m, p);
    OddWhole(f, k, p, whole);
    PowGrows(bits, p);
    Spread(k, 1, Pow2(p));
    if u == 64 { ResidueIn(f, whole, m, m'); }
    if k in Wrong(f) { WrongSmall(f, whole, m); }
  }

  lemma ResidueIn(f: Format, whole: nat, m: nat, m': nat)
    requires !f.Extended? && 38 <= whole <= 74 && Nearest(INTERNAL_POINTERS * m, 64, m')
    requires var b := Pow2(Bits(f));
             whole * b - 37 <= INTERNAL_POINTERS * m <= whole * b + 37 && INTERNAL_POINTERS * m < 64 * b
    ensures m' * 64 < whole * Pow2(Bits(f)) <==> whole in Wrong(f)
    ensures m' * 64 >= whole * Pow2(Bits(f)) - 64
  {
    Significand(Bits(f));
    LargePowers();
    hide Pow2, Nearest;
    if f.Single? {
      Residue(whole, m, m', Pow2(FLOAT_BITS), 223696, 16);
    } else {
      Residue(whole, m, m', Pow2(DOUBLE_BITS), 120095990063213, 17);
    }
  }

  lemma WrongSmall(f: Format, whole: nat, m: nat)
    requires whole in Wrong(f) && INTERNAL_POINTERS * m <= whole * Pow2(Bits(f)) + 37
    ensures INTERNAL_POINTERS * m < 64 * Pow2(Bits(f))
  {
    Significand(Bits(f));
    MulOrder(whole, 63, Pow2(Bits(f)));
  }

  /** 49, 55 and 63 are odd and cannot be doubled without passing 74. */
  lemma OddWhole(f: Format, k: nat, p: nat, whole: nat)
    requires p >= Bits(f) && whole == k * Pow2(p - Bits(f)) && 38 <= whole <= 74
    ensures whole in Wrong(f) <==> k in Wrong(f)
    ensures k in Wrong(f) ==> whole == k
  {
    if p > Bits(f) {
      assert whole == 2 * (k * Pow2(p - Bits(f) - 1));
      MulGe(k, Pow2(p - Bits(f) - 1));
    }
  }

  /** Quotient and product in single or double precision. */
  lemma ProductPlace(f: Format, d: nat, g: nat, k: nat, r: nat, m: nat, p: nat, m': nat, p': nat)
    requires !f.Extended? && Small(f, g) && 0 < d < INTERNAL_POINTERS * g && d == k * g + r && r < g
    requires k < INTERNAL_POINTERS && Rounds(Bits(f), d, INTERNAL_POINTERS * g, m, p)
    requires Rounds(Bits(f), INTERNAL_POINTERS * m, Pow2(p), m', p')
    ensures m' / Pow2(p') == if r == 0 && k in Wrong(f) then k - 1 else k
  {
    hide Rounds, Pow2, Near, Nearest, Wrong;
    QuotientBits(Bits(f), d, g, m, p);
    var j := ProductError(Bits(f), m, p, m', p');
    var u := Pow2(j);
    SmallPowers(j);
    PowAdd(j, p');
    ProductNear(INTERNAL_POINTERS * m, m', u, Pow2(p), d, g, INTERNAL_POINTERS);
    Enough(f, g, Pow2(p));
    if r == 0 {
      assert k > 0;
      OneTooLow(f, d, g, k, m, p, m', u);
    }
    PlaceFrom(d, g, k, r, m', u, Pow2(p), Pow2(p'), k in Wrong(f));
  }

  /** The pointer follows from the error, and for whole numbers of children from what OneTooLow says. */
  lemma PlaceFrom(d: nat, g: nat, k: nat, r: nat, n: nat, u: nat, power: nat, power': nat, wrong: bool)
    requires d == k * g + r && r < g && power == u * power' && power' > 0 && (u == 64 || u == 128)
    requires Near(n * u, power, d, g, INTERNAL_POINTERS + u) && 203 * g < 2 * power
    requires r == 0 ==> && k > 0 && (u == 64 ==> (n * u < k * power <==> wrong))
                        && (wrong ==> u == 64 && n * u >= (k - 1) * power)
    ensures n / power' == if r == 0 && wrong then k - 1 else k
  {
    NotTooFar(d, g, k, r, n * u, power, INTERNAL_POINTERS + u);
    FarEnough(d, g, k, r, n, power, u, power', INTERNAL_POINTERS + u);
    NoRest(g, r, power, u);
    hide Near;
    Quotient(n, k, power', u, power);
    if k > 0 { Quotient(n, k - 1, power', u, power); }
  }

  lemma ProductNear(x: nat, n: nat, u: nat, power: nat, d: nat, g: nat, e: nat)
    requires Near(x, power, d, g, e) && Nearest(x, u, n) && u % 2 == 0
    ensures Near(n * u, power, d, g, e + u)
  {
    MoreError(x, n * u, u, power, d, g, e);
  }

  lemma Enough(f: Format, g: nat, power: nat)
    requires Small(f, g) && power >= Pow2(Bits(f))
    ensures 203 * g < 2 * power
    ensures f.Extended? ==> 524491 * g < 2 * power
  {
    LargePowers();
  }

  /** With an error of (75 + u) / 2 the value falls short only when 6 bits are dropped and nothing is left over. */
  lemma NoRest(g: nat, r: nat, power: nat, u: nat)
    requires (u == 64 || u == 128) && 203 * g < 2 * power
    ensures 2 * u <= INTERNAL_POINTERS + u && 2 * (power * r) <= (INTERNAL_POINTERS + u - 2 * u) * g
            ==> u == 64 && r == 0
  {
    if r > 0 { MulMono(power, 1, r); }
  }

  /** Quotient and product in extended precision, and the product as a double. */
  lemma ExtendedPlace(d: nat, g: nat, k: nat, r: nat, m: nat, p: nat, m': nat, p': nat, m'': nat, p'': nat)
    requires Small(Extended, g) && 0 < d < INTERNAL_POINTERS * g && d == k * g + r && r < g
    requires Rounds(64, d, INTERNAL_POINTERS * g, m, p) && Rounds(64, INTERNAL_POINTERS * m, Pow2(p), m', p')
    requires Rounds(DOUBLE_BITS, m', Pow2(p'), m'', p'')
    ensures m'' / Pow2(p'') == k
  {
    hide Rounds, Pow2, Near, Nearest;
    QuotientBits(64, d, g, m, p);
    var j := ProductError(64, m, p, m', p');
    ProductRange(64, INTERNAL_POINTERS * m, p, m', p');
    var i := ArgumentNarrow(m', p', m'', p'');
    var u, w := Pow2(j), Pow2(i);
    SmallPowers(j);
    PowAdd(j, p');
    PowAdd(i, p'');
    MulAssoc(u, w, Pow2(p''));
    ProductNear(INTERNAL_POINTERS * m, m', u, Pow2(p), d, g, INTERNAL_POINTERS);
    EvenPower(i);
    NarrowNear(m', u, m'', w, Pow2(p), d, g, INTERNAL_POINTERS + u);
    Enough(Extended, g, Pow2(p));
    ExtendedQuotient(d, g, k, r, m'', Pow2(p''), u, w, Pow2(p));
  }

  lemma EvenPower(i: nat)
    requires Pow2(i) >= 2048
    ensures Pow2(i) % 2 == 0
  {}

  lemma ProductRange(bits: nat, x: nat, p: nat, m': nat, p': nat)
    requires bits >= FLOAT_BITS && Rounds(bits, x, Pow2(p), m', p')
    ensures Pow2(bits) <= 2 * m' <= 2 * Pow2(bits)
  {
    hide Nearest, Pow2;
    Significand(bits);
    Between(m', Pow2(p), Pow2(bits - 1), x * Pow2(p'));
  }

  lemma NarrowNear(m': nat, u: nat, m'': nat, w: nat, power: nat, d: nat, g: nat, e: nat)
    requires Near(m' * u, power, d, g, e) && Nearest(m', w, m'') && w % 2 == 0
    ensures Near(m'' * (u * w), power, d, g, e + u * w)
  {
    NearestBoth(m', w, m'');
    hide Near, Nearest;
    NarrowNearAt(m', u, m'', w, power, d, g, e);
  }

  lemma NarrowNearAt(m': nat, u: nat, m'': nat, w: nat, power: nat, d: nat, g: nat, e: nat)
    requires Near(m' * u, power, d, g, e) && 2 * (m'' * w) <= 2 * m' + w && 2 * m' <= 2 * (m'' * w) + w
    ensures Near(m'' * (u * w), power, d, g, e + u * w)
  {
    hide Near;
    ScaleBoth(m'' * w, m', w, u);
    Reorder(m'', w, u);
    MoreError(m' * u, m'' * (u * w), u * w, power, d, g, e);
  }

  lemma Reorder(a: nat, b: nat, c: nat)
    ensures a * b * c == a * (c * b)
  {}

  lemma NearestBoth(y: nat, w: nat, m: nat)
    requires Nearest(y, w, m) && w % 2 == 0
    ensures 2 * (m * w) <= 2 * y + w && 2 * y <= 2 * (m * w) + w
  {}

  lemma ScaleBoth(a: nat, b: nat, w: nat, u: nat)
    requires 2 * a <= 2 * b + w && 2 * b <= 2 * a + w
    ensures 2 * (a * u) <= 2 * (b * u) + u * w && 2 * (b * u) <= 2 * (a * u) + u * w
  {
    MulOrder(2 * a, 2 * b + w, u);
    MulOrder(2 * b, 2 * a + w, u);
    Spread(2 * b, w, u);
    Spread(2 * a, w, u);
  }

  lemma ExtendedQuotient(d: nat, g: nat, k: nat, r: nat, n: nat, power'': nat, u: nat, w: nat, power: nat)
    requires (u == 64 || u == 128) && 2048 <= w <= 4096 && power'' > 0 && power == u * w * power'' && g > 0
    requires d == k * g + r && r < g && 524491 * g < 2 * power
    requires Near(n * (u * w), power, d, g, INTERNAL_POINTERS + u + u * w)
    ensures n / power'' == k
  {
    var v, e := u * w, INTERNAL_POINTERS + u + u * w;
    assert 64 * 2048 <= v <= 128 * 4096 by { MulMono(u, 2048, w); MulMono(u, w, 4096); }
    MulOrder(e, 524491, g);
    NotTooFar(d, g, k, r, n * v, power, e);
    FarEnough(d, g, k, r, n, power, v, power'', e);
    Quotient(n, k, power'', v, power);
  }

  /** That the argument of floor is a double matters: the product in extended precision falls short of 49 and 63
    like the one in single precision, since 2^64 and 2^24 leave the same when divided by 75. */
  lemma ExtendedProduct(g: nat, k: nat, m: nat, p: nat, m': nat, p': nat)
    requires 0 < g && (k == 49 || k == 63) && Rounds(64, k * g, INTERNAL_POINTERS * g, m, p)
    requires Rounds(64, INTERNAL_POINTERS * m, Pow2(p), m', p')
    ensures m' / Pow2(p') == k - 1
  {
    hide Rounds, Pow2, Near, Nearest;
    MulOrder(1, k, g);
    MulOrder(k + 1, INTERNAL_POINTERS, g);
    Spread(k, 1, g);
    QuotientBits(64, k * g, g, m, p);
    var j := ProductError(64, m, p, m', p');
    var whole := Whole(64, k, g, m, p);
    OddScaled(k, p - 64, whole);
    SmallPowers(j);
    PowAdd(j, p');
    PowGrows(64, p);
    LargePowers();
    Significand(64);
    Spread(k, 1, Pow2(p));
    Residue(k, m, m', Pow2(64), 245956587649460688, 16);
    Quotient(m', k - 1, Pow2(p'), 64, Pow2(p));
  }

  lemma OddScaled(k: nat, e: nat, whole: nat)
    requires k >= 38 && whole == k * Pow2(e) && whole <= 74
    ensures whole == k
  {
    MulMono(k, if e == 0 then 1 else 2, Pow2(e));
  }

  /** The pointer found is that of the child that holds the element, or of the one before. */
  lemma NextRounded(f: Format, d: nat, g: nat, next: nat, m: nat, p: nat, m': nat, p': nat, m'': nat, p'': nat)
    requires Small(f, g) && 0 < d < INTERNAL_POINTERS * g
    requires FindsBy(f, d, INTERNAL_POINTERS * g, next, m, p, m', p', m'', p'')
    ensures next == if Misled(f, d, g) then d / g - 1 else d / g
  {
    hide Pow2, Rounds;
    var k, r := Split(d, g);
    MisledWhole(f, d, g, k, r);
    if f.Extended? {
      ExtendedPlace(d, g, k, r, m, p, m', p', m'', p'');
    } else {
      ProductPlace(f, d, g, k, r, m, p, m', p');
      ProductRange(Bits(f), INTERNAL_POINTERS * m, p, m', p');
      PowGrows(Bits(f), DOUBLE_BITS);
      ArgumentExact(m', p', m'', p'');
    }
  }

  lemma Split(d: nat, g: nat) returns (k: nat, r: nat)
    requires 0 < g && d < INTERNAL_POINTERS * g
    ensures d == k * g + r && r < g && k == d / g && k < INTERNAL_POINTERS
  {
    k, r := d / g, d % g;
    assert d == g * k + r;
    Cancel(k, INTERNAL_POINTERS, g);
  }

  lemma MisledWhole(f: Format, d: nat, g: nat, k: nat, r: nat)
    requires g > 0 && r < g && d == k * g + r
    ensures Misled(f, d, g) <==> r == 0 && k in Wrong(f)
  {
    DivUnique(d, g, k, r);
  }

  // ------------------------------------------------------------------ there is always a value

  /** Every quotient below 2^bits can be rounded. */
  lemma {:induction false} SomeRounding(bits: nat, n: nat, d: nat, from: nat) returns (m: nat, p: nat)
    requires bits > 0 && 0 < n && n * Pow2(from) < Pow2(bits) * d
    ensures Rounds(bits, n, d, m, p)
    decreases Pow2(bits) * d - n * Pow2(from)
  {
    hide Nearest;
    if n * Pow2(from) >= Pow2(bits - 1) * d {
      p := from;
      m := NearestTo(n * Pow2(from), d);
    } else {
      MulPositive(n, Pow2(from));
      DoubleBoth(bits, n, d, from);
      m, p := SomeRounding(bits, n, d, from + 1);
    }
  }

  lemma DoubleBoth(bits: nat, n: nat, d: nat, from: nat)
    requires bits > 0
    ensures n * Pow2(from + 1) == 2 * (n * Pow2(from)) && Pow2(bits) * d == 2 * (Pow2(bits - 1) * d)
  {
    assert Pow2(from + 1) == 2 * Pow2(from) && Pow2(bits) == 2 * Pow2(bits - 1);
  }

  lemma NearestTo(y: nat, d: nat) returns (m: nat)
    requires d > 0
    ensures Nearest(y, d, m)
  {
    m := y / d;
    var r := y % d;
    assert y == m * d + r;
    Spread(m, 1, d);
    if 2 * r > d || (2 * r == d && m % 2 == 1) { m := m + 1; }
  }

  lemma SomeCast(x: nat, e0: nat) returns (y: nat)
    requires x < Pow2(FLOAT_BITS) || Pow2(FLOAT_BITS - 1) * Pow2(e0) <= x
    ensures Cast(x, y)
    decreases x - Pow2(e0)
  {
    hide Pow2, Nearest;
    if x < Pow2(FLOAT_BITS) { return x; }
    if x < Pow2(FLOAT_BITS) * Pow2(e0) {
      var m := NearestTo(x, Pow2(e0));
      y := m * Pow2(e0);
      assert CastBy(x, y, m, e0);
    } else {
      NextExponent(x, e0);
      y := SomeCast(x, e0 + 1);
    }
  }

  lemma NextExponent(x: nat, e: nat)
    requires x >= Pow2(FLOAT_BITS) * Pow2(e)
    ensures x >= Pow2(FLOAT_BITS - 1) * Pow2(e + 1) && Pow2(e) < Pow2(e + 1) && Pow2(e) <= x
  {
    hide Pow2;
    Significand(FLOAT_BITS);
    Twice(e);
    MulAssoc(Pow2(FLOAT_BITS - 1), 2, Pow2(e));
    MulGe(Pow2(e), Pow2(FLOAT_BITS));
  }

  lemma Twice(e: nat)
    ensures Pow2(e + 1) == 2 * Pow2(e)
  {}

  lemma PowZero()
    ensures Pow2(0) == 1
  {}

  lemma FirstRounding(bits: nat, n: nat, s: nat)
    requires n < s
    ensures n * Pow2(0) < Pow2(bits) * s
  {
    hide Pow2;
    PowZero();
    MulGe(s, Pow2(bits));
  }

  lemma QuotientRange(bits: nat, n: nat, s: nat, m: nat, p: nat)
    requires bits >= FLOAT_BITS && n < s && Rounds(bits, n, s, m, p)
    ensures Pow2(bits) <= 2 * m <= 2 * Pow2(bits) && p >= bits
  {
    hide Nearest, Pow2;
    Significand(bits);
    QuotientAt(n, s, Pow2(bits - 1), m, Pow2(p));
    PowOrder(bits - 1, p);
  }

  lemma SecondRounding(bits: nat, n: nat, s: nat, m: nat, p: nat)
    requires bits >= FLOAT_BITS && n < s && Rounds(bits, n, s, m, p)
    ensures 0 < m && INTERNAL_POINTERS * m * Pow2(0) < Pow2(bits) * Pow2(p)
  {
    hide Pow2, Rounds;
    QuotientRange(bits, n, s, m, p);
    Significand(bits);
    PowGrows(bits, p);
    PowZero();
    MulMono(Pow2(bits), 150, Pow2(p));
  }

  lemma ThirdRounding(bits: nat, m: nat, p: nat, m': nat, p': nat)
    requires bits >= FLOAT_BITS && Pow2(bits) <= 2 * m <= 2 * Pow2(bits) && p >= bits
    requires Rounds(bits, INTERNAL_POINTERS * m, Pow2(p), m', p')
    ensures 0 < m' && m' * Pow2(0) < Pow2(DOUBLE_BITS) * Pow2(p')
  {
    hide *;
    ProductRange(bits, INTERNAL_POINTERS * m, p, m', p');
    var j := ProductError(bits, m, p, m', p');
    ProductExponent(bits, m', p, p', j);
  }

  lemma ProductExponent(bits: nat, m': nat, p: nat, p': nat, j: nat)
    requires bits >= FLOAT_BITS && p >= bits && p == p' + j && j <= 7 && Pow2(bits) <= 2 * m' <= 2 * Pow2(bits)
    ensures 0 < m' && m' * Pow2(0) < Pow2(DOUBLE_BITS) * Pow2(p')
  {
    hide Pow2;
    Significand(bits);
    Significand(DOUBLE_BITS);
    PowZero();
    SmallPowers(0);
    PowGrows(bits - 7, p');
    PowAdd(7, bits - 7);
    Below53(m', Pow2(bits - 7), Pow2(p'), Pow2(DOUBLE_BITS));
  }

  lemma Below53(m': nat, q: nat, w': nat, big: nat)
    requires m' <= 128 * q && q <= w' && w' > 0 && big > 128
    ensures m' < big * w'
  {
    MulOrder(129, big, w');
  }

  /** The expression has a value for every distance. */
  lemma SomeValue(f: Format, n: nat, s: nat) returns (next: nat)
    requires n < s
    ensures FindsIn(f, n, s, next)
  {
    hide FindsBy, Rounds, Pow2;
    if n == 0 { return 0; }
    var m, p, m', p', m'', p'';
    next, m, p, m', p', m'', p'' := SomeRoundings(f, n, s);
    assert FindsBy(f, n, s, next, m, p, m', p', m'', p'');
  }

  lemma SomeRoundings(f: Format, n: nat, s: nat)
    returns (next: nat, m: nat, p: nat, m': nat, p': nat, m'': nat, p'': nat)
    requires 0 < n < s
    ensures FindsBy(f, n, s, next, m, p, m', p', m'', p'')
  {
    hide Rounds, Pow2;
    FirstRounding(Bits(f), n, s);
    m, p := SomeRounding(Bits(f), n, s, 0);
    m', p', m'', p'' := SomeProduct(f, n, s, m, p);
    next := m'' / Pow2(p'');
  }

  lemma SomeProduct(f: Format, n: nat, s: nat, m: nat, p: nat) returns (m': nat, p': nat, m'': nat, p'': nat)
    requires n < s && Rounds(Bits(f), n, s, m, p)
    ensures Rounds(Bits(f), INTERNAL_POINTERS * m, Pow2(p), m', p') && Rounds(DOUBLE_BITS, m', Pow2(p'), m'', p'')
  {
    hide Rounds, Pow2;
    QuotientRange(Bits(f), n, s, m, p);
    SecondRounding(Bits(f), n, s, m, p);
    m', p' := SomeRounding(Bits(f), INTERNAL_POINTERS * m, Pow2(p), 0);
    ThirdRounding(Bits(f), m, p, m', p');
    m'', p'' := SomeRounding(DOUBLE_BITS, m', Pow2(p'), 0);
  }

  /** Line 319 finds the child that holds the element. */
  ghost predicate PointerRight(f: Format, d: nat, g: nat)
    requires g > 0
  {
    forall next | Finds(f, d, g, next) :: next == d / g
  }

  /** It does so exactly for the distances that are not misled, in every format. */
  lemma PointerRightWhen(f: Format, d: nat, g: nat)
    requires Small(f, g) && d < INTERNAL_POINTERS * g && CastExact(INTERNAL_POINTERS * g)
    ensures PointerRight(f, d, g) <==> !Misled(f, d, g)
  {
    hide FindsIn, CastTo, Pow2, CastExact;
    forall next | Finds(f, d, g, next) ensures next == if Misled(f, d, g) then d / g - 1 else d / g {
      var n, s :| CastTo(f, d, g, n, s) && FindsIn(f, n, s, next);
      CastSame(f, d, g, n, s);
      FoundIs(f, d, g, next);
    }
    var next := SomePointer(f, d, g);
  }

  lemma CastSame(f: Format, d: nat, g: nat, n: nat, s: nat)
    requires Small(f, g) && d < INTERNAL_POINTERS * g && CastExact(INTERNAL_POINTERS * g) && CastTo(f, d, g, n, s)
    ensures n == d && s == INTERNAL_POINTERS * g
  {
    LargePowers();
  }

  lemma FoundIs(f: Format, d: nat, g: nat, next: nat)
    requires Small(f, g) && d < INTERNAL_POINTERS * g && FindsIn(f, d, INTERNAL_POINTERS * g, next)
    ensures next == if Misled(f, d, g) then d / g - 1 else d / g
  {
    hide FindsBy;
    if d > 0 {
      var m, p, m', p', m'', p'' :| FindsBy(f, d, INTERNAL_POINTERS * g, next, m, p, m', p', m'', p'');
      NextRounded(f, d, g, next, m, p, m', p', m'', p'');
    }
  }

  lemma SomePointer(f: Format, d: nat, g: nat) returns (next: nat)
    requires Small(f, g) && d < INTERNAL_POINTERS * g && CastExact(INTERNAL_POINTERS * g)
    ensures Finds(f, d, g, next)
  {
    hide FindsIn, Pow2, Cast;
    var s := AnyCast(INTERNAL_POINTERS * g);
    DistanceCast(f, d, g);
    next := SomeValue(f, d, INTERNAL_POINTERS * g);
    assert CastTo(f, d, g, d, s);
  }

  lemma AnyCast(x: nat) returns (y: nat)
    ensures Cast(x, y)
  {
    hide Pow2;
    PowZero();
    Significand(FLOAT_BITS);
    y := SomeCast(x, 0);
  }

  lemma DistanceCast(f: Format, d: nat, g: nat)
    requires Small(f, g) && d < INTERNAL_POINTERS * g
    ensures f.Single? ==> Cast(d, d)
  {
    LargePowers();
  }

  // ------------------------------------------------------------------ the way down the tree

  /** The elements below a tree of height `h`. */
  function Share(h: nat, epc: nat): (g: nat)
    requires epc > 0
    ensures g > 0 && g == Width(h) * epc
  {
    MulPositive(Width(h), epc);
    Width(h) * epc
  }

  /** From distance `d` at height `h` down to a leaf, every pointer found is that of the child that holds the
    element. Following it leaves the distance from the start of that child. */
  ghost predicate PathRight(f: Format, d: nat, epc: nat, h: nat)
    requires epc > 0
  {
    h == 0 || (PointerRight(f, d, Share(h - 1, epc)) && PathRight(f, d % Share(h - 1, epc), epc, h - 1))
  }

  /** The casts do not change the sizes of the slices, as is so in trees with room for less than 2^24 elements. */
  ghost predicate CastsExact(epc: nat, h: nat)
    requires epc > 0
  {
    h == 0 || (CastExact(Share(h, epc)) && CastsExact(epc, h - 1))
  }

  /** How many elements a tree may have room for. */
  function Room(f: Format): nat { if f.Single? then 12000000 else 0x1_0000_0000 }

  /** The lowest digit of `q` to the base 75 that is not 0. */
  function LowDigit(q: nat): nat {
    if q == 0 then 0 else if q % INTERNAL_POINTERS != 0 then q % INTERNAL_POINTERS else LowDigit(q / INTERNAL_POINTERS)
  }

  lemma {:induction false} LowDigitTop(k: nat, h: nat)
    requires k < INTERNAL_POINTERS
    ensures LowDigit(k * Width(h)) == k
  {
    if h > 0 && k > 0 {
      var q := k * Width(h - 1);
      assert k * Width(h) == q * INTERNAL_POINTERS;
      MulPositive(k, Width(h - 1));
      LowDigitStep(q * INTERNAL_POINTERS, q, 0);
      hide Width, LowDigit;
      LowDigitTop(k, h - 1);
    }
  }

  lemma {:induction false} LowDigitLow(k: nat, h: nat, q: nat)
    requires 0 < q < Width(h)
    ensures LowDigit(k * Width(h) + q) == LowDigit(q)
  {
    var w, a, r := k * Width(h - 1), q / INTERNAL_POINTERS, q % INTERNAL_POINTERS;
    MulAssoc(k, Width(h - 1), INTERNAL_POINTERS);
    assert q == a * INTERNAL_POINTERS + r;
    LowDigitStep(k * Width(h) + q, w + a, r);
    LowDigitStep(q, a, r);
    hide LowDigit;
    if r == 0 { LowDigitLow(k, h - 1, a); }
  }

  lemma LowDigitStep(x: nat, w: nat, r: nat)
    requires r < INTERNAL_POINTERS && x == w * INTERNAL_POINTERS + r && x > 0
    ensures LowDigit(x) == if r != 0 then r else LowDigit(w)
  {
    DivUnique(x, INTERNAL_POINTERS, w, r);
  }

  /** The search goes wrong for exactly those elements that start a leaf whose number, written to the base 75 and
    without its final zeros, ends in 49 or 63 (single precision) or in 55 (double precision). In extended
    precision it is right for every element. */
  lemma {:induction false} SamePath(f: Format, d: nat, epc: nat, h: nat)
    requires epc > 0 && d < Share(h, epc) <= Room(f) && CastsExact(epc, h)
    ensures PathRight(f, d, epc, h) <==> d % epc != 0 || LowDigit(d / epc) !in Wrong(f)
  {
    hide CastExact, PointerRight, LowDigit, Misled, Width;
    if h == 0 {
      AtLeafStart(d, epc);
    } else {
      var g := Share(h - 1, epc);
      ShareAbove(h, epc);
      var k, r := Split(d, g);
      PointerRightWhen(f, d, g);
      MisledWhole(f, d, g, k, r);
      DivUnique(d, g, k, r);
      SamePath(f, r, epc, h - 1);
      Digits(d, epc, h - 1, k, r);
    }
  }

  lemma AtLeafStart(d: nat, epc: nat)
    requires epc > 0 && d < Share(0, epc)
    ensures d % epc == 0 ==> LowDigit(d / epc) == 0
  {
    DivUnique(d, epc, 0, d);
  }

  lemma ShareAbove(h: nat, epc: nat)
    requires h > 0 && epc > 0
    ensures Share(h, epc) == INTERNAL_POINTERS * Share(h - 1, epc)
  {}

  lemma Digits(d: nat, epc: nat, h: nat, k: nat, r: nat)
    requires epc > 0 && d == k * Share(h, epc) + r && r < Share(h, epc) && k < INTERNAL_POINTERS
    ensures d % epc == r % epc
    ensures r == 0 ==> r % epc == 0 && LowDigit(r / epc) == 0 && LowDigit(d / epc) == k
    ensures r > 0 && r % epc == 0 ==> LowDigit(d / epc) == LowDigit(r / epc)
  {
    LeafNumber(d, epc, h, k, r);
    hide LowDigit, Width;
    if r == 0 {
      LowDigitTop(k, h);
      LowDigitTop(0, h);
    } else if r % epc == 0 {
      LowDigitLow(k, h, r / epc);
    }
  }

  /** The number of the leaf from its child's number and its place below the child. */
  lemma LeafNumber(d: nat, epc: nat, h: nat, k: nat, r: nat)
    requires epc > 0 && d == k * Share(h, epc) + r && r < Share(h, epc)
    ensures d % epc == r % epc && d / epc == k * Width(h) + r / epc
    ensures r > 0 && r % epc == 0 ==> 0 < r / epc < Width(h)
    ensures r == 0 ==> r % epc == 0 && r / epc == 0
  {
    hide Width;
    var w, q := Width(h), r / epc;
    Gathered(k, w, epc, q);
    assert r == epc * q + r % epc;
    DivUnique(d, epc, k * w + q, r % epc);
    if 0 < r && r % epc == 0 { WithinShare(q, w, epc, r); }
  }

  lemma Gathered(k: nat, w: nat, epc: nat, q: nat)
    ensures k * (w * epc) + epc * q == epc * (k * w + q)
  {}

  lemma WithinShare(q: nat, w: nat, epc: nat, r: nat)
    requires epc > 0 && r == epc * q && 0 < r < w * epc
    ensures 0 < q < w
  {
    Cancel(q, w, epc);
  }

  lemma LowDigitSmall(q: nat)
    requires q < 75
    ensures LowDigit(q) == q
  {}

  /** On the x87 every element is found. */
  lemma AlwaysRight(d: nat, epc: nat, h: nat)
    requires epc > 0 && d < Share(h, epc) < 0x100_0000
    ensures PathRight(Extended, d, epc, h)
  {
    SmallTrees(epc, h);
    SamePath(Extended, d, epc, h);
  }

  lemma {:induction false} SmallTrees(epc: nat, h: nat)
    requires epc > 0 && Share(h, epc) < 0x100_0000
    ensures CastsExact(epc, h)
  {
    LargePowers();
    if h > 0 {
      ShareAbove(h, epc);
      SmallTrees(epc, h - 1);
    }
  }

  /** The leaf whose first element is the first to be missed. */
  function FirstWrong(f: Format): nat { if f.Single? then 49 else 55 }

  lemma FirstMissed(f: Format, epc: nat, h: nat, d: nat)
    requires !f.Extended? && epc > 0
    requires FirstWrong(f) * epc < Share(h, epc) <= 12000000 && d <= FirstWrong(f) * epc
    ensures PathRight(f, d, epc, h) <==> d < FirstWrong(f) * epc
  {
    hide Share, PathRight, CastsExact, LowDigit;
    SmallTrees(epc, h);
    SamePath(f, d, epc, h);
    LeafOfElement(d, epc, FirstWrong(f));
    LowDigitSmall(d / epc);
  }

  lemma LeafOfElement(d: nat, epc: nat, first: nat)
    requires epc > 0 && d <= first * epc
    ensures d < first * epc ==> d / epc < first
    ensures d == first * epc ==> d / epc == first && d % epc == 0
  {
    if d < first * epc {
      assert d == epc * (d / epc) + d % epc;
      Cancel(d / epc, first, epc);
    } else {
      DivUnique(d, epc, first, 0);
    }
  }

  // ------------------------------------------------------------------ past the table

  /** A whole number is not rounded. */
  lemma RoundsWhole(bits: nat, c: nat, w: nat, n: nat, m: nat, p: nat)
    requires bits > 0 && w > 0 && n == c * w && Rounds(bits, n, w, m, p)
    ensures m == c * Pow2(p)
  {
    hide Pow2;
    Regroup(c, w, Pow2(p), 0);
    NearestMultiple(c * Pow2(p), w, m);
  }

  /** At a distance of a whole slice the pointer found is the 76th of 75. */
  lemma PastTheTable(f: Format, s: nat, next: nat)
    requires 0 < s && FindsIn(f, s, s, next)
    ensures next == INTERNAL_POINTERS
  {
    hide Pow2, Rounds;
    var m: nat, p: nat, m': nat, p': nat, m'': nat, p'': nat :| FindsBy(f, s, s, next, m, p, m', p', m'', p'');
    RoundsWhole(Bits(f), 1, s, s, m, p);
    RoundsWhole(Bits(f), INTERNAL_POINTERS, Pow2(p), INTERNAL_POINTERS * m, m', p');
    RoundsWhole(DOUBLE_BITS, INTERNAL_POINTERS, Pow2(p'), m', m'', p'');
    DivUnique(m'', Pow2(p''), INTERNAL_POINTERS, 0);
  }

  lemma WholeSlice(f: Format, s: nat)
    requires 0 < s
    ensures FindsIn(f, s, s, INTERNAL_POINTERS)
  {
    hide Rounds, Pow2, FindsBy;
    WholeRounds(f, s);
  }

  lemma WholeRounds(f: Format, s: nat)
    requires 0 < s
    ensures var b := Bits(f);
            FindsBy(f, s, s, INTERNAL_POINTERS, Pow2(b - 1), b - 1, INTERNAL_POINTERS * Pow2(b - 7), b - 7,
                    INTERNAL_POINTERS * Pow2(46), 46)
  {
    hide Rounds, Pow2;
    var b := Bits(f);
    OneIsRounded(b, s);
    WholesRounded(b, Pow2(b - 1));
    WholesRounded(DOUBLE_BITS, Pow2(b - 7));
    DivUnique(INTERNAL_POINTERS * Pow2(46), Pow2(46), INTERNAL_POINTERS, 0);
  }

  lemma OneIsRounded(bits: nat, s: nat)
    requires bits >= FLOAT_BITS && s > 0
    ensures Rounds(bits, s, s, Pow2(bits - 1), bits - 1)
  {
    PowZero();
    hide Rounds, Pow2;
    WholeIsRounded(bits, 1, s, bits - 1, 0);
  }

  lemma WholesRounded(bits: nat, w: nat)
    requires bits >= FLOAT_BITS && w > 0
    ensures Rounds(bits, INTERNAL_POINTERS * w, w, INTERNAL_POINTERS * Pow2(bits - 7), bits - 7)
  {
    SmallPowers(6);
    hide Rounds, Pow2;
    WholeIsRounded(bits, INTERNAL_POINTERS, w, bits - 7, 6);
  }

  /** A whole number with 2^j <= c < 2^(j + 1) and its rounding. */
  lemma WholeIsRounded(bits: nat, c: nat, w: nat, p: nat, j: nat)
    requires bits >= FLOAT_BITS && w > 0 && p + j == bits - 1 && Pow2(j) <= c < 2 * Pow2(j)
    ensures Rounds(bits, c * w, w, c * Pow2(p), p)
  {
    hide Pow2;
    Significand(bits);
    PowAdd(p, j);
    Regroup(c, w, Pow2(p), 0);
    WholeBetween(c, Pow2(j), Pow2(p), w);
    WholeIsNearest(c * Pow2(p), w);
  }

  lemma WholeBetween(c: nat, u: nat, power: nat, w: nat)
    requires w > 0 && power > 0 && u <= c < 2 * u
    ensures power * u * w <= c * power * w < 2 * (power * u) * w
  {
    MulOrder(u, c, power);
    MulOrder(u * power, c * power, w);
    MulOrder(c + 1, 2 * u, power);
    MulAssoc(2, u, power);
    Spread(c, 1, power);
    MulOrder(c * power + 1, 2 * (power * u), w);
    Spread(c * power, 1, w);
  }

  lemma WholeIsNearest(n: nat, d: nat)
    requires d > 0
    ensures Nearest(n * d, d, n)
  {}

  // ------------------------------------------------------------------ casts that round

  /** In extended precision, with slices of up to 2^32 elements, all elements are found. */
  ghost predicate AllRight(g: nat)
    requires g > 0
  {
    forall d: nat | d < INTERNAL_POINTERS * g :: PointerRight(Extended, d, g)
  }

  /** ... if and only if the cast of the slice to float does not round. */
  lemma ExtendedRightWhen(g: nat)
    requires Small(Extended, g)
    ensures AllRight(g) <==> CastExact(INTERNAL_POINTERS * g)
  {
    hide PointerRight, Pow2, Cast;
    var slice := INTERNAL_POINTERS * g;
    if CastExact(slice) {
      forall d: nat | d < slice ensures PointerRight(Extended, d, g) { PointerRightWhen(Extended, d, g); }
    } else {
      var s :| Cast(slice, s) && s != slice;
      var d, next := WrongPointer(g, s);
      NotRight(d, g, next);
    }
  }

  lemma NotRight(d: nat, g: nat, next: nat)
    requires g > 0 && Finds(Extended, d, g, next) && next != d / g
    ensures !PointerRight(Extended, d, g)
  {}

  lemma WrongPointer(g: nat, s: nat) returns (d: nat, next: nat)
    requires Small(Extended, g) && Cast(INTERNAL_POINTERS * g, s) && s != INTERNAL_POINTERS * g
    ensures d < INTERNAL_POINTERS * g && Finds(Extended, d, g, next) && next != d / g
  {
    hide FindsIn, Pow2, Cast;
    if s < INTERNAL_POINTERS * g {
      CastPositive(INTERNAL_POINTERS * g, s);
      d, next := s, INTERNAL_POINTERS;
      WholeSlice(Extended, s);
      var k, r := Split(d, g);
    } else {
      CastBelow(INTERNAL_POINTERS * g, s);
      d := g;
      next := SomeValue(Extended, g, s);
      RoundedUp(g, s, next);
    }
    assert CastTo(Extended, d, g, d, s);
  }

  lemma CastPositive(x: nat, y: nat)
    requires 0 < x && Cast(x, y)
    ensures 0 < y
  {
    LargePowers();
    hide Pow2;
    Significand(FLOAT_BITS);
    if x >= 0x100_0000 {
      var m, e :| CastBy(x, y, m, e);
      Between(m, Pow2(e), Pow2(FLOAT_BITS - 1), x);
      MulPositive(m, Pow2(e));
    }
  }

  lemma CastBelow(x: nat, y: nat)
    requires x <= 0x1_0000_0000 && Cast(x, y)
    ensures y <= 0x2_0000_0000
  {
    LargePowers();
    hide Pow2;
    if x >= 0x100_0000 {
      var m, e :| CastBy(x, y, m, e);
      Significand(FLOAT_BITS);
      MulOrder(2, Pow2(FLOAT_BITS - 1), Pow2(e));
    }
  }

  /** A slice that is cast to a larger number makes the first element of the second child look like one of the
    first. */
  lemma RoundedUp(g: nat, s: nat, next: nat)
    requires Small(Extended, g) && INTERNAL_POINTERS * g < s <= 0x2_0000_0000 && FindsIn(Extended, g, s, next)
    ensures next == 0
  {
    hide Rounds, Pow2;
    var m: nat, p: nat, m': nat, p': nat, m'': nat, p'': nat :| FindsBy(Extended, g, s, next, m, p, m', p', m'', p'');
    QuotientRange(64, g, s, m, p);
    var j := ProductError(64, m, p, m', p');
    ProductRange(64, INTERNAL_POINTERS * m, p, m', p');
    var i := ArgumentNarrow(m', p', m'', p'');
    SmallPowers(j);
    LargePowers();
    PowGrows(64, p);
    PowAdd(j, p');
    PowAdd(i, p'');
    MulAssoc(Pow2(j), Pow2(i), Pow2(p''));
    BelowOne(g, s, m, p);
    StillBelow(INTERNAL_POINTERS * m, m', Pow2(j), m'', Pow2(i), Pow2(p));
    Cancel(m'', Pow2(p''), Pow2(j) * Pow2(i));
    DivUnique(m'', Pow2(p''), 0, m'');
  }

  lemma BelowOne(g: nat, s: nat, m: nat, p: nat)
    requires INTERNAL_POINTERS * g < s <= 0x2_0000_0000 && Rounds(64, g, s, m, p)
    requires Pow2(p) >= 0x1_0000_0000_0000_0000
    ensures INTERNAL_POINTERS * m <= Pow2(p) - 0x8000_0000 + 38
  {
    BelowOneAt(g, s, m, Pow2(p));
  }

  lemma BelowOneAt(g: nat, s: nat, m: nat, power: nat)
    requires INTERNAL_POINTERS * g < s <= 0x2_0000_0000 && Nearest(g * power, s, m) && power >= 0x1_0000_0000_0000_0000
    ensures INTERNAL_POINTERS * m <= power - 0x8000_0000 + 38
  {
    MulOrder(INTERNAL_POINTERS * g, s - 1, power);
    Spread(s, 1, power);
    MulAssoc(INTERNAL_POINTERS, g, power);
    MulAssoc(INTERNAL_POINTERS, m, s);
    MulOrder(s, 0x2_0000_0000, 0x8000_0000);
    Spread(power, 0x8000_0000 - 38, s);
    Cancel(INTERNAL_POINTERS * m, power - 0x8000_0000 + 38, s);
  }

  lemma StillBelow(x: nat, m': nat, u: nat, m'': nat, w: nat, power: nat)
    requires x <= power - 0x8000_0000 + 38 && Nearest(x, u, m') && (u == 64 || u == 128)
    requires Nearest(m', w, m'') && 0 < w <= 4096
    ensures m'' * (u * w) < power
  {
    MulAssoc(m'', w, u);
    MulOrder(m'' * w, m' + 2048, u);
    Spread(m', 2048, u);
  }

  /** An input on which it does: a full tree of height 3 of four-byte elements has 31640625 of them, one more than
    the slice is cast to, and its last element is sent past the table, in every format. */
  lemma LastOfLargeSlice(f: Format, next: nat)
    requires Finds(f, 31640624, 421875, next)
    ensures Share(3, 75) == 31640625 && next == INTERNAL_POINTERS
  {
    assert Width(1) == 75 && Width(2) == 5625 && Width(3) == 421875;
    hide FindsIn, Pow2, Cast;
    var n, s :| CastTo(f, 31640624, 421875, n, s) && FindsIn(f, n, s, next);
    LargeCast(31640625, s);
    if f.Single? { LargeCast(31640624, n); }
    PastTheTable(f, s, next);
  }

  lemma LargeCast(x: nat, y: nat)
    requires 31640624 <= x <= 31640625 && Cast(x, y)
    ensures y == 31640624
  {
    hide Nearest, Pow2;
    LargePowers();
    Significand(FLOAT_BITS);
    var m, e :| CastBy(x, y, m, e);
    ExponentOne(x, e);
    HalfWay(x, m);
  }

  lemma ExponentOne(x: nat, e: nat)
    requires 31640624 <= x <= 31640625 && 0x80_0000 * Pow2(e) <= x < 0x100_0000 * Pow2(e)
    ensures e == 1 && Pow2(e) == 2
  {
    PowGrows(2, e);
    assert Pow2(1) == 2 && Pow2(2) == 4;
  }

  lemma HalfWay(x: nat, m: nat)
    requires 31640624 <= x <= 31640625 && Nearest(x, 2, m)
    ensures m == 15820312
  {}

  /** In single precision, with larger children, rounding may also lead one child too far. */
  lemma TooLarge()
    ensures Finds(Single, 12870745, 173929, 74) && 12870745 / 173929 == 73
  {
    hide Pow2;
    LargePowers();
    SmallPowers(0);
    PowAdd(8, 8);
    Twice(16);
    PowAdd(32, 8);
    PowAdd(40, 6);
    Significand(24);
    Significand(53);
    assert FindsBy(Single, 12870745, 13044675, 74, 16553519, 24, 9699328, 17, 74 * 0x4000_0000_0000, 46);
    hide FindsBy;
    assert FindsIn(Single, 12870745, 13044675, 74);
    assert CastTo(Single, 12870745, 173929, 12870745, 13044675);
  }

  /** Without rounding it is always the right child. */
  lemma ExactPointer(d: nat, g: nat)
    requires g > 0
    ensures ArrayIndex.NextPointer(d, INTERNAL_POINTERS * g) == d / g
  {
    var next := ArrayIndex.NextPointer(d, INTERNAL_POINTERS * g);
    ArrayIndex.ShareReal(d, g, INTERNAL_POINTERS * g, next);
    Spread(next, 1, g);
    DivUnique(d, g, next, d - next * g);
  }
}
