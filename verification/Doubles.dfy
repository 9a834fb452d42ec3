/** Double cells: their two readings, negation, and the half-word multiplication that produces them. */
module Doubles {
  import opened Words

  datatype Double = Double(low: Usize, high: Usize)

  function Value(n: Double): int {
    n.high * MODULUS + n.low
  }

  function SignedValue(n: Double): int {
    if IsNegative(n.high) then Value(n) - MODULUS * MODULUS else Value(n)
  }

  /** The upper and the lower half of a cell, and the cell made of two halves. */
  function Hi(u: int): int {
    u / HALF
  }

  function Lo(u: int): int {
    u % HALF
  }

  function Join(m: int, l: int): int {
    m % HALF * HALF + l % HALF
  }

  lemma Halves(u: Usize)
    ensures 0 <= Hi(u) < HALF && 0 <= Lo(u) < HALF && u == Hi(u) * HALF + Lo(u)
  {
    HalfFacts();
    HalvesOf(u, HALF);
  }

  lemma HalvesOf(u: int, h: int)
    requires 0 < h && 0 <= u < h * h
    ensures 0 <= u / h < h && u == u / h * h + u % h
  {
    Below(u / h, h, h, u % h);
  }

  /** q * d + r < k * d bounds q. */
  lemma Below(q: int, d: int, k: int, r: int)
    requires 0 < d && 0 <= r && q * d + r < k * d
    ensures q < k
  {
    MulAtLeast(k, q, d);
  }

  lemma JoinIs(m: int, l: int)
    requires 0 <= m < HALF && 0 <= l < HALF
    ensures Join(m, l) == m * HALF + l && 0 <= Join(m, l) < MODULUS
  {
    ModIs(m, HALF, 0, m);
    ModIs(l, HALF, 0, l);
    JoinBound(m, l, HALF);
  }

  lemma JoinBound(m: int, l: int, h: int)
    requires 0 <= m < h && 0 <= l < h
    ensures 0 <= m * h + l < h * h
  {
    MulAtLeast(m + 1, h, h);
    assert (m + 1) * h == m * h + h;
    MulAtLeast(0, m, h);
  }

  // ----- negation -----

  /** e4__double_negate */
  function NegateDouble(d: Double): Double {
    var low := (MODULUS - 1 - d.low + 1) % MODULUS;
    Double(low, (MODULUS - 1 - d.high + if low == 0 then 1 else 0) % MODULUS)
  }

  /** Negation is exact modulo 2^2W: it turns a negative double into its magnitude, and a magnitude that
      a signed double can hold into the negative number. */
  lemma NegateDoubleIs(d: Double)
    ensures Value(NegateDouble(d)) == if Value(d) == 0 then 0 else MODULUS * MODULUS - Value(d)
    ensures IsNegative(d.high) ==> Value(NegateDouble(d)) == -SignedValue(d)
    ensures Value(d) <= SIGN_BIT * MODULUS ==> SignedValue(NegateDouble(d)) == -Value(d)
  {
    WidthFacts();
    var m := MODULUS;
    var low := if d.low == 0 then 0 else m - d.low;
    ModIs(m - d.low, m, if d.low == 0 then 1 else 0, low);
    var high := m - 1 - d.high + if low == 0 then 1 else 0;
    ModIs(high, m, if high == m then 1 else 0, if high == m then 0 else high);
    NegateParts(d.low, d.high, low, if high == m then 0 else high, m, SIGN_BIT);
  }

  lemma NegateParts(l: int, h: int, l': int, h': int, m: int, s: int)
    requires 0 <= l < m && 0 <= h < m && 1 < s && m == 2 * s
    requires l' == if l == 0 then 0 else m - l
    requires h' == if l != 0 then m - 1 - h else if h == 0 then 0 else m - h
    ensures h' * m + l' == if h * m + l == 0 then 0 else m * m - (h * m + l)
    ensures h > (m - 1) / 2 <==> s <= h
    ensures h * m + l <= s * m ==> (h' > (m - 1) / 2 <==> h * m + l != 0)
  {
    NegateSum(l, h, m);
    MulAtLeast(1, h, m);
    MulAtLeast(s, h, m);
    MulAtLeast(s + 1, h, m);
    assert (s + 1) * m == s * m + m;
  }

  lemma NegateSum(l: int, h: int, m: int)
    ensures (m - 1 - h) * m == m * m - m - h * m
    ensures (m - h) * m == m * m - h * m
  {
  }

  lemma ValueBounds(n: Double)
    ensures 0 <= Value(n) < MODULUS * MODULUS
    ensures -(SIGN_BIT * MODULUS) <= SignedValue(n) < SIGN_BIT * MODULUS
    ensures IsNegative(n.high) <==> SignedValue(n) < 0
  {
    WidthFacts();
    BoundParts(n.low, n.high, MODULUS, SIGN_BIT);
  }

  lemma BoundParts(l: int, h: int, m: int, s: int)
    requires 0 <= l < m && 0 <= h < m && m == 2 * s
    ensures 0 <= h * m + l < m * m
    ensures s <= h ==> s * m <= h * m + l && h * m + l - m * m < 0 && h * m + l - m * m >= -(s * m)
    ensures h < s ==> h * m + l < s * m
    ensures h > (m - 1) / 2 <==> s <= h
  {
    JoinBound(h, l, m);
    MulAtLeast(s, h, m);
    MulAtLeast(h, s - 1, m);
    HalfSquare(s, m);
  }

  lemma HalfSquare(s: int, m: int)
    requires m == 2 * s
    ensures m * m == 2 * (s * m) && (s - 1) * m == s * m - m
  {
  }

  // ----- multiplication -----

  /** e4__usize_mul on magnitudes: four half-word products and their carries. */
  function MulUnsigned(l: Usize, r: Usize): Double {
    var ll, lh, rl, rh := Lo(l), Hi(l), Lo(r), Hi(r);
    var t0 := ll * rl % MODULUS;
    var t1 := (ll * rh + Hi(t0)) % MODULUS;
    var t2 := lh * rl % MODULUS;
    var s0 := Join(Lo(t1), Lo(t0));
    var low := (s0 + Join(Lo(t2), 0)) % MODULUS;
    Double(low, (Hi(t1) + Hi(t2) + lh * rh + if low < s0 then 1 else 0) % MODULUS)
  }

  function Mul(l: Usize, r: Usize, signed: bool): Double {
    if !signed then MulUnsigned(l, r)
    else
      var p := MulUnsigned(if IsNegative(l) then Negate(l) else l, if IsNegative(r) then Negate(r) else r);
      if IsNegative(l) != IsNegative(r) then NegateDouble(p) else p
  }

  lemma ProductBound(x: int, y: int, h: int)
    requires 0 <= x < h && 0 <= y < h
    ensures 0 <= x * y <= (h - 1) * (h - 1)
    ensures x * y + h - 1 < h * h
  {
    MulAtLeast(0, x, y);
    MulAtLeast(x, h - 1, y);
    MulAtLeast(y, h - 1, h - 1);
    Square(h);
  }

  lemma Square(h: int)
    ensures (h - 1) * (h - 1) == h * h - 2 * h + 1
  {
  }

  /** The carries out of one half-word product and an addend. */
  lemma PartProduct(x: int, y: int, c: int)
    requires 0 <= x < HALF && 0 <= y < HALF && 0 <= c < HALF
    ensures var t := x * y + c;
      t % MODULUS == t && 0 <= Hi(t) < HALF && 0 <= Lo(t) < HALF && t == Hi(t) * HALF + Lo(t)
  {
    ProductBound(x, y, HALF);
    var t := x * y + c;
    ModIs(t, MODULUS, 0, t);
    Halves(t);
  }

  /** The low cell, and the carry into the high one. */
  lemma LowCellCarries(p1: int, p0: int, p2: int)
    requires 0 <= p1 < HALF && 0 <= p0 < HALF && 0 <= p2 < HALF
    ensures var s0 := Join(p1, p0);
      var low := (s0 + Join(p2, 0)) % MODULUS;
      var carry := if low < s0 then 1 else 0;
      0 <= low < MODULUS && p1 * HALF + p0 + (p2 * HALF + 0) == carry * MODULUS + low
  {
    HalfFacts();
    JoinIs(p1, p0);
    JoinIs(p2, 0);
    var sum := p1 * HALF + p0 + p2 * HALF;
    var carry := if sum < MODULUS then 0 else 1;
    ModIs(sum, MODULUS, carry, sum - carry * MODULUS);
  }

  lemma MulUnsignedIsExact(l: Usize, r: Usize)
    ensures Value(MulUnsigned(l, r)) == l * r
  {
    Halves(l);
    Halves(r);
    var ll, lh, rl, rh := Lo(l), Hi(l), Lo(r), Hi(r);
    hide Hi, Lo, Join;
    PartProduct(ll, rl, 0);
    var t0 := ll * rl;
    PartProduct(ll, rh, Hi(t0));
    var t1 := ll * rh + Hi(t0);
    PartProduct(lh, rl, 0);
    var t2 := lh * rl;
    LowCellCarries(Lo(t1), Lo(t0), Lo(t2));
    var s0 := Join(Lo(t1), Lo(t0));
    var low := (s0 + Join(Lo(t2), 0)) % MODULUS;
    var carry := if low < s0 then 1 else 0;
    var high := Hi(t1) + Hi(t2) + lh * rh + carry;
    Assemble(HALF, ll, lh, rl, rh, Hi(t0), Lo(t0), Hi(t1), Lo(t1), Hi(t2), Lo(t2), carry * MODULUS + low, carry, high);
    ProductsBound(l, r, MODULUS);
    HighBound(l * r, high, low, MODULUS);
    ModIs(high, MODULUS, 0, high);
  }

  lemma ProductsBound(l: int, r: int, m: int)
    requires 0 <= l < m && 0 <= r < m
    ensures 0 <= l * r < m * m
  {
    ProductBound(l, r, m);
  }

  lemma HighBound(p: int, high: int, low: int, m: int)
    requires 0 <= p < m * m && p == high * m + low && 0 <= low < m
    ensures 0 <= high < m
  {
    Below(high, m, m, low);
    MulAtLeast(high, -1, m);
  }

  /** The school method in base h. */
  lemma Assemble(h: int, ll: int, lh: int, rl: int, rh: int, c0: int, p0: int, c1: int, p1: int, c2: int, p2: int,
                 sum: int, carry: int, high: int)
    requires ll * rl == c0 * h + p0 && ll * rh + c0 == c1 * h + p1 && lh * rl == c2 * h + p2
    requires sum == p1 * h + p0 + (p2 * h + 0) && high == c1 + c2 + lh * rh + carry
    ensures (lh * h + ll) * (rh * h + rl) == high * (h * h) + (sum - carry * (h * h))
  {
    var m := h * h;
    calc {
      (lh * h + ll) * (rh * h + rl);
    == { Expand(lh, ll, rh, rl, h); }
      lh * rh * m + (ll * rh) * h + (lh * rl) * h + ll * rl;
    == { assert ll * rh == c1 * h + p1 - c0; }
      lh * rh * m + (c1 * h + p1 - c0) * h + (c2 * h + p2) * h + (c0 * h + p0);
    == { Scale(c1, p1 - c0, h); Scale(c2, p2, h); }
      lh * rh * m + (c1 * m + (p1 - c0) * h) + (c2 * m + p2 * h) + (c0 * h + p0);
    == { assert (p1 - c0) * h == p1 * h - c0 * h; }
      lh * rh * m + c1 * m + c2 * m + sum;
    == { Collect(lh * rh, c1, c2, carry, m); }
      high * m - carry * m + sum;
    }
  }

  lemma Expand(lh: int, ll: int, rh: int, rl: int, h: int)
    ensures (lh * h + ll) * (rh * h + rl) == lh * rh * (h * h) + (ll * rh) * h + (lh * rl) * h + ll * rl
  {
    assert (lh * h + ll) * (rh * h + rl) == (lh * h) * (rh * h) + (lh * h) * rl + ll * (rh * h) + ll * rl;
    assert (lh * h) * (rh * h) == lh * rh * (h * h);
    assert (lh * h) * rl == (lh * rl) * h;
    assert ll * (rh * h) == (ll * rh) * h;
  }

  lemma Scale(c: int, p: int, h: int)
    ensures (c * h + p) * h == c * (h * h) + p * h
  {
  }

  lemma Collect(a: int, b: int, c: int, d: int, m: int)
    ensures (b + c + a + d) * m - d * m == a * m + b * m + c * m
  {
  }

  /** The product is exact: unsigned for all cells, signed for all signed cells. */
  lemma MulIsExact(l: Usize, r: Usize)
    ensures Value(Mul(l, r, false)) == l * r
    ensures SignedValue(Mul(l, r, true)) == Signed(l) * Signed(r)
  {
    MulUnsignedIsExact(l, r);
    WidthFacts();
    NegateMagnitude(l);
    NegateMagnitude(r);
    var a: Usize, b: Usize := if IsNegative(l) then Negate(l) else l, if IsNegative(r) then Negate(r) else r;
    var p := MulUnsigned(a, b);
    MulUnsignedIsExact(a, b);
    MagnitudesBound(a, b, SIGN_BIT, MODULUS);
    SignedProduct(Signed(l), Signed(r), a, b);
    NegateDoubleIs(p);
    ValueBounds(p);
    SmallIsPositive(p);
  }

  lemma SmallIsPositive(p: Double)
    requires Value(p) < SIGN_BIT * MODULUS
    ensures SignedValue(p) == Value(p)
  {
    WidthFacts();
    BoundParts(p.low, p.high, MODULUS, SIGN_BIT);
  }

  lemma MagnitudesBound(a: int, b: int, s: int, m: int)
    requires 0 <= a <= s && 0 <= b <= s && m == 2 * s && 0 < s
    ensures 0 <= a * b < s * m
  {
    assert a * b <= s * b <= s * s < s * m;
  }

  lemma SignedProduct(x: int, y: int, a: int, b: int)
    requires (a == x && 0 <= x) || (a == -x && x < 0)
    requires (b == y && 0 <= y) || (b == -y && y < 0)
    ensures x * y == if (x < 0) != (y < 0) then -(a * b) else a * b
  {
    if x < 0 {
      if y < 0 {
        assert (-x) * (-y) == x * y;
      } else {
        assert (-x) * y == -(x * y);
      }
    } else if y < 0 {
      assert x * (-y) == -(x * y);
    }
  }
}
