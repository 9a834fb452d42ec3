/** Long division of a double cell by a cell, as Knuth and Warren do it with half-word digits, and the
    signed, floored and wide divisions built on it. */
module Division {
  import opened Words
  import opened Machine
  import opened Doubles

  const E_OK := 0
  const E_DIVBYZERO := -10
  const E_RSLTOUTORANGE := -11

  // ----- shifts and masks -----

  lemma BitwiseStep(op: BitOp, a: int, b: int, n: nat)
    requires 0 < n
    ensures var p := Pow2(n - 1);
      Bitwise(op, a, b, n) == (if OnBits(op, a >= p, b >= p) then p else 0) + Bitwise(op, a % p, b % p, n - 1)
  {
  }

  /** Dropping the top bit keeps the low ones. */
  lemma DropTop(u: int, n: nat, j: nat)
    requires 0 < n && j < n && 0 <= u < Pow2(n)
    ensures var p := Pow2(n - 1);
      u % p == (if u >= p then u - p else u) && u % p % Pow2(j) == u % Pow2(j)
  {
    var p := Pow2(n - 1);
    ModIs(u, p, if u >= p then 1 else 0, if u >= p then u - p else u);
    Pow2Sum(j, n - 1 - j);
    SameResidue(u, u % p, if u >= p then Pow2(n - 1 - j) else 0, Pow2(j));
  }

  lemma MaskTop(n: nat, j: nat)
    requires 0 < n && j < n
    ensures var p := Pow2(n - 1);
      p <= Pow2(n) - Pow2(j) && (Pow2(n) - Pow2(j)) % p == p - Pow2(j)
  {
    var p := Pow2(n - 1);
    Pow2Monotone(j, n - 1);
    ModIs(2 * p - Pow2(j), p, 1, p - Pow2(j));
  }

  /** Masking with ones from bit j upward. */
  lemma {:induction false} AndMask(u: int, n: nat, j: nat)
    requires 0 <= u < Pow2(n) && j <= n
    ensures Bitwise(BitAnd, Pow2(n) - Pow2(j), u, n) == u - u % Pow2(j)
  {
    if n == j {
      AndZero(u, n);
      ModIs(u, Pow2(n), 0, u);
    } else {
      hide Bitwise;
      BitwiseStep(BitAnd, Pow2(n) - Pow2(j), u, n);
      MaskTop(n, j);
      DropTop(u, n, j);
      var p := Pow2(n - 1);
      var v := u % p;
      assert v < p;
      AndMask(v, n - 1, j);
    }
  }

  lemma {:induction false} AndZero(u: int, n: nat)
    requires 0 <= u < Pow2(n)
    ensures Bitwise(BitAnd, 0, u, n) == 0
  {
    if n == 0 {
    } else {
      var p := Pow2(n - 1);
      ModIs(0, p, 0, 0);
      ModIs(u, p, if u >= p then 1 else 0, if u >= p then u - p else u);
      AndZero(u % p, n - 1);
    }
  }

  lemma MaskTests(u: Usize, j: nat)
    requires j <= BITS
    ensures Bitwise(BitAnd, MODULUS - Pow2(j), u, BITS) == 0 <==> u < Pow2(j)
  {
    WidthFacts();
    AndMask(u, BITS, j);
    if u < Pow2(j) {
      ModIs(u, Pow2(j), 0, u);
    }
  }

  /** m all ones from bit n - 2w upward becomes all ones from bit n - w upward when shifted by w. */
  lemma MaskShifts(m: int, e: int, p: int)
    requires 0 < e && 0 < p && e * p < m
    ensures (m - e) * p % m == m - e * p
  {
    assert (m - e) * p == m * p - e * p;
    assert m * p - e * p == (p - 1) * m + (m - e * p);
    MulPositive(e, p);
    ModIs((m - e) * p, m, p - 1, m - e * p);
  }

  lemma MulPositive(a: int, b: int)
    requires 0 < a && 0 < b
    ensures 0 < a * b
  {
  }

  lemma MulBelow(a: int, b: int, p: int)
    requires 0 < p
    ensures a < b <==> a * p < b * p
    ensures a <= b <==> a * p <= b * p
  {
    MulAtLeast(a, b, p);
    MulAtLeast(b, a, p);
    MulAtLeast(a + 1, b, p);
    MulAtLeast(b + 1, a, p);
  }

  lemma Halving(w: nat, k: nat)
    requires w == Pow2(k)
    ensures if k == 0 then w / 2 == 0 else w / 2 == Pow2(k - 1) && 2 * (w / 2) == w
  {
  }

  lemma BitsIsPower()
    ensures BITS == Pow2(LOG_BITS)
  {
  }

  lemma MaskMoves(w: nat)
    requires 0 < w && 2 * w <= BITS
    ensures (MODULUS - Pow2(BITS - 2 * w)) * Pow2(w) % MODULUS == MODULUS - Pow2(BITS - w)
  {
    hide Pow2;
    WidthFacts();
    Pow2Sum(BITS - 2 * w, w);
    Pow2Monotone(BITS - w, BITS);
    MaskShifts(MODULUS, Pow2(BITS - 2 * w), Pow2(w));
  }

  lemma NothingShifted(u: int)
    ensures Pow2(0) == 1 && u * Pow2(0) == u
  {
  }

  /** e4__usize_clz: leading zeros, by halving.  This is where the width must be a power of two. */
  method Clz(u: Usize) returns (c: nat)
    ensures u == 0 ==> c == BITS
    ensures u != 0 ==> c < BITS && Pow2(BITS - 1 - c) <= u < Pow2(BITS - c)
  {
    hide Pow2, Bitwise;
    var x, m, w := u, MODULUS - 1, BITS;
    c := 0;
    if u == 0 {
      return BITS;
    }
    ghost var k: nat := LOG_BITS;
    WidthFacts();
    BitsIsPower();
    NothingShifted(u);
    while w / 2 != 0
      invariant w == Pow2(k) <= BITS
      invariant c <= BITS - w
      invariant m == MODULUS - Pow2(BITS - w)
      invariant x == u * Pow2(c) && Pow2(BITS - w) <= x < MODULUS
    {
      Halving(w, k);
      k := k - 1;
      w := w / 2;
      MaskMoves(w);
      m := m * Pow2(w) % MODULUS;
      MaskTests(x, BITS - w);
      if Bitwise(BitAnd, m, x, BITS) == 0 {
        ShiftFits(x, w, c, u);
        c := c + w;
        x := x * Pow2(w) % MODULUS;
      }
    }
    Halving(w, k);
    ClzBounds(u, c);
  }

  lemma ShiftFits(x: int, w: nat, c: nat, u: int)
    requires x == u * Pow2(c) && 2 * w <= BITS && Pow2(BITS - 2 * w) <= x < Pow2(BITS - w)
    ensures x * Pow2(w) % MODULUS == u * Pow2(c + w)
    ensures Pow2(BITS - w) <= u * Pow2(c + w) < MODULUS
  {
    WidthFacts();
    Pow2Sum(c, w);
    Pow2Sum(BITS - 2 * w, w);
    Pow2Sum(BITS - w, w);
    Associate(u, Pow2(c), Pow2(w));
    MulBelow(x, Pow2(BITS - w), Pow2(w));
    MulAtLeast(Pow2(BITS - 2 * w), x, Pow2(w));
    ModIs(x * Pow2(w), MODULUS, 0, x * Pow2(w));
  }

  lemma Associate(a: int, b: int, c: int)
    ensures a * b * c == a * (b * c)
  {
  }

  lemma ClzBounds(u: int, c: nat)
    requires c < BITS && Pow2(BITS - 1) <= u * Pow2(c) < Pow2(BITS)
    ensures Pow2(BITS - 1 - c) <= u < Pow2(BITS - c)
  {
    Pow2Sum(BITS - 1 - c, c);
    Pow2Sum(BITS - c, c);
    MulBelow(Pow2(BITS - 1 - c), u, Pow2(c));
    MulBelow(u, Pow2(BITS - c), Pow2(c));
  }

  // ----- one digit -----

  /** While the guess is rejected it is too big, so that lowering it is safe. */
  lemma GuessTooBig(h: int, n32: int, n1: int, d1: int, d0: int, q: int, rem: int)
    requires 0 <= n1 < h && 0 < d1 && 0 <= d0 && 0 <= n32 < d1 * h + d0
    requires rem == n32 - q * d1 && (q >= h || q * d0 > rem * h + n1)
    ensures n32 * h + n1 < q * (d1 * h + d0)
  {
    var d := d1 * h + d0;
    if q >= h {
      MulAtLeast(h, q, d);
      MulAtLeast(n32, d - 1, h);
      assert (d - 1) * h == h * d - h;
    } else {
      SplitProduct(q, d1, d0, h, n32, rem);
    }
  }

  lemma SplitProduct(q: int, d1: int, d0: int, h: int, n32: int, rem: int)
    requires rem == n32 - q * d1
    ensures q * (d1 * h + d0) == n32 * h - rem * h + q * d0
  {
    assert q * (d1 * h) == (q * d1) * h;
  }

  /** When it is accepted it is not too big. */
  lemma GuessFits(h: int, n32: int, n1: int, d1: int, d0: int, q: int, rem: int)
    requires 0 <= n1 < h && 0 <= d0 < h && rem == n32 - q * d1
    requires q * d0 <= rem * h + n1 || (h <= rem && 0 <= q <= h)
    ensures q * (d1 * h + d0) <= n32 * h + n1
  {
    SplitProduct(q, d1, d0, h, n32, rem);
    if q * d0 > rem * h + n1 {
      MulAtLeast(q, h, d0);
      MulAtLeast(d0, h, h);
      MulAtLeast(h, rem, h);
    }
  }

  /** The first guess is at least the digit and at most two above the largest one. */
  lemma FirstGuess(h: int, n32: int, n1: int, d1: int, d0: int)
    requires 0 <= n1 < h && h <= 2 * d1 && 0 <= d0 < h && 0 <= n32 < d1 * h + d0
    ensures 0 <= n32 / d1 <= h + 1 && 0 <= n32 % d1 < d1
    ensures n32 % d1 == n32 - n32 / d1 * d1
    ensures n32 * h + n1 < (n32 / d1 + 1) * (d1 * h + d0)
  {
    DivMod(n32, d1);
    GuessBounds(h, n32, n1, d1, d0, n32 / d1, n32 % d1);
  }

  lemma GuessBounds(h: int, n32: int, n1: int, d1: int, d0: int, q: int, r: int)
    requires 0 <= n1 < h && h <= 2 * d1 && 0 <= d0 < h && 0 <= n32 < d1 * h + d0
    requires n32 == q * d1 + r && 0 <= q && 0 <= r < d1
    ensures q <= h + 1 && n32 * h + n1 < (q + 1) * (d1 * h + d0)
  {
    assert (h + 2) * d1 == d1 * h + 2 * d1;
    Below(q, d1, h + 2, r);
    GuessProduct(h, n32, d1, d0, q);
    assert (q + 1) * d1 == q * d1 + d1;
    MulAtLeast(n32 + 1, (q + 1) * d1, h);
    MulAtLeast(0, q + 1, d0);
  }

  lemma GuessProduct(h: int, n32: int, d1: int, d0: int, q: int)
    ensures (n32 + 1) * h == n32 * h + h
    ensures (q + 1) * (d1 * h + d0) == (q + 1) * d1 * h + (q + 1) * d0
  {
    assert (q + 1) * (d1 * h) == (q + 1) * d1 * h;
  }

  lemma QuotientPositive(n: int, d: int)
    requires 0 <= n && 0 < d
    ensures 0 <= n / d
  {
  }

  lemma DigitBounds(t: int, d: int, q: int, h: int)
    requires 0 <= t < d * h && 0 < d && q * d <= t < (q + 1) * d
    ensures 0 <= q < h && 0 <= t - q * d < d
  {
    assert (q + 1) * d == q * d + d;
    assert d * h == h * d;
    Below(q, d, h, t - q * d);
    MulAtLeast(q + 1, 0, d);
  }

  /** The guess is not below the digit, and rem is what it leaves of the upper part. */
  ghost predicate Guessing(n32: int, n1: int, d1: int, d0: int, q: int, rem: int) {
    && rem == n32 - q * d1 && 0 <= q <= HALF + 1
    && n32 * HALF + n1 < (q + 1) * (d1 * HALF + d0)
  }

  lemma GuessStarts(n32: int, n1: int, d1: int, d0: int)
    requires HALF <= 2 * d1 && 0 < d1 < HALF && 0 <= d0 < HALF && 0 <= n1 < HALF && 0 <= n32 < d1 * HALF + d0
    ensures Guessing(n32, n1, d1, d0, n32 / d1, n32 % d1) && 0 <= n32 % d1 < HALF
  {
    FirstGuess(HALF, n32, n1, d1, d0);
  }

  lemma GuessLowers(n32: int, n1: int, d1: int, d0: int, q: int, rem: int)
    requires 0 < d1 < HALF && 0 <= d0 < HALF && 0 <= n1 < HALF && 0 <= n32 < d1 * HALF + d0
    requires Guessing(n32, n1, d1, d0, q, rem) && 0 <= rem < HALF
    requires q >= HALF || q * d0 % MODULUS > Join(rem, n1)
    ensures Guessing(n32, n1, d1, d0, q - 1, rem + d1) && 0 < q <= HALF + 1
  {
    Guess(q, rem, n32, n1, d1, d0);
    GuessTooBig(HALF, n32, n1, d1, d0, q, rem);
    QPositive(n32 * HALF + n1, q, d1 * HALF + d0, n32, n1, HALF);
    assert (q - 1) * d1 == q * d1 - d1;
  }

  /** The loop ends because the guess is accepted, or because after at least one step rem is too big for
      it to be rejected. */
  lemma GuessEnds(n32: int, n1: int, d1: int, d0: int, q: int, rem: int)
    requires 0 < d1 < HALF && 0 <= d0 < HALF && 0 <= n1 < HALF && 0 <= n32 < d1 * HALF + d0
    requires Guessing(n32, n1, d1, d0, q, rem) && 0 <= rem
    requires if rem < HALF then q < HALF && q * d0 % MODULUS <= Join(rem, n1) else q <= HALF
    ensures 0 <= q < HALF
    ensures 0 <= n32 * HALF + n1 - q * (d1 * HALF + d0) < d1 * HALF + d0
  {
    if rem < HALF {
      Guess(q, rem, n32, n1, d1, d0);
    }
    GuessFits(HALF, n32, n1, d1, d0, q, rem);
    ScaledBelow(n32, d1 * HALF + d0, n1, HALF);
    DigitBounds(n32 * HALF + n1, d1 * HALF + d0, q, HALF);
  }

  lemma GuessRange(n32: int, n1: int, d1: int, d0: int, q: int, rem: int)
    requires Guessing(n32, n1, d1, d0, q, rem)
    ensures 0 <= q <= HALF + 1
  {
  }

  /** Each of the two correction loops ends on the true half-word digit; its product never wraps. */
  method Digit(n32: int, n1: int, d1: int, d0: int) returns (q: int)
    requires HALF <= 2 * d1 && 0 < d1 < HALF && 0 <= d0 < HALF && 0 <= n1 < HALF
    requires 0 <= n32 < d1 * HALF + d0
    ensures 0 <= q < HALF
    ensures 0 <= n32 * HALF + n1 - q * (d1 * HALF + d0) < d1 * HALF + d0
  {
    hide Guessing, Join;
    q := n32 / d1;
    var rem := n32 % d1;
    GuessStarts(n32, n1, d1, d0);
    GuessRange(n32, n1, d1, d0, q, rem);
    while q >= HALF || q * d0 % MODULUS > Join(rem, n1)
      invariant 0 <= rem < HALF && 0 <= q && Guessing(n32, n1, d1, d0, q, rem)
      decreases q
    {
      GuessLowers(n32, n1, d1, d0, q, rem);
      q := q - 1;
      rem := rem + d1;
      if rem >= HALF {
        break;
      }
    }
    GuessEnds(n32, n1, d1, d0, q, rem);
  }

  lemma QPositive(t: int, q: int, d: int, n32: int, n1: int, h: int)
    requires t == n32 * h + n1 && 0 <= n32 && 0 <= n1 && 0 < h && t < q * d && 0 < d
    ensures 0 < q
  {
    MulAtLeast(0, n32, h);
    MulAtLeast(q, 0, d);
  }

  lemma ScaledBelow(n: int, d: int, l: int, h: int)
    requires 0 <= n < d && 0 <= l < h
    ensures 0 <= n * h + l < d * h
  {
    MulAtLeast(n + 1, d, h);
    MulAtLeast(0, n, h);
    assert (n + 1) * h == n * h + h;
  }

  /** The loop test, without the machine's words. */
  lemma Guess(q: int, rem: int, n32: int, n1: int, d1: int, d0: int)
    requires 0 <= q && 0 <= rem < HALF && 0 <= n1 < HALF && 0 <= d0 < HALF
    ensures q < HALF ==> q * d0 % MODULUS == q * d0
    ensures Join(rem, n1) == rem * HALF + n1
  {
    JoinIs(rem, n1);
    if q < HALF {
      ProductBound(q, d0, HALF);
      ModIs(q * d0, MODULUS, 0, q * d0);
    }
  }

  // ----- unsigned division -----

  /** Or-ing in bits below all those of a multiple adds them. */
  lemma {:induction false} OrDisjoint(x: int, b: int, n: nat, s: nat)
    requires s <= n && 0 <= x < Pow2(n) && x % Pow2(s) == 0 && 0 <= b < Pow2(s)
    ensures Bitwise(BitOr, x, b, n) == x + b
  {
    if n == s {
      ModIs(x, Pow2(n), 0, x);
      OrZero(b, n);
    } else {
      hide Bitwise;
      BitwiseStep(BitOr, x, b, n);
      Pow2Monotone(s, n - 1);
      DropTop(x, n, s);
      assert b < Pow2(n - 1);
      ModIs(b, Pow2(n - 1), 0, b);
      OrDisjoint(x % Pow2(n - 1), b, n - 1, s);
    }
  }

  lemma {:induction false} OrZero(b: int, n: nat)
    requires 0 <= b < Pow2(n)
    ensures Bitwise(BitOr, 0, b, n) == b
  {
    if n == 0 {
    } else {
      var p := Pow2(n - 1);
      ModIs(0, p, 0, 0);
      ModIs(b, p, if b >= p then 1 else 0, if b >= p then b - p else b);
      OrZero(b % p, n - 1);
    }
  }

  lemma DivMod(n: int, d: int)
    requires 0 <= n && 0 < d
    ensures n == n / d * d + n % d && 0 <= n / d && 0 <= n % d < d
  {
    QuotientPositive(n, d);
  }

  lemma NormalBounds(high: int, lq: int, lr: int, d: int, p: int, r: int, m: int)
    requires 0 < p && 0 < r && p * r == m && lq * r + lr < m && 0 <= lr < r && 0 <= high < d && d * p < m
    ensures lq < p && 0 <= high * p && high * p + p <= d * p && 0 <= lr * p < m
  {
    Below(lq, r, p, lr);
    MulAtLeast(high + 1, d, p);
    assert (high + 1) * p == high * p + p;
    MulAtLeast(0, high, p);
    MulBelow(lr, r, p);
    MulAtLeast(0, lr, p);
    assert r * p == p * r;
  }

  /** Scaling numerator and denominator by p, the numerator spread over three half words and more. */
  lemma Normalize(high: int, low: int, d: int, p: int, r: int, m: int)
    requires 0 < p && 0 < r && p * r == m && 0 <= low < m && 0 <= high < d && d * p < m
    ensures high * p % m == high * p && 0 <= low / r < p
    ensures high * p % p == 0 && 0 <= high * p
    ensures var n32, n10 := high * p + low / r, low * p % m;
      (high * m + low) * p == n32 * m + n10 && 0 <= n32 < d * p
  {
    DivMod(low, r);
    NormalParts(high, low, low / r, low % r, d, p, r, m);
  }

  lemma NormalParts(high: int, low: int, lq: int, lr: int, d: int, p: int, r: int, m: int)
    requires 0 < p && 0 < r && p * r == m && 0 <= low < m && 0 <= high < d && d * p < m
    requires low == lq * r + lr && 0 <= lq && 0 <= lr < r
    ensures high * p % m == high * p && lq < p && high * p % p == 0 && 0 <= high * p
    ensures var n32 := high * p + lq;
      (high * m + low) * p == n32 * m + low * p % m && 0 <= n32 < d * p
  {
    NormalBounds(high, lq, lr, d, p, r, m);
    Spread(lq, lr, p, r, m);
    Widen(high, low, p, m, lq, lr);
    NormalRests(high * p, low * p, lq, lr * p, p, m, high);
  }

  lemma NormalRests(hp: int, lowp: int, lq: int, lrp: int, p: int, m: int, high: int)
    requires 0 < p && 0 <= hp < m && hp == high * p && lowp == lq * m + lrp && 0 <= lrp < m
    ensures hp % m == hp && hp % p == 0 && lowp % m == lrp
  {
    ModIs(hp, m, 0, hp);
    ModIs(hp, p, high, 0);
    ModIs(lowp, m, lq, lrp);
  }

  lemma Spread(lq: int, lr: int, p: int, r: int, m: int)
    requires p * r == m
    ensures (lq * r + lr) * p == lq * m + lr * p
  {
    assert lq * r * p == lq * (p * r);
  }

  lemma Widen(high: int, low: int, p: int, m: int, lq: int, lr: int)
    requires low * p == lq * m + lr * p
    ensures (high * m + low) * p == (high * p + lq) * m + lr * p
  {
    assert high * m * p == high * p * m;
  }

  /** Reducing U(n32, n1) - q1 * d to a cell gives the true rest, though n32 itself may not fit a half. */
  lemma RestIs(n32: int, n1: int, q: int, d: int)
    requires 0 <= n32 && 0 <= n1 < HALF && 0 <= n32 * HALF + n1 - q * d < d < MODULUS
    ensures (Join(n32, n1) - q * d) % MODULUS == n32 * HALF + n1 - q * d
  {
    HalfFacts();
    var h := HALF;
    ModIs(n1, h, 0, n1);
    var k, l := n32 / h, n32 % h;
    assert n32 == k * h + l;
    assert n32 * h == k * (h * h) + l * h;
    ModIs(Join(n32, n1) - q * d, MODULUS, 0 - k, n32 * h + n1 - q * d);
  }

  lemma TwoDigits(v: int, n32: int, n1: int, n0: int, q1: int, q0: int, d: int, n21: int, r: int, h: int)
    requires v == n32 * (h * h) + (n1 * h + n0)
    requires n21 == n32 * h + n1 - q1 * d && r == n21 * h + n0 - q0 * d
    ensures v == (q1 * h + q0) * d + r
  {
    assert v == (n32 * h + n1) * h + n0;
    assert (n21 + q1 * d) * h == n21 * h + q1 * h * d;
    assert (q1 * h + q0) * d == q1 * h * d + q0 * d;
  }

  lemma Unscale(v: int, q: int, d: int, p: int, r: int)
    requires 0 < p && v * p == q * (d * p) + r && 0 <= r < d * p
    ensures r / p == v - q * d && 0 <= v - q * d < d
  {
    var x := v - q * d;
    assert q * (d * p) == q * d * p;
    assert r == x * p;
    MulBelow(x, d, p);
    MulAtLeast(x + 1, 0, p);
    ModIs(r, p, x, 0);
  }

  /** The normalization step: shift the divisor up to its sign bit, and the numerator with it. */
  method Shift(n: Double, d: Usize) returns (s: nat, dd: Usize, n32: int, n10: Usize)
    requires n.high < d
    ensures dd == d * Pow2(s) && SIGN_BIT <= dd
    ensures Value(n) * Pow2(s) == n32 * MODULUS + n10 && 0 <= n32 < dd
  {
    s := Clz(d);
    ShiftFacts(n, d, s);
    dd := d * Pow2(s) % MODULUS;
    n32 := n.high * Pow2(s) % MODULUS;
    if s != 0 {
      n32 := Bitwise(BitOr, n32, n.low / Pow2(BITS - s), BITS);
    }
    n10 := n.low * Pow2(s) % MODULUS;
  }

  lemma DivisorShifts(d: Usize, s: nat)
    requires s < BITS && Pow2(BITS - 1 - s) <= d < Pow2(BITS - s)
    ensures var p := Pow2(s);
      d * p % MODULUS == d * p && SIGN_BIT <= d * p < MODULUS && p * Pow2(BITS - s) == MODULUS
  {
    WidthFacts();
    Pow2Sum(s, BITS - s);
    Pow2Sum(s, BITS - 1 - s);
    hide Pow2;
    Sandwich(Pow2(BITS - 1 - s), d, Pow2(BITS - s), Pow2(s));
    ModIs(d * Pow2(s), MODULUS, 0, d * Pow2(s));
  }

  lemma Sandwich(low: int, d: int, top: int, p: int)
    requires low <= d < top && 0 < p
    ensures p * low <= d * p < p * top
  {
    MulBelow(d, top, p);
    MulAtLeast(low, d, p);
  }

  lemma ShiftFacts(n: Double, d: Usize, s: nat)
    requires n.high < d && s < BITS && Pow2(BITS - 1 - s) <= d < Pow2(BITS - s)
    ensures var p := Pow2(s);
      && d * p % MODULUS == d * p && SIGN_BIT <= d * p < MODULUS
      && (s == 0 ==> n.low / Pow2(BITS - s) == 0)
      && var n32 := n.high * p % MODULUS + n.low / Pow2(BITS - s);
         && Bitwise(BitOr, n.high * p % MODULUS, n.low / Pow2(BITS - s), BITS) == n32
         && Value(n) * p == n32 * MODULUS + n.low * p % MODULUS && 0 <= n32 < d * p
  {
    hide Bitwise, Pow2;
    DivisorShifts(d, s);
    WidthFacts();
    var p, t := Pow2(s), Pow2(BITS - s);
    Normalize(n.high, n.low, d, p, t, MODULUS);
    var x, b := n.high * p, n.low / t;
    assert x % MODULUS == x;
    ShiftOrs(x, b, s);
  }

  lemma ShiftOrs(x: Usize, b: int, s: nat)
    requires s <= BITS && x % Pow2(s) == 0 && 0 <= b < Pow2(s)
    ensures Bitwise(BitOr, x, b, BITS) == x + b
    ensures s == 0 ==> b == 0
  {
    WidthFacts();
    OrDisjoint(x, b, BITS, s);
  }

  /** The digits of e4__double_ndiv, for operands already known to give a quotient of one cell. */
  method LongDivide(n: Double, d: Usize) returns (q: Usize, r: Usize)
    requires n.high < d
    ensures Value(n) == q * d + r && r < d
  {
    var s, dd, n32, n10 := Shift(n, d);
    HalfFacts();
    Halves(dd);
    TopHalf(dd);
    Halves(n10);
    var n1, n0 := Hi(n10), Lo(n10);
    var q1 := Digit(n32, n1, Hi(dd), Lo(dd));
    RestIs(n32, n1, q1, dd);
    var n21 := (Join(n32, n1) - q1 * dd) % MODULUS;
    var q0 := Digit(n21, n0, Hi(dd), Lo(dd));
    RestIs(n21, n0, q0, dd);
    QuotientIs(Value(n), d, Pow2(s), n32, n1, n0, q1, q0, dd, n21);
    q := Join(q1, q0);
    r := (Join(n21, n0) - q0 * dd) % MODULUS / Pow2(s);
  }

  lemma QuotientIs(v: int, d: int, p: int, n32: int, n1: int, n0: int, q1: int, q0: int, dd: int, n21: int)
    requires 0 < p && dd == d * p && v * p == n32 * MODULUS + (n1 * HALF + n0)
    requires 0 <= q1 < HALF && 0 <= q0 < HALF && n21 == n32 * HALF + n1 - q1 * dd
    requires 0 <= n21 * HALF + n0 - q0 * dd < dd
    ensures 0 <= Join(q1, q0) < MODULUS
    ensures var r := (n21 * HALF + n0 - q0 * dd) / p;
      v == Join(q1, q0) * d + r && 0 <= r < d
  {
    JoinIs(q1, q0);
    var rest := n21 * HALF + n0 - q0 * dd;
    TwoDigits(v * p, n32, n1, n0, q1, q0, dd, n21, rest, HALF);
    Unscale(v, Join(q1, q0), d, p, rest);
  }

  /** A normalized divisor has a normalized upper half. */
  lemma TopHalf(d: Usize)
    requires SIGN_BIT <= d
    ensures HALF <= 2 * Hi(d) && 0 < Hi(d)
  {
    HalfFacts();
    Halves(d);
    var h := HALF;
    var k := Pow2(HALF_BITS - 1);
    assert h * h == 2 * (k * h);
    MulAtLeast(Hi(d) + 1, k, h);
    assert (Hi(d) + 1) * h == Hi(d) * h + h;
  }

  // ----- signed division -----

  function Abs(x: int): nat {
    if x < 0 then 0 - x else x
  }

  /** Quotient and remainder as sections 6.1.2214 (SM/REM, remainder signed like the dividend) and 6.1.1561
      (FM/MOD, remainder signed like the divisor) of Forth 2012 want them. */
  predicate Divides(n: int, d: int, q: int, r: int, floored: bool) {
    n == q * d + r && Abs(r) < Abs(d) && (r == 0 || (r < 0) == if floored then d < 0 else n < 0)
  }

  /** Floored division has a remainder from zero up to the divisor, on its side; symmetric division one that is
      not on the other side of zero than the dividend, and the quotient of the magnitudes. */
  lemma DividesMeans(n: int, d: int, q: int, r: int)
    ensures Divides(n, d, q, r, true) ==> n == q * d + r && (0 <= r < d || d < r <= 0)
    ensures Divides(n, d, q, r, false) ==>
      n == q * d + r && (if n < 0 then r <= 0 else 0 <= r) && (if d < 0 then d < r < 0 - d else 0 - d < r < d)
  {
  }

  /** The examples of section 3.2.2.1 of Forth 2012: 10 and -10 by 7 and -7. */
  lemma DividesExamples()
    ensures Divides(10, 7, 1, 3, true) && Divides(-10, 7, -2, 4, true)
    ensures Divides(10, -7, -2, -4, true) && Divides(-10, -7, 1, -3, true)
    ensures Divides(10, 7, 1, 3, false) && Divides(-10, 7, -1, -3, false)
    ensures Divides(10, -7, -1, 3, false) && Divides(-10, -7, 1, -3, false)
  {
  }

  lemma DivisionIsUnique(n: int, d: int, q: int, r: int, q': int, r': int, floored: bool)
    requires Divides(n, d, q, r, floored) && Divides(n, d, q', r', floored)
    ensures q == q' && r == r'
  {
    Difference(q, q', d);
    MulBetween(q - q', Abs(d));
  }

  lemma Difference(q: int, q': int, d: int)
    ensures (q - q') * d == q * d - q' * d
    ensures (q - q') * Abs(d) == if d < 0 then q' * d - q * d else q * d - q' * d
  {
    if d < 0 {
      assert (q - q') * (0 - d) == 0 - (q - q') * d;
    }
  }

  function SignedQuotient(negate: bool, q: nat, r: nat, floored: bool): int {
    if !negate then q else if floored && r != 0 then 0 - q - 1 else 0 - q
  }

  function SignedRest(n: int, d: int, r: nat, floored: bool): int {
    var r' := if n < 0 then 0 - r else r;
    if floored && r != 0 && (n < 0) != (d < 0) then r' + d else r'
  }

  /** Division of the magnitudes, with the signs put back. */
  lemma SignsDivide(n: int, d: int, q: nat, r: nat, floored: bool)
    requires Abs(n) == q * Abs(d) + r && r < Abs(d)
    ensures Divides(n, d, SignedQuotient((n < 0) != (d < 0), q, r, floored), SignedRest(n, d, r, floored), floored)
  {
    var k := if floored && r != 0 && (n < 0) != (d < 0) then 1 else 0;
    SignedScale(q, d, k);
  }

  lemma SignedScale(q: int, d: int, k: int)
    ensures (0 - q - k) * d == q * (0 - d) - k * d
    ensures (0 - q) * d == q * (0 - d) == 0 - q * d
  {
  }

  /** What makes the division succeed: a nonzero divisor and a quotient that fits. */
  predicate Succeeds(n: Double, d: Usize, signed: bool, wantQuotient: bool) {
    && d != 0
    && if !signed then n.high < d
       else Abs(SignedValue(n)) / Abs(Signed(d)) < if wantQuotient then SIGN_BIT else MODULUS
  }

  lemma QuotientFits(high: int, low: int, d: int, m: int)
    requires 0 < d && 0 <= low < m && 0 <= high
    ensures high < d <==> (high * m + low) / d < m
  {
    var v := high * m + low;
    var q, r := v / d, v % d;
    assert v == q * d + r;
    MulAtLeast(high + 1, d, m);
    MulAtLeast(d, high, m);
    MulAtLeast(m, q, d);
    MulAtLeast(q + 1, m, d);
    assert (high + 1) * m == high * m + m;
    assert (q + 1) * d == q * d + d;
  }

  lemma ValueFits(n: Double, d: Usize)
    requires 0 < d
    ensures n.high < d <==> Value(n) / d < MODULUS
  {
    QuotientFits(n.high, n.low, d, MODULUS);
  }

  lemma Magnitudes(n: Double, d: Usize)
    ensures Value(if IsNegative(n.high) then NegateDouble(n) else n) == Abs(SignedValue(n)) <= SIGN_BIT * MODULUS
    ensures (if IsNegative(d) then Negate(d) else d) == Abs(Signed(d)) <= SIGN_BIT
    ensures IsNegative(n.high) <==> SignedValue(n) < 0
    ensures IsNegative(d) <==> Signed(d) < 0
  {
    NegateDoubleIs(n);
    ValueBounds(n);
    NegateMagnitude(d);
    NegativeIsSignBit(d);
  }

  lemma DivideIs(v: int, d: int, q: int, r: int)
    requires v == q * d + r && 0 <= r < d
    ensures v / d == q && v % d == r
  {
    ModIs(v, d, q, r);
  }

  lemma ToCellNegates(x: Usize, y: int)
    requires x == ToCell(y)
    ensures Negate(x) == ToCell(0 - y)
  {
    NegateMagnitude(x);
    var k := y / MODULUS;
    assert y == k * MODULUS + x;
    SameResidue(0 - y, 0 - x, 0 - k, MODULUS);
  }

  lemma ToCellAdds(x: Usize, y: int, z: int)
    requires x == ToCell(y)
    ensures (x + z) % MODULUS == ToCell(y + z)
  {
    var k := y / MODULUS;
    assert y == k * MODULUS + x;
    SameResidue(y + z, x + z, k, MODULUS);
  }

  lemma AddsCell(x: Usize, y: Usize, z: int)
    requires y == ToCell(z)
    ensures (x + y) % MODULUS == (x + z) % MODULUS
  {
    var k := z / MODULUS;
    assert z == k * MODULUS + y;
    SameResidue(x + z, x + y, k, MODULUS);
  }

  /** The unsigned quotient, made signed and rounded down where that is wanted. */
  lemma QuotientCell(q: Usize, r: nat, negate: bool, floored: bool)
    ensures var q1: Usize := if negate then Negate(q) else q;
      (if negate && floored && r != 0 then (q1 - 1) % MODULUS else q1) ==
        ToCell(SignedQuotient(negate, q, r, floored))
  {
    ModIs(q, MODULUS, 0, q);
    if negate {
      ToCellNegates(q, q);
      ToCellAdds(Negate(q), 0 - q, -1);
    }
  }

  lemma RestCell(r: Usize, n: int, d: Usize, floored: bool)
    ensures var r1: Usize := if n < 0 then Negate(r) else r;
      (if floored && r != 0 && (n < 0) != (Signed(d) < 0) then (r1 + d) % MODULUS else r1) ==
        ToCell(SignedRest(n, Signed(d), r, floored))
    ensures n < 0 ==> (r == 0 <==> Negate(r) == 0)
  {
    ModIs(r, MODULUS, 0, r);
    NegateMagnitude(r);
    if n < 0 {
      ToCellNegates(r, r);
    }
    var r1: Usize := if n < 0 then Negate(r) else r;
    ToCellOfSigned(d);
    AddsCell(r1, d, Signed(d));
    ToCellAdds(r1, if n < 0 then 0 - r else r, Signed(d));
  }

  lemma RestoreDivisor(d: Usize)
    ensures Negate(Negate(d)) == d
  {
    NegateMagnitude(d);
    NegateMagnitude(Negate(d));
  }

  /** The remainder cell: sign of the dividend, and the divisor added where flooring asks for it. */
  function RestOf(r: Usize, nNegative: bool, dNegative: bool, dd: Usize, floored: bool): Usize {
    var r1 := if nNegative then Negate(r) else r;
    if floored && r1 != 0 && nNegative != dNegative then (r1 + if dNegative then Negate(dd) else dd) % MODULUS else r1
  }

  function QuotientOf(q: Usize, r: Usize, nNegative: bool, dNegative: bool, floored: bool): Usize {
    var q1 := if nNegative != dNegative then Negate(q) else q;
    if floored && r != 0 && nNegative != dNegative then (q1 - 1) % MODULUS else q1
  }

  /** Signs put back on cells, against signs put back on numbers. */
  lemma RestOfIs(r: Usize, n: Double, d: Usize, dd: Usize, floored: bool)
    requires dd == (if IsNegative(d) then Negate(d) else d) && r < Abs(Signed(d))
    ensures Signed(RestOf(r, IsNegative(n.high), IsNegative(d), dd, floored)) ==
            SignedRest(SignedValue(n), Signed(d), r, floored)
  {
    Magnitudes(n, d);
    RestCell(r, SignedValue(n), d, floored);
    RestoreDivisor(d);
    SignedRoundTrip(SignedRest(SignedValue(n), Signed(d), r, floored));
  }

  lemma QuotientOfIs(q: Usize, r: Usize, nNegative: bool, dNegative: bool, floored: bool)
    requires q < SIGN_BIT
    ensures Signed(QuotientOf(q, r, nNegative, dNegative, floored)) ==
            SignedQuotient(nNegative != dNegative, q, r, floored)
  {
    WidthFacts();
    QuotientCell(q, r, nNegative != dNegative, floored);
    SignedRoundTrip(SignedQuotient(nNegative != dNegative, q, r, floored));
  }

  /** The whole signed division, from that of the magnitudes. */
  lemma SignedResult(n: Double, d: Usize, dd: Usize, q: Usize, r: Usize, floored: bool)
    requires dd == (if IsNegative(d) then Negate(d) else d)
    requires Abs(SignedValue(n)) == q * dd + r && r < dd
    ensures var q', r' := QuotientOf(q, r, IsNegative(n.high), IsNegative(d), floored),
                          RestOf(r, IsNegative(n.high), IsNegative(d), dd, floored);
      var k := SignedQuotient(IsNegative(n.high) != IsNegative(d), q, r, floored);
      Divides(SignedValue(n), Signed(d), k, Signed(r'), floored) && (q < SIGN_BIT ==> Signed(q') == k)
  {
    Magnitudes(n, d);
    RestOfIs(r, n, d, dd, floored);
    SignsDivide(SignedValue(n), Signed(d), q, r, floored);
    if q < SIGN_BIT {
      QuotientOfIs(q, r, IsNegative(n.high), IsNegative(d), floored);
    }
  }

  /** e4__double_ndiv: a double cell divided by a cell, for a quotient of one cell. */
  method NDiv(n: Double, d: Usize, signed: bool, floored: bool, wantQuotient: bool)
    returns (code: int, q: Usize, r: Usize)
    ensures d == 0 ==> code == E_DIVBYZERO
    ensures d != 0 ==> code == if Succeeds(n, d, signed, wantQuotient) then E_OK else E_RSLTOUTORANGE
    ensures code == E_OK && !signed ==> Value(n) == q * d + r && r < d
    ensures code == E_OK && signed && wantQuotient ==>
      Divides(SignedValue(n), Signed(d), Signed(q), Signed(r), floored)
    ensures code == E_OK && signed ==> exists k :: Divides(SignedValue(n), Signed(d), k, Signed(r), floored)
  {
    hide Divides, Value, NegateDouble, Negate, SignedValue, Signed, SignedQuotient;
    q, r := 0, 0;
    if d == 0 {
      return E_DIVBYZERO, q, r;
    }
    var nn, dd, nNegative, dNegative := n, d, false, false;
    if signed {
      nNegative := IsNegative(n.high);
      if nNegative {
        nn := NegateDouble(n);
      }
      dNegative := IsNegative(d);
      if dNegative {
        dd := Negate(d);
      }
      Magnitudes(n, d);
    }
    ValueFits(nn, dd);
    if nn.high >= dd {
      return E_RSLTOUTORANGE, q, r;
    }
    q, r := LongDivide(nn, dd);
    DivideIs(Value(nn), dd, q, r);
    NegativeIsSignBit(q);
    if wantQuotient && signed && IsNegative(q) {
      return E_RSLTOUTORANGE, q, r;
    }
    if signed {
      SignedResult(n, d, dd, q, r, floored);
    }
    if nNegative != dNegative {
      q := Negate(q);
    }
    ghost var r0 := r;
    if nNegative {
      r := Negate(r);
      NegateMagnitude(r0);
    }
    if signed && floored && r != 0 && nNegative != dNegative {
      q := (q - 1) % MODULUS;
      r := (r + if dNegative then Negate(dd) else dd) % MODULUS;
    }
    code := E_OK;
  }

  lemma TruncatedIs(a: int, b: int, q: int, r: int)
    requires b != 0 && Divides(a, b, q, r, false)
    ensures Abs(q) == Abs(a) / Abs(b)
  {
    var k, s := Truncated(a, b);
    DivisionIsUnique(a, b, q, r, SignedQuotient((a < 0) != (b < 0), k, s, false), SignedRest(a, b, s, false), false);
  }

  /** Every division has a truncated quotient: that of the magnitudes. */
  lemma Truncated(a: int, b: int) returns (k: nat, r: nat)
    requires b != 0
    ensures k == Abs(a) / Abs(b)
    ensures Divides(a, b, SignedQuotient((a < 0) != (b < 0), k, r, false), SignedRest(a, b, r, false), false)
  {
    QuotientPositive(Abs(a), Abs(b));
    k, r := Abs(a) / Abs(b), Abs(a) % Abs(b);
    SignsDivide(a, b, k, r, false);
  }

  /** NDiv succeeds exactly when the truncated quotient is strictly between -2^(W-1) and 2^(W-1). */
  lemma SucceedsIff(n: Double, d: Usize)
    ensures Succeeds(n, d, true, true) <==>
      exists q, r :: Divides(SignedValue(n), Signed(d), q, r, false) && -SIGN_BIT < q < SIGN_BIT
  {
    NegativeIsSignBit(d);
    var a, b := SignedValue(n), Signed(d);
    hide Divides, Signed, SignedValue;
    if b != 0 {
      var k, s := Truncated(a, b);
      assert Abs(SignedQuotient((a < 0) != (b < 0), k, s, false)) == k;
      forall q, r | Divides(a, b, q, r, false)
        ensures Abs(q) == k
      {
        TruncatedIs(a, b, q, r);
      }
    } else {
      DivisorZero(a);
    }
    assert d == 0 <==> b == 0 by {
      ToCellOfSigned(d);
      ModIs(0, MODULUS, 0, 0);
      SignedRoundTrip(0);
    }
  }

  lemma DivisorZero(a: int)
    ensures !exists q, r :: Divides(a, 0, q, r, false)
  {
  }

  // ----- full division -----

  function Decrement(q: Double): Double {
    Double((q.low - 1) % MODULUS, if q.low == 0 then (q.high - 1) % MODULUS else q.high)
  }

  lemma DecrementIs(q: Double)
    requires SignedValue(q) > -(SIGN_BIT * MODULUS)
    ensures SignedValue(Decrement(q)) == SignedValue(q) - 1
  {
    WidthFacts();
    var m := MODULUS;
    ModIs(q.low - 1, m, if q.low == 0 then -1 else 0, if q.low == 0 then m - 1 else q.low - 1);
    ModIs(q.high - 1, m, if q.high == 0 then -1 else 0, if q.high == 0 then m - 1 else q.high - 1);
    DecrementParts(q.high, m, SIGN_BIT);
  }

  lemma DecrementParts(h: int, m: int, s: int)
    requires m == 2 * s
    ensures (h - 1) * m == h * m - m
    ensures (m - 1) * m == m * m - m
    ensures s * m - m * m == -(s * m)
  {
  }

  /** The one signed division whose quotient no double cell can hold. */
  predicate Wraps(n: Double, d: Usize) {
    SignedValue(n) == -(SIGN_BIT * MODULUS) && Signed(d) == -1
  }

  /** e4__double_div on magnitudes: one step, or two with the first remainder carried over. */
  method WideDivide(n: Double, d: Usize) returns (code: int, q: Double, r: Usize)
    ensures code == if d == 0 then E_DIVBYZERO else E_OK
    ensures d != 0 ==> Value(n) == Value(q) * d + r && r < d
  {
    q, r := Double(0, 0), 0;
    var low, high: Usize;
    if n.high < d {
      code, low, r := NDiv(n, d, false, false, true);
      q := Double(low, 0);
    } else {
      code, high, r := NDiv(Double(n.high, 0), d, false, false, true);
      if code != E_OK {
        return;
      }
      ghost var r1 := r;
      code, low, r := NDiv(Double(n.low, r), d, false, false, true);
      q := Double(low, high);
      TwoSteps(n.high, n.low, d, high, low, r1, r, MODULUS);
    }
  }

  lemma TwoSteps(nh: int, nl: int, d: int, qh: int, ql: int, r1: int, r: int, m: int)
    requires nh == qh * d + r1 && r1 * m + nl == ql * d + r
    ensures nh * m + nl == (qh * m + ql) * d + r
  {
    assert (qh * d + r1) * m == qh * m * d + r1 * m;
    assert (qh * m + ql) * d == qh * m * d + ql * d;
  }

  /** e4__double_div: exact for every nonzero divisor in every mode, save the wrap of MIN / -1.  Its steps
      never meet the range error of NDiv. */
  method Div(n: Double, d: Usize, signed: bool, floored: bool) returns (code: int, q: Double, r: Usize)
    ensures code == if d == 0 then E_DIVBYZERO else E_OK
    ensures d != 0 && !signed ==> Value(n) == Value(q) * d + r && r < d
    ensures d != 0 && signed && !Wraps(n, d) ==>
      Divides(SignedValue(n), Signed(d), SignedValue(q), Signed(r), floored)
    ensures signed && Wraps(n, d) ==> SignedValue(q) == SignedValue(n) && r == 0
  {
    var nn, dd, nNegative, dNegative := n, d, false, false;
    if signed {
      nNegative := IsNegative(n.high);
      if nNegative {
        nn := NegateDouble(n);
      }
      dNegative := IsNegative(d);
      if dNegative {
        dd := Negate(d);
      }
      Magnitudes(n, d);
    }
    hide Divides, Value, NegateDouble, Negate, SignedValue, Signed, Decrement;
    code, q, r := WideDivide(nn, dd);
    if code != E_OK {
      return;
    }
    if signed {
      WideResult(n, d, dd, q, r, floored);
    }
    if nNegative != dNegative {
      q := NegateDouble(q);
    }
    ghost var r0 := r;
    if nNegative {
      r := Negate(r);
      NegateMagnitude(r0);
    }
    if signed && floored && r != 0 && nNegative != dNegative {
      q := Decrement(q);
      r := (r + if dNegative then Negate(dd) else dd) % MODULUS;
    }
  }

  function WideQuotientOf(q: Double, r: Usize, nNegative: bool, dNegative: bool, floored: bool): Double {
    var q1 := if nNegative != dNegative then NegateDouble(q) else q;
    if floored && r != 0 && nNegative != dNegative then Decrement(q1) else q1
  }

  lemma WideResult(n: Double, d: Usize, dd: Usize, q: Double, r: Usize, floored: bool)
    requires dd == (if IsNegative(d) then Negate(d) else d)
    requires Abs(SignedValue(n)) == Value(q) * dd + r && r < dd
    ensures var q', r' := WideQuotientOf(q, r, IsNegative(n.high), IsNegative(d), floored),
                          RestOf(r, IsNegative(n.high), IsNegative(d), dd, floored);
      if Wraps(n, d) then SignedValue(q') == SignedValue(n) && r' == 0
      else Divides(SignedValue(n), Signed(d), SignedValue(q'), Signed(r'), floored)
  {
    Magnitudes(n, d);
    ValueBounds(q);
    RestOfIs(r, n, d, dd, floored);
    WideQuotient(n, d, q, r, floored);
    SignsDivide(SignedValue(n), Signed(d), Value(q), r, floored);
    NegateMagnitude(0);
  }

  /** The signed quotient of the magnitudes, as a double. */
  lemma WideQuotient(n: Double, d: Usize, q: Double, r: nat, floored: bool)
    requires Abs(SignedValue(n)) == Value(q) * Abs(Signed(d)) + r && r < Abs(Signed(d))
    ensures var negate := (SignedValue(n) < 0) != (Signed(d) < 0);
      var q1 := if negate then NegateDouble(q) else q;
      var q2 := if floored && r != 0 && negate then Decrement(q1) else q1;
      if Wraps(n, d) then SignedValue(q2) == SignedValue(n) && r == 0
      else 0 <= Value(q) && SignedValue(q2) == SignedQuotient(negate, Value(q), r, floored)
  {
    var negate := (SignedValue(n) < 0) != (Signed(d) < 0);
    var b, top := Abs(Signed(d)), SIGN_BIT * MODULUS;
    Magnitudes(n, d);
    ValueBounds(q);
    ValueBounds(n);
    MulAtLeast(1, b, Value(q));
    MulAtLeast(2, b, Value(q));
    NegateDoubleIs(q);
    if negate {
      if floored && r != 0 {
        DecrementIs(NegateDouble(q));
      }
    } else {
      WidthFacts();
      TopValue(q);
    }
  }

  lemma TopValue(q: Double)
    ensures Value(q) < SIGN_BIT * MODULUS ==> SignedValue(q) == Value(q)
    ensures Value(q) == SIGN_BIT * MODULUS ==> SignedValue(q) == -(SIGN_BIT * MODULUS)
  {
    WidthFacts();
    BoundParts(q.low, q.high, MODULUS, SIGN_BIT);
    DecrementParts(q.high, MODULUS, SIGN_BIT);
  }

  /** The builtin that multiplies and then divides with a double intermediate product: the quotient and the
      remainder of the full product, or the error of NDiv when the quotient is out of range. */
  method StarSlashMod(l: Usize, r: Usize, d: Usize) returns (code: int, q: Usize, rem: Usize)
    ensures code == if d == 0 then E_DIVBYZERO
                    else if Abs(Signed(l) * Signed(r)) / Abs(Signed(d)) < SIGN_BIT then E_OK
                    else E_RSLTOUTORANGE
    ensures code == E_OK ==> Divides(Signed(l) * Signed(r), Signed(d), Signed(q), Signed(rem), false)
  {
    var p := Mul(l, r, true);
    MulIsExact(l, r);
    Magnitudes(p, d);
    code, q, rem := NDiv(p, d, true, false, true);
  }

  /** Symmetric division gives up the quotient -2^(W-1), though a cell could hold it; the floored mode
      reaches it whenever the remainder is not zero. */
  lemma LowestQuotientRejected(d: Usize)
    requires Signed(d) == 1
    ensures var n := Double(SIGN_BIT, MODULUS - 1);
      && Divides(SignedValue(n), Signed(d), -SIGN_BIT, 0, false)
      && -SIGN_BIT == Signed(SIGN_BIT)
      && !Succeeds(n, d, true, true)
  {
    WidthFacts();
    var n := Double(SIGN_BIT, MODULUS - 1);
    DecrementParts(MODULUS, MODULUS, SIGN_BIT);
    assert SignedValue(n) == -SIGN_BIT;
    DivideIs(SIGN_BIT, 1, SIGN_BIT, 0);
  }
}
