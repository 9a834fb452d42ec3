/** Cells of an unspecified width: e4__usize with BITS == 2^LOG_BITS bits, its negation, sign test and
    half-word split, and the reading of a cell as a two's complement number. */
module Words {

  function Pow2(n: nat): (r: int)
    ensures 1 <= r
  {
    if n == 0 then 1 else 2 * Pow2(n - 1)
  }

  /** The width is left open.  Everything below holds for every width 2^k with k at least 3. */
  type LogBits = k: nat | 3 <= k witness 3

  const LOG_BITS: LogBits
  const HALF_BITS: nat := Pow2(LOG_BITS - 1)
  const BITS: nat := 2 * HALF_BITS

  /** Base of a half word, the modulus of a whole one and the weight of its sign bit. */
  const HALF: int := Pow2(HALF_BITS)
  const MODULUS: int := HALF * HALF
  const SIGN_BIT: int := MODULUS / 2

  type Usize = n: int | 0 <= n < MODULUS ghost witness 0

  lemma {:induction false} Pow2Sum(m: nat, n: nat)
    ensures Pow2(m + n) == Pow2(m) * Pow2(n)
  {
    if m == 0 {
    } else {
      Pow2Sum(m - 1, n);
    }
  }

  lemma {:induction false} Pow2Monotone(m: nat, n: nat)
    requires m <= n
    ensures Pow2(m) <= Pow2(n)
    ensures m < n ==> 2 * Pow2(m) <= Pow2(n)
    decreases n
  {
    if m >= n {
    } else {
      Pow2Monotone(m, n - 1);
    }
  }

  lemma {:induction false} Pow2Exceeds(n: nat)
    ensures n < Pow2(n)
  {
    if n == 0 {
    } else {
      Pow2Exceeds(n - 1);
    }
  }

  lemma SmallPowers()
    ensures Pow2(1) == 2 && Pow2(2) == 4 && Pow2(4) == 16
  {
    assert Pow2(3) == 8;
  }

  lemma HalfFacts()
    ensures 4 <= HALF_BITS && 16 <= HALF == 2 * Pow2(HALF_BITS - 1)
  {
    SmallPowers();
    Pow2Monotone(2, LOG_BITS - 1);
    Pow2Monotone(4, HALF_BITS);
  }

  lemma WidthFacts()
    ensures 256 <= MODULUS == 2 * SIGN_BIT
    ensures MODULUS == Pow2(BITS) && SIGN_BIT == Pow2(BITS - 1) && BITS < MODULUS
  {
    HalfFacts();
    Pow2Sum(HALF_BITS, HALF_BITS);
    Pow2Sum(HALF_BITS, HALF_BITS - 1);
    SquareAtLeast(HALF);
    HalfSquare(HALF, Pow2(HALF_BITS - 1));
    Pow2Exceeds(BITS);
  }

  lemma HalfSquare(h: int, k: int)
    requires h == 2 * k
    ensures h * h == 2 * (h * k) && h * h / 2 == h * k
  {
  }

  lemma SquareAtLeast(h: int)
    requires 16 <= h
    ensures 256 <= h * h
  {
    assert 16 * 16 <= 16 * h <= h * h;
  }

  /** u > (e4__usize)-1 >> 1 */
  predicate IsNegative(u: Usize) {
    u > (MODULUS - 1) / 2
  }

  /** (u ^ (e4__usize)-1) + 1, reduced to a cell. */
  function Negate(u: Usize): Usize {
    (MODULUS - 1 - u + 1) % MODULUS
  }

  /** The number a cell stands for when it is read as a signed one. */
  function Signed(u: Usize): int {
    if IsNegative(u) then u - MODULUS else u
  }

  /** The cell that holds a number, whatever its sign. */
  function ToCell(n: int): Usize {
    n % MODULUS
  }

  lemma NegativeIsSignBit(u: Usize)
    ensures IsNegative(u) <==> SIGN_BIT <= u
    ensures -SIGN_BIT <= Signed(u) < SIGN_BIT
  {
    WidthFacts();
  }

  /** A number that is within one multiple of the modulus of a cell reduces to that cell. */
  lemma ModIs(n: int, m: int, k: int, r: int)
    requires 0 <= r < m
    requires n == k * m + r
    ensures n % m == r && n / m == k
  {
    var q := n / m;
    assert n == q * m + n % m;
    assert (q - k) * m == r - n % m;
    MulBetween(q - k, m);
  }

  lemma MulBetween(t: int, m: int)
    requires -m < t * m < m
    ensures t == 0
  {
  }

  /** Two numbers that differ by a multiple of m have the same residue. */
  lemma SameResidue(x: int, y: int, k: int, m: int)
    requires 0 < m && x == y + k * m
    ensures x % m == y % m
  {
    var q, r := y / m, y % m;
    assert y == q * m + r;
    assert x == (q + k) * m + r;
    ModIs(x, m, q + k, r);
  }

  lemma MulAtLeast(a: int, b: int, d: int)
    requires 0 <= d
    ensures a <= b ==> a * d <= b * d
  {
    if a <= b {
      assert (b - a) * d >= 0;
    }
  }

  /** Signed and ToCell are inverse to each other on numbers that fit. */
  lemma SignedRoundTrip(n: int)
    requires -SIGN_BIT <= n < SIGN_BIT
    ensures Signed(ToCell(n)) == n
  {
    WidthFacts();
    if n < 0 {
      ModIs(n, MODULUS, -1, n + MODULUS);
    } else {
      ModIs(n, MODULUS, 0, n);
    }
  }

  lemma ToCellOfSigned(u: Usize)
    ensures ToCell(Signed(u)) == u
  {
    ModIs(Signed(u), MODULUS, if IsNegative(u) then -1 else 0, u);
  }

  /** Negation yields the magnitude of a negative cell, of the most negative one too. */
  lemma NegateMagnitude(u: Usize)
    ensures IsNegative(u) ==> Negate(u) == -Signed(u)
    ensures Negate(u) == if u == 0 then 0 else MODULUS - u
    ensures Negate(u) == ToCell(0 - u)
  {
    var r := if u == 0 then 0 else MODULUS - u;
    ModIs(MODULUS - u, MODULUS, if u == 0 then 1 else 0, r);
    ModIs(0 - u, MODULUS, if u == 0 then 0 else -1, r);
  }
}
