/** How often a counted loop runs its body. */
module CountedLoops {
  import opened Words
  import opened Machine
  import opened Structured
  import opened LoopStep

  // ----- the stop test -----

  /** Two's complement reading of index - limit. */
  function Distance(index: int, limit: int): int {
    Signed((index - limit) % MODULUS)
  }

  /** LOOP_INC raises its flag when X and X + inc have different signs. */
  predicate Stops(index: int, limit: int, inc: int) {
    var x := Offset(index, limit);
    Negative(x) != Negative((x + inc) % MODULUS)
  }

  /** Section 6.1.0140 of Forth 2012: the index crosses the boundary between limit - 1 and limit. */
  predicate Crosses(a: int, c: int) {
    (a < 0) != (a + c < 0)
  }

  predicate Overflows(a: int, c: int) {
    !(-SIGN_BIT <= a + c < SIGN_BIT)
  }

  /** The sign bit of X is that of the distance, turned over. */
  lemma OffsetSign(index: int, limit: int)
    ensures Offset(index, limit) == Distance(index, limit) + SIGN_BIT
    ensures Negative(Offset(index, limit)) <==> Distance(index, limit) >= 0
  {
    WidthFacts();
    var d: Usize := (index - limit) % MODULUS;
    if IsNegative(d) {
      ModIs(d + SIGN_BIT, MODULUS, 1, d - SIGN_BIT);
    } else {
      ModIs(d + SIGN_BIT, MODULUS, 0, d + SIGN_BIT);
    }
  }

  /** LOOP_INC decides the crossing of the standard if and only if distance plus increment stays within
      a signed cell; otherwise it stops although nothing was crossed. */
  lemma StopsIsCrossing(index: int, limit: int, inc: Usize)
    ensures var a, c := Distance(index, limit), Signed(inc);
      (Stops(index, limit, inc) <==> Crosses(a, c)) <==> !Overflows(a, c)
  {
    WidthFacts();
    OffsetSign(index, limit);
    NegativeIsSignBit(inc);
    var a, c := Distance(index, limit), Signed(inc);
    var d: Usize := (index - limit) % MODULUS;
    NegativeIsSignBit(d);
    var x := a + SIGN_BIT;
    var k := if IsNegative(inc) then 1 else 0;
    var y := x + c;
    assert x + inc == y + k * MODULUS;
    var wrap := if y < 0 then 0 - 1 else if y >= MODULUS then 1 else 0;
    assert x + inc == (k + wrap) * MODULUS + (y - wrap * MODULUS);
    ModIs(x + inc, MODULUS, k + wrap, y - wrap * MODULUS);
  }

  /** The greatest distance, stepped by one: the loop stops half round the number circle from its limit. */
  lemma StopsFarFromLimit()
    ensures Stops(SIGN_BIT - 1, 0, 1) && !Crosses(Distance(SIGN_BIT - 1, 0), Signed(1))
  {
    WidthFacts();
    ModIs(SIGN_BIT - 1, MODULUS, 0, SIGN_BIT - 1);
    StopsIsCrossing(SIGN_BIT - 1, 0, 1);
  }

  /** A cell and its signed reading differ by a multiple of the modulus. */
  lemma SignedResidue(x: int, y: int)
    requires -SIGN_BIT <= y < SIGN_BIT && x % MODULUS == y % MODULUS
    ensures Signed(x % MODULUS) == y
  {
    SignedRoundTrip(y);
  }

  /** Stepping the index moves the distance, as long as it does not overflow. */
  lemma StepMoves(index: int, limit: int, inc: Usize)
    ensures var a, c := Distance(index, limit), Signed(inc);
      !Overflows(a, c) ==> Distance((index + inc) % MODULUS, limit) == a + c
  {
    WidthFacts();
    var a, c := Distance(index, limit), Signed(inc);
    if !Overflows(a, c) {
      var k := DistanceResidue(index, limit);
      StepResidue(MODULUS, index, inc, limit, a, c, k, if IsNegative(inc) then 1 else 0);
      SignedResidue((index + inc) % MODULUS - limit, a + c);
    }
  }

  lemma StepResidue(m: int, index: int, inc: int, limit: int, a: int, c: int, k: int, l: int)
    requires 0 < m && index - limit == a + k * m && inc == c + l * m
    ensures ((index + inc) % m - limit) % m == (a + c) % m
  {
    var i, q := (index + inc) % m, (index + inc) / m;
    assert index + inc == m * q + i;
    Distribute(m, k, l, q);
    assert i - limit == a + c + (k + l - q) * m;
    SameResidue(i - limit, a + c, k + l - q, m);
  }

  lemma Distribute(m: int, k: int, l: int, q: int)
    ensures (k + l - q) * m == k * m + l * m - q * m
  {
  }

  lemma DistanceResidue(index: int, limit: int) returns (k: int)
    ensures index - limit == Distance(index, limit) + k * MODULUS
  {
    WidthFacts();
    var d: Usize := (index - limit) % MODULUS;
    var p := (index - limit) / MODULUS;
    k := p + if IsNegative(d) then 1 else 0;
    Distribute(MODULUS, p, if IsNegative(d) then 1 else 0, 0);
  }

  // ----- counting rounds -----

  /** The round that leaves distance a with a step of c is the last one. */
  predicate Last(a: int, c: int) {
    Crosses(a, c) || Overflows(a, c)
  }

  /** Rounds from the distance a with steps of c: until it crosses over, or goes half round the number
      circle if it leads away from the limit. */
  function Rounds(a: int, c: int): (n: nat)
    requires -SIGN_BIT <= a < SIGN_BIT && c != 0
    decreases if c > 0 then SIGN_BIT - a else a + SIGN_BIT
  {
    if Last(a, c) then 1 else 1 + Rounds(a + c, c)
  }

  lemma OneMoreTime(n: int, m: int)
    requires 0 < m
    ensures (n + m) / m == n / m + 1
  {
    ModIs(n + m, m, n / m + 1, n % m);
  }

  /** Counting up it takes the quotient rounded up. */
  lemma {:induction false} RoundsUp(a: int, c: int)
    requires -SIGN_BIT <= a < SIGN_BIT && 0 < c
    ensures Rounds(a, c) == ((if a < 0 then 0 else SIGN_BIT) - a + c - 1) / c
    decreases SIGN_BIT - a
  {
    var goal := if a < 0 then 0 else SIGN_BIT;
    if Last(a, c) {
      ModIs(goal - a + c - 1, c, 1, goal - a - 1);
    } else {
      RoundsUp(a + c, c);
      OneMoreTime(goal - (a + c) + c - 1, c);
    }
  }

  /** Counting down it takes the quotient rounded down and one. */
  lemma {:induction false} RoundsDown(a: int, c: int)
    requires -SIGN_BIT <= a < SIGN_BIT && c < 0
    ensures Rounds(a, c) == (a + if a < 0 then SIGN_BIT else 0) / (0 - c) + 1
    decreases a + SIGN_BIT
  {
    var m, base := 0 - c, if a < 0 then SIGN_BIT else 0;
    if Last(a, c) {
      ModIs(a + base, m, 0, a + base);
    } else {
      RoundsDown(a + c, c);
      OneMoreTime(a + base - m, m);
    }
  }

  lemma DistanceRange(index: int, limit: int)
    ensures -SIGN_BIT <= Distance(index, limit) < SIGN_BIT
  {
    WidthFacts();
    NegativeIsSignBit((index - limit) % MODULUS);
  }

  lemma StepNotZero(inc: Usize)
    requires inc != 0
    ensures Signed(inc) != 0
  {
    WidthFacts();
    NegativeIsSignBit(inc);
  }

  /** Rounds of a loop that is entered. */
  function RoundsOf(index: int, limit: int, inc: Usize): nat
    requires inc != 0
  {
    DistanceRange(index, limit);
    StepNotZero(inc);
    Rounds(Distance(index, limit), Signed(inc))
  }

  /** The stop flag goes up in the last round. */
  lemma RoundsStep(index: int, limit: int, inc: Usize)
    requires inc != 0
    ensures Stops(index, limit, inc) ==> RoundsOf(index, limit, inc) == 1
    ensures !Stops(index, limit, inc) ==>
      RoundsOf(index, limit, inc) == 1 + RoundsOf((index + inc) % MODULUS, limit, inc)
  {
    hide Distance, Stops;
    DistanceRange(index, limit);
    StepNotZero(inc);
    StopsIsCrossing(index, limit, inc);
    StepMoves(index, limit, inc);
  }

  // ----- compiled loops -----

  /** n rounds of F from this index on; the index steps by inc. */
  function Fold(F: (int, seq<int>) -> seq<int>, n: nat, index: int, inc: int, ds: seq<int>): seq<int> {
    if n == 0 then ds else Fold(F, n - 1, (index + inc) % MODULUS, inc, F(index, ds))
  }

  /** The body in the next n rounds of its loop, with this index and data stack at first, inside the frame
      that c and the loop have made: in every round it turns the data stack into F of the index and the
      stack, leaves the increment on top (unless the loop is a plain LOOP) and keeps the return stack, for
      at most cost units of gas. */
  ghost predicate Behaves(w: World, plain: bool, body: Stmt, at: int, F: (int, seq<int>) -> seq<int>, inc: int,
                          c: Ctx, limit: int, cost: nat, n: nat, index: int, ds: seq<int>)
  {
    n > 0 ==>
      && LoopRoom(w, c, F(index, ds))
      && ActsAlways(w, plain, body, at, F(index, ds), inc, InLoop(c, ds, limit, index), cost)
      && Behaves(w, plain, body, at, F, inc, c, limit, cost, n - 1, (index + inc) % MODULUS, F(index, ds))
  }

  ghost predicate ActsAlways(w: World, plain: bool, body: Stmt, at: int, after: seq<int>, inc: int, c: Ctx, cost: nat) {
    forall g: nat :: Acts(plain, after, inc, cost, c, g, Eval(w, body, at, c, g))
  }

  predicate Acts(plain: bool, after: seq<int>, inc: int, cost: nat, c: Ctx, g: nat, r: Result) {
    && (r == OutOfGas ||
        (r.Normal? && r.c == c.(ds := if plain then after else after + [inc]) && g - cost <= r.gas))
    && (cost <= g ==> r.Normal?)
  }

  /** Room for the words of the loop on both stacks. */
  predicate LoopRoom(w: World, c: Ctx, ds: seq<int>) {
    0 <= c.tr0 <= |c.rs| && |c.rs| + 9 <= w.rcap && |ds| + 4 <= w.dcap
  }

  function InLoop(c: Ctx, ds: seq<int>, limit: int, index: int): Ctx {
    c.(ds := ds, rs := c.rs + [limit, index])
  }

  lemma StepIn(w: World, a: int, c: Ctx, ds: seq<int>, limit: int, index: int, inc: int, g: nat)
    requires Builtins(w) && 0 < a && LoopRoom(w, c, ds)
    ensures var base := c.(ds := ds, rs := c.rs + [limit]);
      && RunWord(w, Xt(R_FROM), a, InLoop(c, ds + [inc], limit, index), g) ==
           (if g < 1 then OutOfGas else Normal(OnDs(base, [inc, index]), g - 1))
      && RunWord(w, Xt(R_FETCH), a + 1, OnDs(base, [inc, index]), g) ==
           (if g < 1 then OutOfGas else Normal(OnDs(base, [inc, index, limit]), g - 1))
  {
    hide RunWord, Builtins, Xt;
    var base := c.(ds := ds, rs := c.rs + [limit]);
    var c1, c2 := OnDs(base, [inc, index]), OnDs(base, [inc, index, limit]);
    assert InLoop(c, ds + [inc], limit, index) == base.(ds := ds + [inc], rs := base.rs + [index]);
    RFrom(w, a, base.(ds := ds + [inc]), index, g);
    assert ds + [inc] + [index] == c1.ds;
    RFetch(w, a + 1, c1.(rs := c.rs), limit, g);
    assert c1.ds + [limit] == c2.ds;
  }

  lemma StepOut(w: World, a: int, c: Ctx, ds: seq<int>, limit: int, index: int, flag: int, g: nat)
    requires Builtins(w) && 0 < a && LoopRoom(w, c, ds)
    ensures var base := c.(ds := ds, rs := c.rs + [limit]);
      RunWord(w, Xt(TO_R), a, OnDs(base, [flag, index]), g) ==
        if g < 1 then OutOfGas else Normal(InLoop(c, ds + [flag], limit, index), g - 1)
  {
    hide RunWord, Builtins, Xt;
    var base := c.(ds := ds, rs := c.rs + [limit]);
    ToR(w, a, base.(ds := ds + [flag]), index, g);
    assert ds + [flag] + [index] == OnDs(base, [flag, index]).ds;
    assert base.(ds := ds + [flag]).(rs := base.rs + [index]) == InLoop(c, ds + [flag], limit, index);
  }

  lemma StopsIs(index: int, limit: int, inc: int)
    ensures Stops(index, limit, inc) ==
      (Negative(Offset(index, limit)) != Negative((Offset(index, limit) + inc) % MODULUS))
  {
  }

  /** R> R@ LOOP_INC >R */
  lemma StepWordsRun(w: World, a: int, c: Ctx, ds: seq<int>, limit: int, index: int, inc: int, g: nat)
    requires Builtins(w) && 0 < a && LoopRoom(w, c, ds)
    ensures RunWords(w, STEP_WORDS, a, InLoop(c, ds + [inc], limit, index), g) ==
      if g < 29 then OutOfGas
      else Normal(InLoop(c, ds + [Flag(Stops(index, limit, inc))], limit, (index + inc) % MODULUS), g - 29)
  {
    StopsIs(index, limit, inc);
    hide RunWord, RunWords, Builtins, Flag, Stops, Xt, Negative, Offset, OnDs, InLoop;
    var next, flag := (index + inc) % MODULUS, Flag(Stops(index, limit, inc));
    StepIn(w, a, c, ds, limit, index, inc, g);
    if g >= 1 {
      StepIn(w, a, c, ds, limit, index, inc, g - 1);
      if g >= 2 {
        LoopIncWord(w, a + 2, c.(ds := ds, rs := c.rs + [limit]), inc, index, limit, g - 2);
        if g >= 28 {
          StepOut(w, a + 3, c, ds, limit, next, flag, g - 28);
        }
      }
    }
    FourWords(w, STEP_WORDS, a, InLoop(c, ds + [inc], limit, index), g);
  }

  /** RunWords on four words, spelt out. */
  lemma FourWords(w: World, xts: seq<int>, a: int, c: Ctx, g: nat)
    requires |xts| == 4
    ensures RunWords(w, xts, a, c, g) ==
      var r1 := RunWord(w, xts[0], a, c, g);
      if !r1.Normal? then r1 else
      var r2 := RunWord(w, xts[1], a + 1, r1.c, r1.gas);
      if !r2.Normal? then r2 else
      var r3 := RunWord(w, xts[2], a + 2, r2.c, r2.gas);
      if !r3.Normal? then r3 else RunWord(w, xts[3], a + 3, r3.c, r3.gas)
  {
    hide RunWord;
    var r1 := RunWord(w, xts[0], a, c, g);
    assert xts[1..][1..] == xts[2..] && xts[2..][1..] == xts[3..] && xts[3..][1..] == [];
    if r1.Normal? {
      var r2 := RunWord(w, xts[1], a + 1, r1.c, r1.gas);
      if r2.Normal? {
        var r3 := RunWord(w, xts[2], a + 2, r2.c, r2.gas);
        if r3.Normal? {
          OneWord(w, xts[3..], a + 3, r3.c, r3.gas);
        }
        assert RunWords(w, xts[2..], a + 2, r2.c, r2.gas) ==
          if r3.Normal? then RunWords(w, xts[3..], a + 3, r3.c, r3.gas) else r3;
      }
      assert RunWords(w, xts[1..], a + 1, r1.c, r1.gas) ==
        if r2.Normal? then RunWords(w, xts[2..], a + 2, r2.c, r2.gas) else r2;
    }
  }

  lemma OneWord(w: World, xts: seq<int>, a: int, c: Ctx, g: nat)
    requires |xts| == 1
    ensures RunWords(w, xts, a, c, g) == RunWord(w, xts[0], a, c, g)
  {
    hide RunWord;
    var r := RunWord(w, xts[0], a, c, g);
    if r.Normal? {
      assert RunWords(w, xts[1..], a + 1, r.c, r.gas) == r;
    }
  }

  // ----- one round -----

  /** The stop flag is down: INVERT BRANCH0 go on to the body. */
  lemma LoopGoesOn(w: World, ref: int, c: Ctx, ds: seq<int>, limit: int, index: int, stop: bool, g: nat)
    requires Builtins(w) && 0 < ref && LoopRoom(w, c, ds)
    ensures var c0, c1 := InLoop(c, ds + [Flag(stop)], limit, index), InLoop(c, ds + [Flag(!stop)], limit, index);
      && RunWords(w, [Xt(INVERT)], ref, c0, g) == (if g < 1 then OutOfGas else Normal(c1, g - 1))
      && Test(w, c1, g) == (if g < 1 then OutOfGas else Normal(InLoop(c, ds, limit, index), g - 1))
      && (Holds0(c1) <==> stop)
  {
    hide RunWord, Builtins, Xt;
    var c0, c1 := InLoop(c, ds + [Flag(stop)], limit, index), InLoop(c, ds + [Flag(!stop)], limit, index);
    WidthFacts();
    InvertFlag(stop);
    DataWord(w, INVERT, ref, c0, g);
    assert Effect(INVERT, c0.ds) == c1.ds;
    OneWord(w, [Xt(INVERT)], ref, c0, g);
    assert c1.ds[..|c1.ds| - 1] == ds;
  }

  /** Iterate, when the flag was down, the body ended normally and the index was stepped. */
  lemma IterateGoesOn(w: World, plain: bool, body: Stmt, ref: int, c: Ctx, g: nat)
    ensures Iterate(w, plain, body, ref, c, g) ==
      var i := RunWords(w, [Xt(INVERT)], ref, c, g);
      if !i.Normal? then i else
      var t := Test(w, i.c, i.gas);
      if !t.Normal? || Holds0(i.c) then t else
      var x := Eval(w, body, ref + 3, t.c, t.gas);
      if !x.Normal? then x else
      var y := Advance(w, plain, ref + 3 + Len(body), x.c, x.gas);
      if !y.Normal? then y else
      var z := Spend(w, y.c, y.gas);
      if z.Normal? then Iterate(w, plain, body, ref, z.c, z.gas) else z
  {
    hide RunWords, Test, Eval, Advance, Spend, Xt, Holds0;
  }

  /** One round of the loop, if the gas lasts: g' is what it leaves. */
  lemma Round(w: World, plain: bool, body: Stmt, ref: int, c: Ctx, ds: seq<int>, limit: int, index: int, inc: int,
              after: seq<int>, cost: nat, g: nat) returns (g': nat)
    requires Builtins(w) && 0 < ref && LoopRoom(w, c, ds) && LoopRoom(w, c, after) && (plain ==> inc == 1)
    requires ActsAlways(w, plain, body, ref + 3, after, inc, InLoop(c, ds, limit, index), cost)
    ensures var r := Iterate(w, plain, body, ref, InLoop(c, ds + [Flag(false)], limit, index), g);
      || (r == OutOfGas && g < cost + 33)
      || (g - cost - 33 <= g' < g &&
          r == Iterate(w, plain, body, ref,
            InLoop(c, after + [Flag(Stops(index, limit, inc))], limit, (index + inc) % MODULUS), g'))
  {
    var c0, in0 := InLoop(c, ds + [Flag(false)], limit, index), InLoop(c, ds + [Flag(true)], limit, index);
    var in1 := InLoop(c, ds, limit, index);
    hide RunWords, Builtins, Flag, Stops, Test, Eval, Xt, Advance, Spend, Iterate, LoopRoom, Holds0;
    g' := 0;
    IterateGoesOn(w, plain, body, ref, c0, g);
    LoopGoesOn(w, ref, c, ds, limit, index, false, g);
    var x := Eval(w, body, ref + 3, in1, if g < 2 then 0 else g - 2);
    assert Acts(plain, after, inc, cost, in1, if g < 2 then 0 else g - 2, x);
    if g >= 1 {
      LoopGoesOn(w, ref, c, ds, limit, index, false, g - 1);
      if g >= 2 && x.Normal? {
        var ahead := InLoop(c, after + [Flag(Stops(index, limit, inc))], limit, (index + inc) % MODULUS);
        assert x.c == InLoop(c, if plain then after else after + [inc], limit, index);
        RoundEnds(w, plain, ref + 3 + Len(body), c, after, limit, index, inc, x.gas);
        var k := if plain then 30 else 29;
        if x.gas >= k {
          g' := x.gas - k;
          if g' > 0 {
            g' := g' - 1;
          }
        }
      }
    }
  }

  /** The increment, the words of +LOOP and the branch back. */
  lemma RoundEnds(w: World, plain: bool, a: int, c: Ctx, ds: seq<int>, limit: int, index: int, inc: int, g: nat)
    requires Builtins(w) && 0 < a && LoopRoom(w, c, ds) && (plain ==> inc == 1)
    ensures var y := Advance(w, plain, a, InLoop(c, if plain then ds else ds + [inc], limit, index), g);
      var next := InLoop(c, ds + [Flag(Stops(index, limit, inc))], limit, (index + inc) % MODULUS);
      var k := if plain then 30 else 29;
      && y == (if g < k then OutOfGas else Normal(next, g - k))
      && (g >= k ==> Spend(w, next, y.gas) == if g == k then OutOfGas else Normal(next, g - k - 1))
  {
    hide RunWords, Builtins, Flag, Stops, Xt;
    StepWordsRun(w, a, c, ds, limit, index, inc, g);
    if plain && g >= 1 {
      StepWordsRun(w, a + 2, c, ds, limit, index, 1, g - 1);
      assert InLoop(c, ds, limit, index).(ds := ds + [1]) == InLoop(c, ds + [1], limit, index);
    }
  }

  /** The loop is over, with what the body has made of the data stack. */
  ghost predicate Ended(c: Ctx, ds: seq<int>, r: Result) {
    && r.Normal? && r.c.ds == ds && r.c.tr0 == c.tr0
    && exists limit, index :: r.c == InLoop(c, ds, limit, index)
  }

  /** As many rounds as the distance asks for. */
  lemma {:induction false} RoundsRun(w: World, plain: bool, body: Stmt, ref: int, c: Ctx, ds: seq<int>,
                                     limit: int, index: int, inc: Usize, F: (int, seq<int>) -> seq<int>, cost: nat,
                                     g: nat)
    requires Builtins(w) && 0 < ref && LoopRoom(w, c, ds) && (plain ==> inc == 1)
    requires inc != 0
    requires Behaves(w, plain, body, ref + 3, F, inc, c, limit, cost, RoundsOf(index, limit, inc), index, ds)
    ensures var n := RoundsOf(index, limit, inc);
      var r := Iterate(w, plain, body, ref, InLoop(c, ds + [Flag(false)], limit, index), g);
      || (r == OutOfGas && g < n * (cost + 33) + 2)
      || (Ended(c, Fold(F, n, index, inc, ds), r) && g - n * (cost + 33) - 2 <= r.gas)
    decreases RoundsOf(index, limit, inc)
  {
    hide Builtins, Flag, Stops, RoundsOf, LoopRoom, Iterate, ActsAlways, InLoop;
    var n, next := RoundsOf(index, limit, inc), (index + inc) % MODULUS;
    RoundsStep(index, limit, inc);
    var g' := Round(w, plain, body, ref, c, ds, limit, index, inc, F(index, ds), cost, g);
    var to := InLoop(c, F(index, ds) + [Flag(Stops(index, limit, inc))], limit, next);
    var r := Iterate(w, plain, body, ref, InLoop(c, ds + [Flag(false)], limit, index), g);
    TimesN(n, cost + 33);
    if r != OutOfGas || g >= cost + 33 {
      if Stops(index, limit, inc) {
        LoopStops(w, plain, body, ref, c, F(index, ds), limit, next, g');
        assert Fold(F, 1, index, inc, ds) == F(index, ds) by {
          assert Fold(F, 0, next, inc, F(index, ds)) == F(index, ds);
        }
      } else {
        RoundsRun(w, plain, body, ref, c, F(index, ds), limit, next, inc, F, cost, g');
      }
    }
  }

  lemma TimesN(n: nat, k: nat)
    requires 0 < n
    ensures n * k == k + (n - 1) * k && k <= n * k
  {
    assert 0 <= (n - 1) * k;
  }

  /** The flag is up: the loop ends. */
  lemma LoopStops(w: World, plain: bool, body: Stmt, ref: int, c: Ctx, ds: seq<int>, limit: int, index: int, g: nat)
    requires Builtins(w) && 0 < ref && LoopRoom(w, c, ds)
    ensures var r := Iterate(w, plain, body, ref, InLoop(c, ds + [Flag(true)], limit, index), g);
      (r == OutOfGas && g < 2) || (Ended(c, ds, r) && g - 2 <= r.gas)
  {
    hide RunWords, Builtins, Flag, Test, Eval, Xt;
    LoopGoesOn(w, ref, c, ds, limit, index, true, g);
    if g >= 1 {
      LoopGoesOn(w, ref, c, ds, limit, index, true, g - 1);
    }
  }

  /** With an increment of zero the loop goes on as long as the gas lasts. */
  lemma {:induction false} NeverEnds(w: World, plain: bool, body: Stmt, ref: int, c: Ctx, ds: seq<int>, limit: int,
                                     index: int, F: (int, seq<int>) -> seq<int>, cost: nat, n: nat, g: nat)
    requires Builtins(w) && 0 < ref && LoopRoom(w, c, ds) && !plain && g < n
    requires Behaves(w, plain, body, ref + 3, F, 0, c, limit, cost, n, index, ds)
    ensures Iterate(w, plain, body, ref, InLoop(c, ds + [Flag(false)], limit, index), g) == OutOfGas
    decreases n
  {
    hide Builtins, Flag, LoopRoom, Iterate, ActsAlways, InLoop;
    var g' := Round(w, plain, body, ref, c, ds, limit, index, 0, F(index, ds), cost, g);
    NoStop(index, limit);
    if Iterate(w, plain, body, ref, InLoop(c, ds + [Flag(false)], limit, index), g) == OutOfGas {
    } else {
      NeverEnds(w, plain, body, ref, c, F(index, ds), limit, (index + 0) % MODULUS, F, cost, n - 1, g');
    }
  }

  lemma NoStop(index: int, limit: int)
    ensures !Stops(index, limit, 0)
  {
    var x: Usize := Offset(index, limit);
    ModIs(x, MODULUS, 0, x);
  }

  // ----- whole loops -----

  lemma ThreeWords(w: World, xts: seq<int>, a: int, c: Ctx, g: nat)
    requires |xts| == 3
    ensures RunWords(w, xts, a, c, g) ==
      var r1 := RunWord(w, xts[0], a, c, g);
      if !r1.Normal? then r1 else
      var r2 := RunWord(w, xts[1], a + 1, r1.c, r1.gas);
      if !r2.Normal? then r2 else RunWord(w, xts[2], a + 2, r2.c, r2.gas)
  {
    hide RunWord;
    var r1 := RunWord(w, xts[0], a, c, g);
    assert xts[1..][1..] == xts[2..];
    if r1.Normal? {
      var r2 := RunWord(w, xts[1], a + 1, r1.c, r1.gas);
      if r2.Normal? {
        OneWord(w, xts[2..], a + 2, r2.c, r2.gas);
      }
      assert RunWords(w, xts[1..], a + 1, r1.c, r1.gas) ==
        if r2.Normal? then RunWords(w, xts[2..], a + 2, r2.c, r2.gas) else r2;
    }
  }

  /** SWAP >R >R and the first flag, which is always down. */
  lemma DoEnters(w: World, a: int, c: Ctx, limit: int, index: int, g: nat)
    requires Builtins(w) && 0 < a && LoopRoom(w, c, c.ds)
    ensures Enter(w, false, a, OnDs(c, [limit, index]), g) ==
      if g < 4 then OutOfGas else Normal(InLoop(c, c.ds + [Flag(false)], limit, index), g - 4)
  {
    hide RunWord, RunWords, Builtins, Xt;
    var c0, c1 := OnDs(c, [limit, index]), OnDs(c, [index, limit]);
    var c2, c3 := c.(ds := c.ds + [index], rs := c.rs + [limit]), InLoop(c, c.ds, limit, index);
    ThreeWords(w, DO_WORDS, a, c0, g);
    DataWord(w, SWAP, a, c0, g);
    assert Effect(SWAP, c0.ds) == c1.ds;
    if g >= 1 {
      ToR(w, a + 1, OnDs(c, [index]), limit, g - 1);
      assert OnDs(c, [index]).ds + [limit] == c1.ds;
      if g >= 2 {
        ToR(w, a + 2, c.(rs := c.rs + [limit]), index, g - 2);
        assert c.rs + [limit] + [index] == c3.rs;
      }
    }
    assert c3.(ds := c3.ds + [0]) == InLoop(c, c.ds + [Flag(false)], limit, index);
  }

  /** 2DUP 2>R = : the first flag is up when there is nothing to do. */
  lemma QuestionDoEnters(w: World, a: int, c: Ctx, limit: int, index: int, g: nat)
    requires Builtins(w) && 0 < a && LoopRoom(w, c, c.ds)
    ensures Enter(w, true, a, OnDs(c, [limit, index]), g) ==
      if g < 6 then OutOfGas else Normal(InLoop(c, c.ds + [Flag(limit == index)], limit, index), g - 6)
  {
    hide RunWord, RunWords, Builtins, Xt, Flag;
    var c0, c1 := OnDs(c, [limit, index]), OnDs(c, [limit, index, limit, index]);
    var c2 := InLoop(c, c.ds + [limit, index], limit, index);
    ThreeWords(w, QDO_WORDS, a, c0, g);
    TwoDupWord(w, a, c, limit, index, g);
    if g >= 4 {
      TwoToR(w, a + 1, c0, limit, index, g - 4);
      assert OnDs(c0, [limit, index]) == c1;
      assert c0.(rs := c0.rs + [limit, index]) == c2;
      if g >= 5 {
        DataWord(w, EQUALS, a + 2, c2, g - 5);
        assert Effect(EQUALS, c2.ds) == c.ds + [Flag(limit == index)];
      }
    }
  }

  lemma UnloopEnds(w: World, a: int, c: Ctx, ds: seq<int>, r: Result)
    requires Builtins(w) && 0 < a && LoopRoom(w, c, ds) && Ended(c, ds, r)
    ensures RunWords(w, [Xt(UNLOOP)], a, r.c, r.gas) ==
      if r.gas < 1 then OutOfGas else Normal(c.(ds := ds), r.gas - 1)
  {
    hide RunWord, RunWords, Builtins, Xt;
    var limit, index :| r.c == InLoop(c, ds, limit, index);
    OneWord(w, [Xt(UNLOOP)], a, r.c, r.gas);
    Unloop(w, a, c.(ds := ds), limit, index, r.gas);
  }

  /** Rounds of a whole loop; none only if ?DO finds the limit reached. */
  function LoopRounds(query: bool, limit: int, index: int, inc: Usize): nat
    requires Ends(query, limit, index, inc)
  {
    if query && limit == index then 0 else RoundsOf(index, limit, inc)
  }

  /** Every loop ends but one with increment zero that is entered. */
  predicate Ends(query: bool, limit: int, index: int, inc: Usize) {
    (query && limit == index) || inc != 0
  }

  /** A counted loop applies its body exactly LoopRounds times, to the successive indices, whatever the
      gas, and leaves the return stack as it was; with gas enough it ends. */
  lemma LoopCounts(w: World, query: bool, plain: bool, body: Stmt, a: int, c: Ctx, limit: int, index: int, inc: Usize,
                   F: (int, seq<int>) -> seq<int>, cost: nat, g: nat)
    requires Builtins(w) && 0 < a && LoopRoom(w, c, c.ds) && (plain ==> inc == 1)
    requires Ends(query, limit, index, inc)
    requires Behaves(w, plain, body, a + |DoPrefix(query)| + 3, F, inc, c, limit, cost,
      LoopRounds(query, limit, index, inc), index, c.ds)
    ensures var n := LoopRounds(query, limit, index, inc);
      var r := EvalDo(w, query, plain, body, a, OnDs(c, [limit, index]), g);
      || (r == OutOfGas && g < n * (cost + 33) + 9)
      || (r.Normal? && r.c == c.(ds := Fold(F, n, index, inc, c.ds)))
  {
    hide RunWords, Enter, Iterate, Eval, Builtins, LoopRoom, Flag, Behaves, Xt, InLoop,
      DoPrefix, Increment, Len, OnDs, LoopRounds, Fold, Ended, Ends, EvalDo;
    var k := if query then 6 else 4;
    var ref := a + |DoPrefix(query)|;
    var n := LoopRounds(query, limit, index, inc);
    EvalDoIs(w, query, plain, body, a, OnDs(c, [limit, index]), g);
    LoopEnters(w, query, a, c, limit, index, g);
    TimesNonNegative(n, cost + 33);
    var most := n * (cost + 33);
    if g >= k {
      var start := InLoop(c, c.ds + [Flag(query && limit == index)], limit, index);
      var y := Iterate(w, plain, body, ref, start, g - k);
      RoundsOrNone(w, query, plain, body, ref, c, limit, index, inc, F, cost, most, g - k);
      EndedIsNormal(c, Fold(F, n, index, inc, c.ds), y);
      if y.Normal? {
        FoldHasRoom(w, plain, body, ref + 3, F, inc, c, limit, cost, n, index, c.ds);
        UnloopEnds(w, ref + Len(body) + |Increment(plain)| + 9, c, Fold(F, n, index, inc, c.ds), y);
      }
    }
  }

  /** With increment zero it does not end, unless ?DO skips it. */
  lemma LoopGoesRound(w: World, query: bool, body: Stmt, a: int, c: Ctx, limit: int, index: int,
                      F: (int, seq<int>) -> seq<int>, cost: nat, g: nat)
    requires Builtins(w) && 0 < a && LoopRoom(w, c, c.ds) && !Ends(query, limit, index, 0)
    requires Behaves(w, false, body, a + |DoPrefix(query)| + 3, F, 0, c, limit, cost, g + 1, index, c.ds)
    ensures EvalDo(w, query, false, body, a, OnDs(c, [limit, index]), g) == OutOfGas
  {
    hide RunWords, Enter, Iterate, Eval, Builtins, LoopRoom, Flag, Behaves, Xt, InLoop, DoPrefix, Len, OnDs;
    var k := if query then 6 else 4;
    if query {
      QuestionDoEnters(w, a, c, limit, index, g);
    } else {
      DoEnters(w, a, c, limit, index, g);
    }
    if g >= k {
      NeverEnds(w, false, body, a + |DoPrefix(query)|, c, c.ds, limit, index, F, cost, g + 1, g - k);
    }
  }

  /** EvalDo, spelt out. */
  lemma EvalDoIs(w: World, query: bool, plain: bool, body: Stmt, a: int, c: Ctx, g: nat)
    ensures EvalDo(w, query, plain, body, a, c, g) ==
      var x := Enter(w, query, a, c, g);
      if !x.Normal? then x else
      var ref := a + |DoPrefix(query)|;
      var y := Iterate(w, plain, body, ref, x.c, x.gas);
      if y.Normal? || y.Left? then
        RunWords(w, [Xt(UNLOOP)], ref + Len(body) + |Increment(plain)| + 9, y.c, y.gas)
      else y
  {
    hide RunWords, Enter, Iterate, Xt, DoPrefix, Increment, Len;
  }

  lemma LoopEnters(w: World, query: bool, a: int, c: Ctx, limit: int, index: int, g: nat)
    requires Builtins(w) && 0 < a && LoopRoom(w, c, c.ds)
    ensures var k := if query then 6 else 4;
      Enter(w, query, a, OnDs(c, [limit, index]), g) ==
        if g < k then OutOfGas
        else Normal(InLoop(c, c.ds + [Flag(query && limit == index)], limit, index), g - k)
  {
    hide Enter, Builtins, LoopRoom, Flag, InLoop, OnDs;
    if query {
      QuestionDoEnters(w, a, c, limit, index, g);
    } else {
      DoEnters(w, a, c, limit, index, g);
    }
  }

  lemma EndedIsNormal(c: Ctx, ds: seq<int>, r: Result)
    ensures Ended(c, ds, r) ==> r.Normal?
  {
  }

  /** The rounds, or none if ?DO says so. */
  lemma RoundsOrNone(w: World, query: bool, plain: bool, body: Stmt, ref: int, c: Ctx, limit: int, index: int,
                     inc: Usize, F: (int, seq<int>) -> seq<int>, cost: nat, most: nat, g: nat)
    requires Builtins(w) && 0 < ref && LoopRoom(w, c, c.ds) && (plain ==> inc == 1)
    requires Ends(query, limit, index, inc) && most == LoopRounds(query, limit, index, inc) * (cost + 33)
    requires Behaves(w, plain, body, ref + 3, F, inc, c, limit, cost, LoopRounds(query, limit, index, inc), index, c.ds)
    ensures var n := LoopRounds(query, limit, index, inc);
      var r := Iterate(w, plain, body, ref, InLoop(c, c.ds + [Flag(query && limit == index)], limit, index), g);
      || (r == OutOfGas && g < most + 2)
      || (Ended(c, Fold(F, n, index, inc, c.ds), r) && g - most - 2 <= r.gas)
  {
    hide Iterate, Builtins, LoopRoom, Flag, Behaves, InLoop, RoundsOf, Ended;
    if query && limit == index {
      LoopStops(w, plain, body, ref, c, c.ds, limit, index, g);
    } else {
      RoundsRun(w, plain, body, ref, c, c.ds, limit, index, inc, F, cost, g);
    }
  }

  lemma TimesNonNegative(n: nat, k: nat)
    ensures 0 <= n * k
  {
  }

  lemma {:induction false} FoldHasRoom(w: World, plain: bool, body: Stmt, at: int, F: (int, seq<int>) -> seq<int>,
                                       inc: int, c: Ctx, limit: int, cost: nat, n: nat, index: int, ds: seq<int>)
    requires Behaves(w, plain, body, at, F, inc, c, limit, cost, n, index, ds) && LoopRoom(w, c, ds)
    ensures LoopRoom(w, c, Fold(F, n, index, inc, ds))
    decreases n
  {
    if n == 0 {
    } else {
      FoldHasRoom(w, plain, body, at, F, inc, c, limit, cost, n - 1, (index + inc) % MODULUS, F(index, ds));
    }
  }

  // ----- instances -----

  /** 1 + */
  const COUNT_BODY: Stmt := Seq(Lit(1), Word(Xt(PLUS)))

  /** I + , where I is another name for R@ */
  const SUM_BODY: Stmt := Seq(Word(Xt(R_FETCH)), Word(Xt(PLUS)))

  function AddTop(ds: seq<int>, n: int): seq<int> {
    if ds == [] then ds else ds[..|ds| - 1] + [(ds[|ds| - 1] + n) % MODULUS]
  }

  const Increase: (int, seq<int>) -> seq<int> := (index: int, ds: seq<int>) => AddTop(ds, 1)
  const AddIndex: (int, seq<int>) -> seq<int> := (index: int, ds: seq<int>) => AddTop(ds, index)

  lemma CountingActs(w: World, at: int, c: Ctx, g: nat)
    requires Builtins(w) && 0 < at && 0 < |c.ds| < w.dcap && 0 <= c.tr0 <= |c.rs| < w.rcap
    ensures Acts(true, AddTop(c.ds, 1), 1, 2, c, g, Eval(w, COUNT_BODY, at, c, g))
  {
    hide RunWord, Builtins, Xt;
    var c1, c2 := c.(ds := c.ds + [1]), c.(ds := AddTop(c.ds, 1));
    if g >= 1 {
      DataWord(w, PLUS, at + 2, c1, g - 1);
      assert Effect(PLUS, c1.ds) == c2.ds;
    }
  }

  lemma SummingActs(w: World, at: int, c: Ctx, ds: seq<int>, limit: int, index: int, g: nat)
    requires Builtins(w) && 0 < at && LoopRoom(w, c, ds) && ds != []
    ensures var c0 := InLoop(c, ds, limit, index);
      Acts(true, AddTop(ds, index), 1, 2, c0, g, Eval(w, SUM_BODY, at, c0, g))
  {
    hide RunWord, Builtins, Xt;
    var c0 := InLoop(c, ds, limit, index);
    var c1, c2 := c0.(ds := ds + [index]), c0.(ds := AddTop(ds, index));
    var base := c.(ds := ds, rs := c.rs + [limit]);
    RFetch(w, at, base, index, g);
    assert c0 == base.(rs := base.rs + [index]);
    if g >= 1 {
      DataWord(w, PLUS, at + 1, c1, g - 1);
      assert Effect(PLUS, c1.ds) == c2.ds;
    }
  }

  lemma OneMore(x: int, n: int, m: int)
    requires 0 < m
    ensures ((x + 1) % m + (n - 1)) % m == (x + n) % m
  {
    var k, y := (x + 1) / m, (x + 1) % m;
    assert x + 1 == k * m + y;
    SameResidue(x + n, y + (n - 1), k, m);
  }

  lemma {:induction false} CountingFolds(n: nat, index: int, ds: seq<int>, x: int)
    requires 0 <= x < MODULUS
    ensures Fold(Increase, n, index, 1, ds + [x]) == ds + [(x + n) % MODULUS]
  {
    ModIs(x, MODULUS, 0, x);
    if n == 0 {
    } else {
      var y := (x + 1) % MODULUS;
      assert Increase(index, ds + [x]) == ds + [y];
      CountingFolds(n - 1, (index + 1) % MODULUS, ds, y);
      OneMore(x, n, MODULUS);
    }
  }

  lemma {:induction false} CountingBehaves(w: World, at: int, c: Ctx, limit: int, n: nat, index: int, ds: seq<int>)
    requires Builtins(w) && 0 < at && LoopRoom(w, c, ds) && ds != []
    ensures Behaves(w, true, COUNT_BODY, at, Increase, 1, c, limit, 2, n, index, ds)
    decreases n
  {
    hide Eval, Builtins, Xt, RunWord;
    if n == 0 {
    } else {
      forall g: nat
        ensures var c0 := InLoop(c, ds, limit, index);
          Acts(true, AddTop(ds, 1), 1, 2, c0, g, Eval(w, COUNT_BODY, at, c0, g))
      {
        CountingActs(w, at, InLoop(c, ds, limit, index), g);
      }
      CountingBehaves(w, at, c, limit, n - 1, (index + 1) % MODULUS, AddTop(ds, 1));
    }
  }

  /** Rounds of ?DO LOOP: from the index up to the limit, or to the far side of the number circle. */
  function UpTo(index: int, limit: int): (n: int)
    ensures 0 <= n <= SIGN_BIT
  {
    DistanceRange(index, limit);
    var a := Distance(index, limit);
    if limit == index then 0 else if a < 0 then 0 - a else SIGN_BIT - a
  }

  /** x limit index ?DO 1 + LOOP adds to x the number of rounds. */
  lemma CountingLoop(w: World, a: int, c: Ctx, x: int, limit: int, index: int, g: nat)
    requires Builtins(w) && 0 < a && LoopRoom(w, c, OnDs(c, [x]).ds) && 0 <= x < MODULUS
    ensures var n := UpTo(index, limit);
      var r := EvalDo(w, true, true, COUNT_BODY, a, OnDs(c, [x, limit, index]), g);
      || (r == OutOfGas && g < n * 35 + 9)
      || (r.Normal? && r.c == OnDs(c, [(x + n) % MODULUS]))
  {
    hide EvalDo, Eval, Builtins, Xt, Behaves;
    var c0 := OnDs(c, [x]);
    OneIsUsize();
    var n := LoopRounds(true, limit, index, 1);
    UpToIs(index, limit);
    CountingBehaves(w, a + 6, c0, limit, n, index, c0.ds);
    LoopCounts(w, true, true, COUNT_BODY, a, c0, limit, index, 1, Increase, 2, g);
    assert OnDs(c0, [limit, index]) == OnDs(c, [x, limit, index]);
    CountingFolds(n, index, c.ds, x);
  }

  lemma OneIsUsize()
    ensures 1 < MODULUS && Signed(1) == 1
  {
    WidthFacts();
  }

  lemma UpToIs(index: int, limit: int)
    ensures 1 < MODULUS && UpTo(index, limit) == LoopRounds(true, limit, index, 1)
  {
    OneIsUsize();
    if limit != index {
      DistanceRange(index, limit);
      RoundsUp(Distance(index, limit), 1);
    }
  }

  lemma {:induction false} SummingBehaves(w: World, at: int, c: Ctx, limit: int, n: nat, index: int, ds: seq<int>)
    requires Builtins(w) && 0 < at && LoopRoom(w, c, ds) && ds != []
    ensures Behaves(w, true, SUM_BODY, at, AddIndex, 1, c, limit, 2, n, index, ds)
    decreases n
  {
    hide Eval, Builtins, Xt, RunWord;
    if n == 0 {
    } else {
      forall g: nat
        ensures var c0 := InLoop(c, ds, limit, index);
          Acts(true, AddTop(ds, index), 1, 2, c0, g, Eval(w, SUM_BODY, at, c0, g))
      {
        SummingActs(w, at, c, ds, limit, index, g);
      }
      SummingBehaves(w, at, c, limit, n - 1, (index + 1) % MODULUS, AddTop(ds, index));
    }
  }

  /** 0 + 1 + ... + (n - 1) */
  function Triangle(n: nat): nat {
    if n == 0 then 0 else n - 1 + Triangle(n - 1)
  }

  lemma {:induction false} TriangleIs(n: nat)
    ensures 2 * Triangle(n) == n * (n - 1)
  {
    if n == 0 {
    } else {
      TriangleIs(n - 1);
      assert n * (n - 1) == (n - 1) * (n - 2) + 2 * (n - 1);
    }
  }

  lemma SumStep(x: int, index: int, n: nat, m: int)
    requires 0 < m && 0 < n
    ensures ((x + index) % m + (n - 1) * ((index + 1) % m) + Triangle(n - 1)) % m ==
      (x + n * index + Triangle(n)) % m
  {
    hide Triangle;
    Parts(x + index, m);
    Parts(index + 1, m);
    SumParts(x, index, n, m, (x + index) / m, (x + index) % m, (index + 1) / m, (index + 1) % m);
  }

  lemma SumParts(x: int, index: int, n: nat, m: int, j: int, y: int, k: int, i: int)
    requires 0 < m && 0 < n && x + index == j * m + y && index + 1 == k * m + i
    ensures (y + (n - 1) * i + Triangle(n - 1)) % m == (x + n * index + Triangle(n)) % m
  {
    TriangleStep(n);
    OneLess(n, index);
    hide Triangle;
    var l, t := n - 1, Triangle(n - 1);
    SumResidue(x, index, l, t, j, y, k, i, m);
    SameRest(x + n * index + Triangle(n), x + l * index + index + (l + t), m);
  }

  lemma SameRest(a: int, b: int, m: int)
    requires 0 < m && a == b
    ensures a % m == b % m
  {
  }

  lemma TriangleStep(n: nat)
    requires 0 < n
    ensures Triangle(n) == n - 1 + Triangle(n - 1)
  {
  }

  lemma OneLess(n: int, index: int)
    ensures n * index == (n - 1) * index + index
  {
  }

  lemma Parts(x: int, m: int)
    requires 0 < m
    ensures x == (x / m) * m + x % m
  {
  }

  lemma SumResidue(x: int, index: int, l: int, t: int, j: int, y: int, k: int, i: int, m: int)
    requires 0 < m && x + index == j * m + y && index + 1 == k * m + i
    ensures (y + l * i + t) % m == (x + l * index + index + (l + t)) % m
  {
    Regroup(l, k, i, index, m);
    Collect(j, l * k, m);
    SameResidue(x + l * index + index + (l + t), y + l * i + t, j + l * k, m);
  }

  lemma Regroup(l: int, k: int, i: int, index: int, m: int)
    requires index + 1 == k * m + i
    ensures l * index + l == (l * k) * m + l * i
  {
    assert l * (index + 1) == l * (k * m) + l * i;
    assert l * (k * m) == (l * k) * m;
  }

  lemma Collect(j: int, k: int, m: int)
    ensures (j + k) * m == j * m + k * m
  {
  }

  lemma {:induction false} SummingFolds(n: nat, index: int, ds: seq<int>, x: int)
    requires 0 <= x < MODULUS
    ensures Fold(AddIndex, n, index, 1, ds + [x]) == ds + [(x + n * index + Triangle(n)) % MODULUS]
    decreases n
  {
    if n == 0 {
      ModIs(x, MODULUS, 0, x);
    } else {
      var y := (x + index) % MODULUS;
      assert AddIndex(index, ds + [x]) == ds + [y];
      SummingFolds(n - 1, (index + 1) % MODULUS, ds, y);
      SumStep(x, index, n, MODULUS);
    }
  }

  /** x limit index ?DO I + LOOP adds to x the indices from this one up to the limit. */
  lemma SummingLoop(w: World, a: int, c: Ctx, x: int, limit: int, index: int, g: nat)
    requires Builtins(w) && 0 < a && LoopRoom(w, c, OnDs(c, [x]).ds) && 0 <= x < MODULUS
    ensures var n := UpTo(index, limit);
      var r := EvalDo(w, true, true, SUM_BODY, a, OnDs(c, [x, limit, index]), g);
      || (r == OutOfGas && g < n * 35 + 9)
      || (r.Normal? && r.c == OnDs(c, [(x + n * index + n * (n - 1) / 2) % MODULUS]))
  {
    hide EvalDo, Eval, Builtins, Xt, Behaves, Fold, AddIndex;
    var c0 := OnDs(c, [x]);
    OneIsUsize();
    var n := LoopRounds(true, limit, index, 1);
    UpToIs(index, limit);
    SummingBehaves(w, a + 6, c0, limit, n, index, c0.ds);
    LoopCounts(w, true, true, SUM_BODY, a, c0, limit, index, 1, AddIndex, 2, g);
    assert OnDs(c0, [limit, index]) == OnDs(c, [x, limit, index]);
    SummingResult(n, index, c.ds, x);
  }

  lemma SummingResult(n: nat, index: int, ds: seq<int>, x: int)
    requires 0 <= x < MODULUS
    ensures Fold(AddIndex, n, index, 1, ds + [x]) == ds + [(x + n * index + n * (n - 1) / 2) % MODULUS]
  {
    SummingFolds(n, index, ds, x);
    TriangleIs(n);
  }
}
