/** What the thread of LOOP_INC computes: the test that ends a counted loop. */
module LoopStep {
  import opened Words
  import opened Machine
  import opened Structured
  import opened Correctness

  // ----- straight runs of a thread -----

  /** The thread gets from one cell to another for k units of gas, whatever gas it has. */
  ghost predicate Goes(w: World, a: int, c: Ctx, b: int, d: Ctx, k: nat) {
    forall g: nat :: From(w, AtCell(a, c), g) == if g < k then Running else From(w, AtCell(b, d), g - k)
  }

  lemma GoesOn(w: World, a: int, c: Ctx, b: int, d: Ctx, k: nat, e: int, f: Ctx, l: nat)
    requires Goes(w, a, c, b, d, k) && Goes(w, b, d, e, f, l)
    ensures Goes(w, a, c, e, f, k + l)
  {
    hide From;
    forall g: nat
      ensures From(w, AtCell(a, c), g) == if g < k + l then Running else From(w, AtCell(e, f), g - (k + l))
    {
      if g >= k {
        assert From(w, AtCell(b, d), g - k) == if g - k < l then Running else From(w, AtCell(e, f), g - k - l);
      }
    }
  }

  /** Room for one call, and a frame that is not below its base. */
  predicate CanCall(w: World, c: Ctx) {
    c.tr0 <= |c.rs| < w.rcap
  }

  lemma WordGoes(w: World, xt: int, a: int, c: Ctx, d: Ctx, k: nat)
    requires Readable(w, a) && w.mem[a] == xt != Xt(EXIT)
    requires forall g: nat :: RunWord(w, xt, a, c, g) == if g < k then OutOfGas else Normal(d, g - k)
    ensures Goes(w, a, c, a + 1, d, k)
  {
    hide From, RunWord;
    forall g: nat
      ensures From(w, AtCell(a, c), g) == if g < k then Running else From(w, AtCell(a + 1, d), g - k)
    {
      StepWord(w, xt, a, c, g);
    }
  }

  /** A word written in C whose checks succeed and that returns to the next cell. */
  lemma NativeWord(w: World, b: Builtin, a: int, c: Ctx, d: Ctx, g: nat)
    requires Builtins(w) && !HasTable(b) && b != EXECUTE && CanCall(w, c) && 0 < a
    requires NativeStep(w, b, State(a, c.ds, c.rs + [a + 1], c.tr0)) == Next(AtCell(a + 1, d))
    ensures RunWord(w, Xt(b), a, c, g) == if g < 1 then OutOfGas else Normal(d, g - 1)
  {
    hide NativeStep, RunCode;
    assert Xt(b) in w.tokens;
    NativeCall(w, b, AtCell(a, c), g);
    assert AtCell(a, c).(rs := c.rs + [a + 1]) == State(a, c.ds, c.rs + [a + 1], c.tr0);
  }

  lemma DataWord(w: World, b: Builtin, a: int, c: Ctx, g: nat)
    requires Builtins(w) && IsData(b) && CanCall(w, c) && 0 < a
    requires Pops(b) <= |c.ds| && |c.ds| + Room(b) <= w.dcap
    ensures RunWord(w, Xt(b), a, c, g) ==
      if g < 1 then OutOfGas else Normal(c.(ds := Effect(b, c.ds)), g - 1)
  {
    hide Builtins, RunWord, Effect;
    DataReturns(w, b, a, c);
    NativeWord(w, b, a, c, c.(ds := Effect(b, c.ds)), g);
  }

  lemma DataReturns(w: World, b: Builtin, a: int, c: Ctx)
    requires IsData(b) && CanCall(w, c)
    requires Pops(b) <= |c.ds| && |c.ds| + Room(b) <= w.dcap
    ensures NativeStep(w, b, State(a, c.ds, c.rs + [a + 1], c.tr0)) ==
      Next(State(a + 1, Effect(b, c.ds), c.rs, c.tr0))
  {
    hide Effect, FrameStep, InlineStep;
    assert (c.rs + [a + 1])[..|c.rs|] == c.rs;
  }

  lemma FrameIsNative(w: World, b: Builtin, s: State)
    requires IsFrameWord(b)
    ensures NativeStep(w, b, s) == FrameStep(w, b, s)
  {
    hide FrameStep, InlineStep, DataStep;
  }

  lemma ToR(w: World, a: int, c: Ctx, x: int, g: nat)
    requires Builtins(w) && CanCall(w, c) && 0 < a && |c.rs| + 1 < w.rcap && |c.ds| < w.dcap
    ensures RunWord(w, Xt(TO_R), a, c.(ds := c.ds + [x]), g) ==
      if g < 1 then OutOfGas else Normal(c.(rs := c.rs + [x]), g - 1)
  {
    hide Builtins, RunWord, NativeStep;
    var c1 := c.(ds := c.ds + [x]);
    var s := State(a, c1.ds, c1.rs + [a + 1], c.tr0);
    assert s.rs[..|s.rs| - 1] == c.rs && s.ds[..|s.ds| - 1] == c.ds;
    assert FrameStep(w, TO_R, s) == Next(State(a + 1, c.ds, c.rs + [x], c.tr0));
    FrameIsNative(w, TO_R, s);
    NativeWord(w, TO_R, a, c1, c.(rs := c.rs + [x]), g);
  }

  lemma RFrom(w: World, a: int, c: Ctx, x: int, g: nat)
    requires Builtins(w) && c.tr0 <= |c.rs| && |c.rs| + 1 < w.rcap && 0 < a && |c.ds| < w.dcap
    ensures RunWord(w, Xt(R_FROM), a, c.(rs := c.rs + [x]), g) ==
      if g < 1 then OutOfGas else Normal(c.(ds := c.ds + [x]), g - 1)
  {
    hide Builtins, RunWord, NativeStep;
    var c1 := c.(rs := c.rs + [x]);
    var s := State(a, c1.ds, c1.rs + [a + 1], c.tr0);
    assert s.rs[..|s.rs| - 1] == c1.rs && c1.rs[..|c.rs|] == c.rs;
    assert FrameStep(w, R_FROM, s) == Next(State(a + 1, c.ds + [x], c.rs, c.tr0));
    FrameIsNative(w, R_FROM, s);
    NativeWord(w, R_FROM, a, c1, c.(ds := c.ds + [x]), g);
  }

  lemma RFetch(w: World, a: int, c: Ctx, x: int, g: nat)
    requires Builtins(w) && c.tr0 <= |c.rs| && |c.rs| + 1 < w.rcap && 0 < a && |c.ds| < w.dcap
    ensures var d := c.(rs := c.rs + [x]);
      RunWord(w, Xt(R_FETCH), a, d, g) == if g < 1 then OutOfGas else Normal(d.(ds := c.ds + [x]), g - 1)
  {
    hide Builtins, RunWord, NativeStep;
    var c1 := c.(rs := c.rs + [x]);
    var s := State(a, c1.ds, c1.rs + [a + 1], c.tr0);
    assert s.rs[..|s.rs| - 1] == c1.rs;
    assert FrameStep(w, R_FETCH, s) == Next(State(a + 1, c.ds + [x], c1.rs, c.tr0));
    FrameIsNative(w, R_FETCH, s);
    NativeWord(w, R_FETCH, a, c1, c1.(ds := c.ds + [x]), g);
  }

  lemma TwoToR(w: World, a: int, c: Ctx, x: int, y: int, g: nat)
    requires Builtins(w) && c.tr0 <= |c.rs| && 0 < a && |c.rs| + 2 < w.rcap && |c.ds| + 2 <= w.dcap
    ensures RunWord(w, Xt(TWO_TO_R), a, OnDs(c, [x, y]), g) ==
      if g < 1 then OutOfGas else Normal(c.(rs := c.rs + [x, y]), g - 1)
  {
    hide Builtins, RunWord, NativeStep;
    var c1 := OnDs(c, [x, y]);
    var s := State(a, c1.ds, c1.rs + [a + 1], c.tr0);
    assert s.rs[..|s.rs| - 1] == c.rs && s.ds[..|s.ds| - 2] == c.ds;
    assert FrameStep(w, TWO_TO_R, s) == Next(State(a + 1, c.ds, c.rs + [x, y], c.tr0));
    FrameIsNative(w, TWO_TO_R, s);
    NativeWord(w, TWO_TO_R, a, c1, c.(rs := c.rs + [x, y]), g);
  }

  lemma Unloop(w: World, a: int, c: Ctx, x: int, y: int, g: nat)
    requires Builtins(w) && c.tr0 <= |c.rs| && 0 < a && |c.rs| + 2 < w.rcap && |c.ds| <= w.dcap
    ensures RunWord(w, Xt(UNLOOP), a, c.(rs := c.rs + [x, y]), g) ==
      if g < 1 then OutOfGas else Normal(c, g - 1)
  {
    hide Builtins, RunWord, NativeStep;
    var c1 := c.(rs := c.rs + [x, y]);
    var s := State(a, c1.ds, c1.rs + [a + 1], c.tr0);
    assert s.rs[..|s.rs| - 1] == c1.rs && c1.rs[..|c.rs|] == c.rs;
    assert FrameStep(w, UNLOOP, s) == Next(State(a + 1, c.ds, c.rs, c.tr0));
    FrameIsNative(w, UNLOOP, s);
    NativeWord(w, UNLOOP, a, c1, c, g);
  }

  lemma LiteralGoes(w: World, a: int, n: int, c: Ctx)
    requires Builtins(w) && Holds(w.mem, a, [Xt(LIT_CELL), n]) && CanCall(w, c) && |c.ds| < w.dcap
    ensures Goes(w, a, c, a + 2, c.(ds := c.ds + [n]), 1)
  {
    hide From;
    var d := c.(ds := c.ds + [n]);
    forall g: nat
      ensures From(w, AtCell(a, c), g) == if g < 1 then Running else From(w, AtCell(a + 2, d), g - 1)
    {
      StepLiteral(w, a, n, c, g);
    }
  }

  lemma DataGoes(w: World, b: Builtin, a: int, c: Ctx)
    requires Builtins(w) && IsData(b) && CanCall(w, c) && Readable(w, a) && w.mem[a] == Xt(b)
    requires Pops(b) <= |c.ds| && |c.ds| + Room(b) <= w.dcap
    ensures Goes(w, a, c, a + 1, c.(ds := Effect(b, c.ds)), 1)
  {
    hide RunWord, Effect;
    NotExit(w, b);
    forall g: nat {
      DataWord(w, b, a, c, g);
    }
    WordGoes(w, Xt(b), a, c, c.(ds := Effect(b, c.ds)), 1);
  }

  function TableOf(w: World, b: Builtin): int
    requires Builtins(w) && HasTable(b)
  {
    w.tokens[Xt(b)].table
  }

  /** A context with more cells on its data stack. */
  function OnDs(c: Ctx, xs: seq<int>): Ctx {
    c.(ds := c.ds + xs)
  }

  /** A builtin with a thread of its own, given where its thread gets to. */
  /** The end of a thread that was called from address a with an empty frame. */
  lemma TableEnds(s: State, c: Ctx, a: int)
    requires s.rs == c.rs + [a + 1, c.tr0] && s.tr0 == |c.rs| + 2 && c.tr0 <= |c.rs|
    ensures EndThread(s) == Next(State(a + 1, s.ds, c.rs, c.tr0))
  {
    assert s.rs[..|s.rs| - 1] == c.rs + [a + 1];
    assert (c.rs + [a + 1])[..|c.rs|] == c.rs;
  }

  lemma TableWord(w: World, b: Builtin, a: int, c: Ctx, e: int, d: Ctx, k: nat, g: nat)
    requires Builtins(w) && HasTable(b) && 0 < a && c.tr0 <= |c.rs| && |c.rs| + 2 <= w.rcap
    requires Readable(w, e) && w.mem[e] == Xt(EXIT)
    requires Goes(w, TableOf(w, b), Ctx(c.ds, c.rs + [a + 1, c.tr0], |c.rs| + 2), e, d, k)
    requires d.rs == c.rs + [a + 1, c.tr0] && d.tr0 == |c.rs| + 2
    ensures RunWord(w, Xt(b), a, c, g) == if g < k + 2 then OutOfGas else Normal(c.(ds := d.ds), g - (k + 2))
  {
    hide NativeStep, Builtins, Loop;
    TableIsThunk(w, b);
    var table := TableOf(w, b);
    var in0 := Ctx(c.ds, c.rs + [a + 1, c.tr0], |c.rs| + 2);
    var t := State(a, c.ds, c.rs + [a + 1], c.tr0);
    assert AtCell(a, c).(rs := c.rs + [a + 1]) == t;
    assert t.rs + [t.tr0] == in0.rs;
    if g > 0 {
      assert Execute(w, false, Xt(b), AtCell(a, c), g) == EnterThread(w, false, table, t, g - 1);
      var r := Loop(w, false, 1, AtCell(table, in0), g - 1);
      assert Observe(r) == From(w, AtCell(table, in0), g - 1);
      if g - 1 >= k {
        StepExit(w, e, d, g - 1 - k);
        if r.Done? {
          assert r.s.rs == d.rs && r.s.tr0 == d.tr0;
          TableEnds(r.s, c, a);
        }
      }
    }
  }

  lemma TableIsThunk(w: World, b: Builtin)
    requires Builtins(w) && HasTable(b)
    ensures Xt(b) in w.tokens && w.tokens[Xt(b)].Thunk? && Holds(w.mem, w.tokens[Xt(b)].table, Table(b))
  {
  }

  // ----- the threads -----

  /** One word of a thread that is a native of any kind. */
  lemma ToRGoes(w: World, a: int, c: Ctx, x: int)
    requires Builtins(w) && CanCall(w, c) && |c.rs| + 1 < w.rcap && |c.ds| < w.dcap
    requires Readable(w, a) && w.mem[a] == Xt(TO_R)
    ensures Goes(w, a, c.(ds := c.ds + [x]), a + 1, c.(rs := c.rs + [x]), 1)
  {
    hide RunWord, Builtins;
    NotExit(w, TO_R);
    forall g: nat {
      ToR(w, a, c, x, g);
    }
    WordGoes(w, Xt(TO_R), a, c.(ds := c.ds + [x]), c.(rs := c.rs + [x]), 1);
  }

  lemma RFromGoes(w: World, a: int, c: Ctx, x: int)
    requires Builtins(w) && c.tr0 <= |c.rs| && |c.rs| + 1 < w.rcap && |c.ds| < w.dcap
    requires Readable(w, a) && w.mem[a] == Xt(R_FROM)
    ensures Goes(w, a, c.(rs := c.rs + [x]), a + 1, c.(ds := c.ds + [x]), 1)
  {
    hide RunWord, Builtins;
    NotExit(w, R_FROM);
    forall g: nat {
      RFrom(w, a, c, x, g);
    }
    WordGoes(w, Xt(R_FROM), a, c.(rs := c.rs + [x]), c.(ds := c.ds + [x]), 1);
  }

  /** 2DUP: OVER OVER */
  lemma TwoDupWord(w: World, a: int, c: Ctx, x: int, y: int, g: nat)
    requires Builtins(w) && 0 < a
    requires 0 <= c.tr0 <= |c.rs| && |c.rs| + 3 <= w.rcap && |c.ds| + 4 <= w.dcap
    ensures RunWord(w, Xt(TWO_DUP), a, OnDs(c, [x, y]), g) ==
      if g < 4 then OutOfGas else Normal(OnDs(c, [x, y, x, y]), g - 4)
  {
    hide RunWord, Builtins;
    TableIsThunk(w, TWO_DUP);
    var t := TableOf(w, TWO_DUP);
    var cells := Table(TWO_DUP);
    HoldsCell(w.mem, t, cells, 0);
    HoldsCell(w.mem, t, cells, 1);
    HoldsCell(w.mem, t, cells, 2);
    var in0 := Ctx(c.ds + [x, y], c.rs + [a + 1, c.tr0], |c.rs| + 2);
    var in1 := in0.(ds := Effect(OVER, in0.ds));
    assert in1.ds == c.ds + [x, y, x];
    var in2 := in1.(ds := Effect(OVER, in1.ds));
    assert in2.ds == c.ds + [x, y, x, y];
    DataGoes(w, OVER, t, in0);
    DataGoes(w, OVER, t + 1, in1);
    GoesOn(w, t, in0, t + 1, in1, 1, t + 2, in2, 1);
    TableWord(w, TWO_DUP, a, OnDs(c, [x, y]), t + 2, in2, 2, g);
  }

  lemma TwoDupGoes(w: World, a: int, c: Ctx, x: int, y: int)
    requires Builtins(w) && Readable(w, a) && w.mem[a] == Xt(TWO_DUP)
    requires 0 <= c.tr0 <= |c.rs| && |c.rs| + 3 <= w.rcap && |c.ds| + 4 <= w.dcap
    ensures Goes(w, a, OnDs(c, [x, y]), a + 1, OnDs(c, [x, y, x, y]), 4)
  {
    hide RunWord, Builtins, OnDs;
    forall g: nat {
      TwoDupWord(w, a, c, x, y, g);
    }
    NotExit(w, TWO_DUP);
    WordGoes(w, Xt(TWO_DUP), a, OnDs(c, [x, y]), OnDs(c, [x, y, x, y]), 4);
  }

  /** 0=: LIT_CELL 0 EQUALS */
  lemma ZeroEqualsGoes(w: World, a: int, c: Ctx, x: int)
    requires Builtins(w) && Readable(w, a) && w.mem[a] == Xt(ZERO_EQUALS)
    requires 0 <= c.tr0 <= |c.rs| && |c.rs| + 3 <= w.rcap && |c.ds| + 2 <= w.dcap
    ensures Goes(w, a, c.(ds := c.ds + [x]), a + 1, c.(ds := c.ds + [Flag(x == 0)]), 4)
  {
    hide RunWord, Builtins;
    TableIsThunk(w, ZERO_EQUALS);
    var t := TableOf(w, ZERO_EQUALS);
    var cells := Table(ZERO_EQUALS);
    assert cells == [Xt(LIT_CELL), 0] + [Xt(EQUALS), Xt(EXIT), Xt(SENTINEL)];
    HoldsSplit(w.mem, t, [Xt(LIT_CELL), 0], [Xt(EQUALS), Xt(EXIT), Xt(SENTINEL)]);
    HoldsCell(w.mem, t, cells, 2);
    HoldsCell(w.mem, t, cells, 3);
    var in0 := Ctx(c.ds + [x], c.rs + [a + 1, c.tr0], |c.rs| + 2);
    var in1 := in0.(ds := in0.ds + [0]);
    var in2 := in1.(ds := Effect(EQUALS, in1.ds));
    assert in2.ds == c.ds + [Flag(x == 0)];
    LiteralGoes(w, t, 0, in0);
    DataGoes(w, EQUALS, t + 2, in1);
    GoesOn(w, t, in0, t + 2, in1, 1, t + 3, in2, 1);
    var c0 := c.(ds := c.ds + [x]);
    forall g: nat {
      TableWord(w, ZERO_EQUALS, a, c0, t + 3, in2, 2, g);
    }
    NotExit(w, ZERO_EQUALS);
    WordGoes(w, Xt(ZERO_EQUALS), a, c0, c.(ds := in2.ds), 4);
  }

  lemma HoldsSlice(mem: seq<int>, a: int, cells: seq<int>, i: nat, j: nat)
    requires Holds(mem, a, cells) && i <= j <= |cells|
    ensures Holds(mem, a + i, cells[i..j])
  {
    assert cells == cells[..i] + (cells[i..j] + cells[j..]);
    HoldsSplit(mem, a, cells[..i], cells[i..j] + cells[j..]);
    HoldsSplit(mem, a + i, cells[i..j], cells[j..]);
  }

  /** ( inc index limit -- stop-flag new-index ), in the groups of the source. */
  const LOOP_INC_SUM: seq<int> := [Xt(TO_R), Xt(TWO_DUP), Xt(PLUS), Xt(R_FROM), Xt(SWAP), Xt(TO_R)]
  const LOOP_INC_OFFSETS: seq<int> :=
    [Xt(MINUS), Xt(LIT_CELL), SIGN_BIT, Xt(PLUS), Xt(DUP), Xt(ROT), Xt(PLUS)]
  const LOOP_INC_FLAG: seq<int> := [Xt(XOR), Xt(LIT_CELL), BITS - 1, Xt(RSHIFT), Xt(ZERO_EQUALS), Xt(INVERT)]

  const LOOP_INC_END: seq<int> := [Xt(R_FROM), Xt(EXIT), Xt(SENTINEL)]

  /** A thread that still has room for the words of LOOP_INC. */
  predicate Roomy(w: World, c: Ctx) {
    0 <= c.tr0 <= |c.rs| && |c.rs| + 4 <= w.rcap && |c.ds| + 4 <= w.dcap
  }

  /** >R 2DUP + R> SWAP >R */
  lemma SumGoes(w: World, a: int, c: Ctx, inc: int, index: int, limit: int)
    requires Builtins(w) && Holds(w.mem, a, LOOP_INC_SUM) && Roomy(w, c)
    ensures Goes(w, a, OnDs(c, [inc, index, limit]),
                 a + 6, OnDs(c, [inc, index, limit]).(rs := c.rs + [(index + inc) % MODULUS]), 9)
  {
    hide Builtins, Holds, Goes;
    HoldsCell(w.mem, a, LOOP_INC_SUM, 0);
    HoldsCell(w.mem, a, LOOP_INC_SUM, 1);
    var sum := (index + inc) % MODULUS;
    var c0, c1 := OnDs(c, [inc, index, limit]), OnDs(c, [inc, index]).(rs := c.rs + [limit]);
    ToRGoes(w, a, OnDs(c, [inc, index]), limit);
    assert OnDs(c, [inc, index]).(ds := c.ds + [inc, index] + [limit]) == c0;
    var c2 := OnDs(c, [inc, index, inc, index]).(rs := c.rs + [limit]);
    TwoDupGoes(w, a + 1, c.(rs := c.rs + [limit]), inc, index);
    GoesOn(w, a, c0, a + 1, c1, 1, a + 2, c2, 4);
    SumTail(w, a, c, inc, index, limit);
    GoesOn(w, a, c0, a + 2, c2, 5, a + 6, c0.(rs := c.rs + [sum]), 4);
  }

  lemma SumTail(w: World, a: int, c: Ctx, inc: int, index: int, limit: int)
    requires Builtins(w) && Holds(w.mem, a, LOOP_INC_SUM) && Roomy(w, c)
    ensures Goes(w, a + 2, OnDs(c, [inc, index, inc, index]).(rs := c.rs + [limit]),
                 a + 6, OnDs(c, [inc, index, limit]).(rs := c.rs + [(index + inc) % MODULUS]), 4)
  {
    hide Builtins, Holds, Goes;
    HoldsCell(w.mem, a, LOOP_INC_SUM, 2);
    HoldsCell(w.mem, a, LOOP_INC_SUM, 3);
    HoldsCell(w.mem, a, LOOP_INC_SUM, 4);
    HoldsCell(w.mem, a, LOOP_INC_SUM, 5);
    var sum := (index + inc) % MODULUS;
    var c2 := OnDs(c, [inc, index, inc, index]).(rs := c.rs + [limit]);
    var c3 := OnDs(c, [inc, index, sum]).(rs := c.rs + [limit]);
    var c4, c5 := OnDs(c, [inc, index, sum, limit]), OnDs(c, [inc, index, limit, sum]);
    var c6 := OnDs(c, [inc, index, limit]).(rs := c.rs + [sum]);
    DataGoes(w, PLUS, a + 2, c2);
    assert (inc + index) % MODULUS == sum;
    assert Effect(PLUS, c2.ds) == c3.ds;
    RFromGoes(w, a + 3, OnDs(c, [inc, index, sum]), limit);
    assert c.ds + [inc, index, sum] + [limit] == c4.ds;
    GoesOn(w, a + 2, c2, a + 3, c3, 1, a + 4, c4, 1);
    DataGoes(w, SWAP, a + 4, c4);
    assert Effect(SWAP, c4.ds) == c5.ds;
    GoesOn(w, a + 2, c2, a + 4, c4, 2, a + 5, c5, 1);
    ToRGoes(w, a + 5, OnDs(c, [inc, index, limit]), sum);
    assert c.ds + [inc, index, limit] + [sum] == c5.ds;
    GoesOn(w, a + 2, c2, a + 5, c5, 3, a + 6, c6, 1);
  }

  /** X = index - limit + MININT, and X + inc. */
  function Offset(index: int, limit: int): int {
    ((index - limit) % MODULUS + SIGN_BIT) % MODULUS
  }

  /** - LIT_CELL MININT + */
  lemma DifferenceGoes(w: World, a: int, c: Ctx, inc: int, index: int, limit: int)
    requires Builtins(w) && Holds(w.mem, a, LOOP_INC_OFFSETS) && Roomy(w, c)
    ensures Goes(w, a, OnDs(c, [inc, index, limit]), a + 4, OnDs(c, [inc, Offset(index, limit)]), 3)
  {
    hide Builtins, Holds, Goes;
    HoldsCell(w.mem, a, LOOP_INC_OFFSETS, 0);
    HoldsCell(w.mem, a, LOOP_INC_OFFSETS, 3);
    assert LOOP_INC_OFFSETS[1..3] == [Xt(LIT_CELL), SIGN_BIT];
    HoldsSlice(w.mem, a, LOOP_INC_OFFSETS, 1, 3);
    var d := (index - limit) % MODULUS;
    var c0, c1, c2 := OnDs(c, [inc, index, limit]), OnDs(c, [inc, d]), OnDs(c, [inc, d, SIGN_BIT]);
    var c3 := OnDs(c, [inc, Offset(index, limit)]);
    DataGoes(w, MINUS, a, c0);
    assert Effect(MINUS, c0.ds) == c1.ds;
    LiteralGoes(w, a + 1, SIGN_BIT, c1);
    assert c1.ds + [SIGN_BIT] == c2.ds;
    GoesOn(w, a, c0, a + 1, c1, 1, a + 3, c2, 1);
    DataGoes(w, PLUS, a + 3, c2);
    assert Effect(PLUS, c2.ds) == c3.ds;
    GoesOn(w, a, c0, a + 3, c2, 2, a + 4, c3, 1);
  }

  /** DUP ROT + */
  lemma ShiftedEffects(ds: seq<int>, inc: int, x: int)
    ensures Effect(DUP, ds + [inc, x]) == ds + [inc, x, x]
    ensures Effect(ROT, ds + [inc, x, x]) == ds + [x, x, inc]
    ensures Effect(PLUS, ds + [x, x, inc]) == ds + [x, (x + inc) % MODULUS]
  {
  }

  lemma ShiftedGoes(w: World, a: int, c: Ctx, inc: int, x: int)
    requires Builtins(w) && Holds(w.mem, a, LOOP_INC_OFFSETS) && Roomy(w, c)
    ensures Goes(w, a + 4, OnDs(c, [inc, x]), a + 7, OnDs(c, [x, (x + inc) % MODULUS]), 3)
  {
    ShiftedEffects(c.ds, inc, x);
    hide Builtins, Holds, Goes, Effect;
    HoldsCell(w.mem, a, LOOP_INC_OFFSETS, 4);
    HoldsCell(w.mem, a, LOOP_INC_OFFSETS, 5);
    HoldsCell(w.mem, a, LOOP_INC_OFFSETS, 6);
    var c3, c4, c5 := OnDs(c, [inc, x]), OnDs(c, [inc, x, x]), OnDs(c, [x, x, inc]);
    var c6 := OnDs(c, [x, (x + inc) % MODULUS]);
    DataGoes(w, DUP, a + 4, c3);
    DataGoes(w, ROT, a + 5, c4);
    GoesOn(w, a + 4, c3, a + 5, c4, 1, a + 6, c5, 1);
    DataGoes(w, PLUS, a + 6, c5);
    GoesOn(w, a + 4, c3, a + 6, c5, 2, a + 7, c6, 1);
  }

  /** XOR LIT_CELL BITS-1 RSHIFT */
  lemma SignEffects(ds: seq<int>, x: int, y: int)
    ensures Effect(XOR, ds + [x, y]) == ds + [Bitwise(BitXor, x, y, BITS)]
    ensures 0 < BITS && Effect(RSHIFT, ds + [x, BITS - 1]) == ds + [x / Pow2(BITS - 1)]
  {
    WidthFacts();
    hide Bitwise, Pow2;
  }

  lemma SignGoes(w: World, a: int, c: Ctx, x: int, y: int)
    requires Builtins(w) && Holds(w.mem, a, LOOP_INC_FLAG) && Roomy(w, c)
    ensures Goes(w, a, OnDs(c, [x, y]), a + 4, OnDs(c, [Bitwise(BitXor, x, y, BITS) / Pow2(BITS - 1)]), 3)
  {
    WidthFacts();
    SignEffects(c.ds, x, y);
    hide Builtins, Holds, Goes, Bitwise, Pow2, Effect;
    HoldsCell(w.mem, a, LOOP_INC_FLAG, 0);
    HoldsCell(w.mem, a, LOOP_INC_FLAG, 3);
    assert LOOP_INC_FLAG[1..3] == [Xt(LIT_CELL), BITS - 1];
    HoldsSlice(w.mem, a, LOOP_INC_FLAG, 1, 3);
    var z := Bitwise(BitXor, x, y, BITS);
    var c0, c1, c2 := OnDs(c, [x, y]), OnDs(c, [z]), OnDs(c, [z, BITS - 1]);
    var c3 := OnDs(c, [z / Pow2(BITS - 1)]);
    DataGoes(w, XOR, a, c0);
    SignEffects(c.ds, z, BITS - 1);
    LiteralGoes(w, a + 1, BITS - 1, c1);
    assert c1.ds + [BITS - 1] == c2.ds;
    GoesOn(w, a, c0, a + 1, c1, 1, a + 3, c2, 1);
    DataGoes(w, RSHIFT, a + 3, c2);
    GoesOn(w, a, c0, a + 3, c2, 2, a + 4, c3, 1);
  }

  /** The whole flag: then 0= INVERT. */
  lemma FlagGoes(w: World, a: int, c: Ctx, x: int, y: int)
    requires Builtins(w) && Holds(w.mem, a, LOOP_INC_FLAG) && Roomy(w, c)
    requires 0 <= x < MODULUS && 0 <= y < MODULUS
    ensures Goes(w, a, OnDs(c, [x, y]), a + 6, OnDs(c, [Flag(Negative(x) != Negative(y))]), 8)
  {
    SignsDiffer(x, y);
    hide Builtins, Holds, Goes, Bitwise, Flag, Negative, Pow2, Roomy, OnDs;
    HoldsCell(w.mem, a, LOOP_INC_FLAG, 4);
    HoldsCell(w.mem, a, LOOP_INC_FLAG, 5);
    var b := Bitwise(BitXor, x, y, BITS) / Pow2(BITS - 1);
    var c0, c3, c4, c5 := OnDs(c, [x, y]), OnDs(c, [b]), OnDs(c, [Flag(b == 0)]), OnDs(c, [Flag(b != 0)]);
    SignGoes(w, a, c, x, y);
    ZeroEqualsGoes(w, a + 4, c, b);
    GoesOn(w, a, c0, a + 4, c3, 3, a + 5, c4, 4);
    InvertGoes(w, a + 5, c, b == 0);
    GoesOn(w, a, c0, a + 5, c4, 7, a + 6, c5, 1);
  }

  lemma InvertGoes(w: World, a: int, c: Ctx, f: bool)
    requires Builtins(w) && CanCall(w, c) && |c.ds| < w.dcap && Readable(w, a) && w.mem[a] == Xt(INVERT)
    ensures Goes(w, a, OnDs(c, [Flag(f)]), a + 1, OnDs(c, [Flag(!f)]), 1)
  {
    InvertFlag(f);
    hide Builtins, Goes, Flag;
    DataGoes(w, INVERT, a, OnDs(c, [Flag(f)]));
    assert Effect(INVERT, c.ds + [Flag(f)]) == c.ds + [Flag(!f)];
  }

  lemma InvertFlag(f: bool)
    ensures MODULUS - 1 - Flag(f) == Flag(!f)
  {
  }

  /** The top bit of the exclusive or tells whether the signs differ. */
  lemma XorTop(x: int, y: int, n: nat)
    requires 0 < n
    ensures var p := Pow2(n - 1);
      Bitwise(BitXor, x, y, n) == (if (x >= p) != (y >= p) then p else 0) + Bitwise(BitXor, x % p, y % p, n - 1)
  {
  }

  lemma SignsDiffer(x: int, y: int)
    requires 0 <= x < MODULUS && 0 <= y < MODULUS
    ensures (Bitwise(BitXor, x, y, BITS) / Pow2(BITS - 1) != 0) <==> Negative(x) != Negative(y)
  {
    WidthFacts();
    hide Bitwise, Pow2;
    var p := Pow2(BITS - 1);
    var low := Bitwise(BitXor, x % p, y % p, BITS - 1);
    XorTop(x, y, BITS);
    if (x >= p) != (y >= p) {
      ModIs(p + low, p, 1, low);
    } else {
      ModIs(low, p, 0, low);
    }
  }

  /** LOOP_INC as a word of a thread: the new index and whether to stop. */
  lemma LoopIncWord(w: World, a: int, c: Ctx, inc: int, index: int, limit: int, g: nat)
    requires Builtins(w) && 0 < a && 0 <= c.tr0 <= |c.rs|
    requires |c.rs| + 7 <= w.rcap && |c.ds| + 4 <= w.dcap
    ensures var x := Offset(index, limit);
      RunWord(w, Xt(LOOP_INC), a, OnDs(c, [inc, index, limit]), g) ==
        if g < 26 then OutOfGas
        else Normal(OnDs(c, [Flag(Negative(x) != Negative((x + inc) % MODULUS)), (index + inc) % MODULUS]), g - 26)
  {
    hide RunWord, Goes, Flag, Negative, Offset, Table;
    TableIsThunk(w, LOOP_INC);
    hide Builtins, Holds;
    var t := TableOf(w, LOOP_INC);
    LoopIncParts(w.mem, t);
    WidthFacts();
    OffsetIsCell(index, limit);
    var sum, x := (index + inc) % MODULUS, Offset(index, limit);
    var y := (x + inc) % MODULUS;
    var flag := Flag(Negative(x) != Negative(y));
    var c0 := Ctx(c.ds, c.rs + [a + 1, c.tr0], |c.rs| + 2);
    var c1 := c0.(rs := c0.rs + [sum]);
    SumGoes(w, t, c0, inc, index, limit);
    DifferenceGoes(w, t + 6, c1, inc, index, limit);
    GoesOn(w, t, OnDs(c0, [inc, index, limit]), t + 6, OnDs(c1, [inc, index, limit]), 9, t + 10, OnDs(c1, [inc, x]), 3);
    ShiftedGoes(w, t + 6, c1, inc, x);
    GoesOn(w, t, OnDs(c0, [inc, index, limit]), t + 10, OnDs(c1, [inc, x]), 12, t + 13, OnDs(c1, [x, y]), 3);
    FlagGoes(w, t + 13, c1, x, y);
    GoesOn(w, t, OnDs(c0, [inc, index, limit]), t + 13, OnDs(c1, [x, y]), 15, t + 19, OnDs(c1, [flag]), 8);
    RFromGoes(w, t + 19, OnDs(c0, [flag]), sum);
    var d := OnDs(c0, [flag, sum]);
    assert c0.ds + [flag] + [sum] == d.ds;
    GoesOn(w, t, OnDs(c0, [inc, index, limit]), t + 19, OnDs(c1, [flag]), 23, t + 20, d, 1);
    TableWord(w, LOOP_INC, a, OnDs(c, [inc, index, limit]), t + 20, d, 24, g);
  }

  lemma OffsetIsCell(index: int, limit: int)
    ensures 0 <= Offset(index, limit) < MODULUS
  {
    WidthFacts();
  }

  lemma LoopIncParts(mem: seq<int>, t: int)
    requires Holds(mem, t, Table(LOOP_INC))
    ensures Holds(mem, t, LOOP_INC_SUM) && Holds(mem, t + 6, LOOP_INC_OFFSETS) && Holds(mem, t + 13, LOOP_INC_FLAG)
    ensures 0 < t && t + 21 < |mem| && mem[t + 19] == Xt(R_FROM) && mem[t + 20] == Xt(EXIT)
  {
    hide Holds, Xt;
    assert Table(LOOP_INC) == LOOP_INC_SUM + LOOP_INC_OFFSETS + LOOP_INC_FLAG + LOOP_INC_END;
    HoldsSplit(mem, t, LOOP_INC_SUM + LOOP_INC_OFFSETS + LOOP_INC_FLAG, LOOP_INC_END);
    HoldsSplit(mem, t, LOOP_INC_SUM + LOOP_INC_OFFSETS, LOOP_INC_FLAG);
    HoldsSplit(mem, t, LOOP_INC_SUM, LOOP_INC_OFFSETS);
    HoldsCell(mem, t + 19, LOOP_INC_END, 0);
    HoldsCell(mem, t + 19, LOOP_INC_END, 1);
    HoldsCell(mem, t + 19, LOOP_INC_END, 2);
  }
}
