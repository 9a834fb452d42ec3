/** What each builtin word does to the stacks, in numbers: the standard's stack diagrams and arithmetic, and the
    errors of a stack that is too short or too full. */
module WordLaws {
  import opened Words
  import opened Machine
  import Correctness
  import LoopStep

  /** A task in a frame, with room to call a word. */
  predicate Ready(w: World, s: State) {
    0 <= s.tr0 <= |s.rs| < w.rcap
  }

  /** Called from state s with data stack before, the word returns to the next cell with data stack after, if
      the stack can hold both. */
  predicate Gives(w: World, b: Builtin, s: State, before: seq<int>, after: seq<int>, gas: nat) {
    0 < gas && |before| <= w.dcap && |after| <= w.dcap ==>
      Execute(w, true, Xt(b), s.(ds := before), gas) == Done(Beyond(s).(ds := after), gas - 1)
  }

  /** At the cell after the current one, if there is one. */
  function Beyond(s: State): State {
    s.(ip := if s.ip == 0 then 0 else s.ip + 1)
  }

  predicate Throws(w: World, b: Builtin, s: State, code: int, gas: nat) {
    0 < gas && Execute(w, true, Xt(b), s, gas) == Throw(code, s.ds)
  }

  /** A call of a word written in C. */
  lemma NativeCalled(w: World, b: Builtin, s: State, gas: nat)
    requires Builtins(w) && !HasTable(b) && b != EXECUTE && Ready(w, s) && 0 < gas
    ensures Execute(w, true, Xt(b), s, gas) ==
      var t := s.(rs := s.rs + [if s.ip != 0 then s.ip + 1 else 0]);
      match NativeStep(w, b, t)
      case Next(u) => Done(if s.ip == 0 then u.(ip := 0) else u, gas - 1)
      case Raise(code, ds) => Throw(code, ds)
      case Bad => Fault
  {
    hide NativeStep;
    assert Xt(b) in w.tokens && w.tokens[Xt(b)] == Native(b);
  }

  lemma DataCalled(w: World, b: Builtin, s: State, gas: nat)
    requires Builtins(w) && IsData(b) && Ready(w, s) && 0 < gas
    ensures Execute(w, true, Xt(b), s, gas) ==
      if |s.ds| < Pops(b) then Throw(E_STKUNDERFLOW, s.ds)
      else if w.dcap - |s.ds| < Room(b) then Throw(E_STKOVERFLOW, s.ds)
      else Done(Beyond(s).(ds := Effect(b, s.ds)), gas - 1)
  {
    hide Effect, Builtins, NativeStep, Execute, IsData, Pops, Room;
    DataStepped(w, b, s, if s.ip != 0 then s.ip + 1 else 0);
    NativeCalled(w, b, s, gas);
  }

  lemma DataStepped(w: World, b: Builtin, s: State, v: int)
    requires IsData(b) && 0 <= s.tr0 <= |s.rs|
    ensures !HasTable(b) && b != EXECUTE
    ensures NativeStep(w, b, s.(rs := s.rs + [v])) ==
      if |s.ds| < Pops(b) then Raise(E_STKUNDERFLOW, s.ds)
      else if w.dcap - |s.ds| < Room(b) then Raise(E_STKOVERFLOW, s.ds)
      else Next(s.(ip := v, ds := Effect(b, s.ds)))
  {
    hide Effect, FrameStep, InlineStep;
    assert (s.rs + [v])[..|s.rs|] == s.rs;
  }

  // ----- the data stack -----

  /** The stack words, whatever is below. */
  lemma StackWords(w: World, s: State, below: seq<int>, x: int, y: int, z: int, gas: nat)
    requires Builtins(w) && Ready(w, s) && 0 < gas
    ensures Gives(w, DROP, s, below + [x], below, gas)
    ensures Gives(w, SWAP, s, below + [x, y], below + [y, x], gas)
    ensures Gives(w, ROT, s, below + [x, y, z], below + [y, z, x], gas)
    ensures Gives(w, DUP, s, below + [x], below + [x, x], gas)
    ensures Gives(w, OVER, s, below + [x, y], below + [x, y, x], gas)
    ensures Gives(w, TUCK, s, below + [x, y], below + [y, x, y], gas)
    ensures Gives(w, DEPTH, s, below, below + [|below|], gas)
  {
    hide Builtins, Execute;
    OneCell(w, s, below, x, gas);
    TwoCells(w, s, below, x, y, gas);
    DataCalled(w, ROT, s.(ds := below + [x, y, z]), gas);
    assert Effect(ROT, below + [x, y, z]) == below + [y, z, x];
    DataCalled(w, DEPTH, s.(ds := below), gas);
  }

  lemma OneCell(w: World, s: State, below: seq<int>, x: int, gas: nat)
    requires Builtins(w) && Ready(w, s) && 0 < gas
    ensures Gives(w, DROP, s, below + [x], below, gas)
    ensures Gives(w, DUP, s, below + [x], below + [x, x], gas)
  {
    hide Builtins, Execute;
    DataCalled(w, DROP, s.(ds := below + [x]), gas);
    assert Effect(DROP, below + [x]) == below;
    DataCalled(w, DUP, s.(ds := below + [x]), gas);
    assert Effect(DUP, below + [x]) == below + [x, x];
  }

  lemma TwoCells(w: World, s: State, below: seq<int>, x: int, y: int, gas: nat)
    requires Builtins(w) && Ready(w, s) && 0 < gas
    ensures Gives(w, SWAP, s, below + [x, y], below + [y, x], gas)
    ensures Gives(w, OVER, s, below + [x, y], below + [x, y, x], gas)
    ensures Gives(w, TUCK, s, below + [x, y], below + [y, x, y], gas)
  {
    hide Builtins, Execute;
    DataCalled(w, SWAP, s.(ds := below + [x, y]), gas);
    assert Effect(SWAP, below + [x, y]) == below + [y, x];
    DataCalled(w, OVER, s.(ds := below + [x, y]), gas);
    assert Effect(OVER, below + [x, y]) == below + [x, y, x];
    DataCalled(w, TUCK, s.(ds := below + [x, y]), gas);
    assert Effect(TUCK, below + [x, y]) == below + [y, x, y];
  }

  const ONE_CELL: set<Builtin> := {DROP, DUP, INVERT, NEGATE}
  const TWO_CELLS: set<Builtin> :=
    {AND, EQUALS, LESS_THAN, LSHIFT, MINUS, OR, OVER, PLUS, RSHIFT, STAR, SWAP, TUCK, U_LESS_THAN, XOR}

  /** A stack without the operands is refused as it is, and so is one without room for the result. */
  lemma StackErrors(w: World, b: Builtin, s: State, gas: nat)
    requires Builtins(w) && Ready(w, s) && 0 < gas
    ensures b in ONE_CELL && |s.ds| < 1 ==> Throws(w, b, s, -4, gas)
    ensures b in TWO_CELLS && |s.ds| < 2 ==> Throws(w, b, s, -4, gas)
    ensures b == ROT && |s.ds| < 3 ==> Throws(w, b, s, -4, gas)
    ensures b == DEPTH && |s.ds| >= w.dcap ==> Throws(w, b, s, -3, gas)
    ensures b == DUP && 1 <= |s.ds| && |s.ds| >= w.dcap ==> Throws(w, b, s, -3, gas)
    ensures b in {OVER, TUCK} && 2 <= |s.ds| && |s.ds| >= w.dcap ==> Throws(w, b, s, -3, gas)
  {
    hide Builtins, Execute;
    if IsData(b) {
      DataCalled(w, b, s, gas);
    }
  }

  // ----- arithmetic -----

  /** The cell for a flag: all bits, or none. */
  function Truth(f: bool): int {
    if f then MODULUS - 1 else 0
  }

  /** Sums, differences and products are those of integers, reduced to a cell; comparisons are those of the
      integers that the cells stand for. */
  lemma Arithmetic(w: World, s: State, below: seq<int>, x: Usize, y: Usize, gas: nat)
    requires Builtins(w) && Ready(w, s) && 0 < gas
    ensures Gives(w, PLUS, s, below + [x, y], below + [(x + y) % MODULUS], gas)
    ensures Gives(w, MINUS, s, below + [x, y], below + [(x - y) % MODULUS], gas)
    ensures Gives(w, STAR, s, below + [x, y], below + [(x * y) % MODULUS], gas)
    ensures Gives(w, NEGATE, s, below + [x], below + [(0 - x) % MODULUS], gas)
    ensures Gives(w, INVERT, s, below + [x], below + [(-1 - x) % MODULUS], gas)
    ensures Gives(w, EQUALS, s, below + [x, y], below + [Truth(x == y)], gas)
    ensures Gives(w, U_LESS_THAN, s, below + [x, y], below + [Truth(x < y)], gas)
    ensures Gives(w, LESS_THAN, s, below + [x, y], below + [Truth(Signed(x) < Signed(y))], gas)
  {
    hide Builtins, Execute, Effect, Binary;
    BinaryGives(w, PLUS, s, below, x, y, gas);
    BinaryGives(w, MINUS, s, below, x, y, gas);
    BinaryGives(w, STAR, s, below, x, y, gas);
    BinaryGives(w, EQUALS, s, below, x, y, gas);
    BinaryGives(w, U_LESS_THAN, s, below, x, y, gas);
    BinaryGives(w, LESS_THAN, s, below, x, y, gas);
    Binaries(x, y);
    Unary(w, s, below, x, gas);
  }

  lemma BinaryGives(w: World, b: Builtin, s: State, below: seq<int>, x: int, y: int, gas: nat)
    requires Builtins(w) && Ready(w, s) && 0 < gas && IsBinary(b)
    ensures Gives(w, b, s, below + [x, y], below + [Binary(b, x, y)], gas)
  {
    hide Builtins, Execute, Binary;
    DataCalled(w, b, s.(ds := below + [x, y]), gas);
    assert Effect(b, below + [x, y]) == below + [Binary(b, x, y)];
  }

  lemma Binaries(x: Usize, y: Usize)
    ensures Binary(PLUS, x, y) == (x + y) % MODULUS && Binary(MINUS, x, y) == (x - y) % MODULUS
    ensures Binary(STAR, x, y) == (x * y) % MODULUS
    ensures Binary(EQUALS, x, y) == Truth(x == y) && Binary(U_LESS_THAN, x, y) == Truth(x < y)
    ensures Binary(LESS_THAN, x, y) == Truth(Signed(x) < Signed(y))
  {
    assert IsNegative(x) == Negative(x) && IsNegative(y) == Negative(y);
  }

  lemma Unary(w: World, s: State, below: seq<int>, x: Usize, gas: nat)
    requires Builtins(w) && Ready(w, s) && 0 < gas
    ensures Gives(w, NEGATE, s, below + [x], below + [(0 - x) % MODULUS], gas)
    ensures Gives(w, INVERT, s, below + [x], below + [(-1 - x) % MODULUS], gas)
  {
    hide Builtins, Execute;
    DataCalled(w, NEGATE, s.(ds := below + [x]), gas);
    SameResidue(MODULUS - x, 0 - x, 1, MODULUS);
    assert Effect(NEGATE, below + [x]) == below + [(0 - x) % MODULUS];
    DataCalled(w, INVERT, s.(ds := below + [x]), gas);
    ModIs(-1 - x, MODULUS, -1, MODULUS - 1 - x);
    assert Effect(INVERT, below + [x]) == below + [(-1 - x) % MODULUS];
  }

  // ----- bits -----

  predicate Bit(x: int, i: nat) {
    x / Pow2(i) % 2 == 1
  }

  lemma {:induction false} BitwiseBit(op: BitOp, a: int, b: int, n: nat, i: nat)
    requires 0 <= a < Pow2(n) && 0 <= b < Pow2(n) && i < n
    ensures Bit(Bitwise(op, a, b, n), i) <==> OnBits(op, Bit(a, i), Bit(b, i))
    decreases n
  {
    var p := Pow2(n - 1);
    var rest := Bitwise(op, a % p, b % p, n - 1);
    var top := OnBits(op, a >= p, b >= p);
    assert Bitwise(op, a, b, n) == (if top then p else 0) + rest;
    TopBit(a, n);
    TopBit(b, n);
    TopBit(Bitwise(op, a, b, n), n);
    if i < n - 1 {
      BitwiseBit(op, a % p, b % p, n - 1, i);
      LowBit(a, n, i);
      LowBit(b, n, i);
      LowBit(Bitwise(op, a, b, n), n, i);
    }
  }

  /** The top bit of n says whether the number reaches half the range. */
  lemma TopBit(a: int, n: nat)
    requires 0 < n && 0 <= a < Pow2(n)
    ensures Bit(a, n - 1) <==> a >= Pow2(n - 1)
    ensures a % Pow2(n - 1) == if a >= Pow2(n - 1) then a - Pow2(n - 1) else a
  {
    var p := Pow2(n - 1);
    ModIs(a, p, if a >= p then 1 else 0, if a >= p then a - p else a);
  }

  /** The others do not depend on it. */
  lemma LowBit(a: int, n: nat, i: nat)
    requires i < n - 1 && 0 <= a < Pow2(n)
    ensures Bit(a % Pow2(n - 1), i) <==> Bit(a, i)
  {
    var p, u := Pow2(n - 1), Pow2(i);
    TopBit(a, n);
    if a >= p {
      Pow2Sum(n - 2 - i, i);
      var k := Pow2(n - 2 - i);
      assert p == 2 * Pow2(n - 2) == 2 * (k * u);
      SkipMultiple(a - p, u, k);
    }
  }

  lemma SkipMultiple(x: int, u: int, k: int)
    requires 0 < u && 0 <= x
    ensures (x + 2 * (k * u)) / u % 2 == x / u % 2
  {
    var q, r := x / u, x % u;
    assert x == q * u + r;
    assert x + 2 * (k * u) == (q + 2 * k) * u + r;
    ModIs(x + 2 * (k * u), u, q + 2 * k, r);
    SameResidue(q + 2 * k, q, k, 2);
  }

  /** AND, OR and XOR bit by bit; shifts multiply and divide by powers of two. */
  lemma BitWords(w: World, s: State, below: seq<int>, x: Usize, y: Usize, i: nat, gas: nat)
    requires Builtins(w) && Ready(w, s) && 0 < gas && i < BITS
    ensures exists c: int ::
      Gives(w, AND, s, below + [x, y], below + [c], gas) && (Bit(c, i) <==> Bit(x, i) && Bit(y, i))
    ensures exists c: int ::
      Gives(w, OR, s, below + [x, y], below + [c], gas) && (Bit(c, i) <==> Bit(x, i) || Bit(y, i))
    ensures exists c: int ::
      Gives(w, XOR, s, below + [x, y], below + [c], gas) && (Bit(c, i) <==> Bit(x, i) != Bit(y, i))
    ensures Gives(w, LSHIFT, s, below + [x, y], below + [(x * Pow2(y)) % MODULUS], gas)
    ensures Gives(w, RSHIFT, s, below + [x, y], below + [x / Pow2(y)], gas)
  {
    hide Builtins, Execute, Effect, Bitwise, Gives, Bit;
    WidthFacts();
    BinaryGives(w, AND, s, below, x, y, gas);
    BinaryGives(w, OR, s, below, x, y, gas);
    BinaryGives(w, XOR, s, below, x, y, gas);
    BinaryGives(w, LSHIFT, s, below, x, y, gas);
    BinaryGives(w, RSHIFT, s, below, x, y, gas);
    BitwiseBit(BitAnd, x, y, BITS, i);
    BitwiseBit(BitOr, x, y, BITS, i);
    BitwiseBit(BitXor, x, y, BITS, i);
    assert Bit(Bitwise(BitAnd, x, y, BITS), i) <==> Bit(x, i) && Bit(y, i);
    assert Bit(Bitwise(BitOr, x, y, BITS), i) <==> Bit(x, i) || Bit(y, i);
    assert Bit(Bitwise(BitXor, x, y, BITS), i) <==> Bit(x, i) != Bit(y, i);
  }

  // ----- the return stack -----

  /** Called with these stacks, the word returns with those, given two cells of return stack beside its own
      return address. */
  predicate Moves(w: World, b: Builtin, s: State, ds: seq<int>, rs: seq<int>, ds': seq<int>, rs': seq<int>, gas: nat) {
    0 < gas && |rs| + 3 <= w.rcap && |ds| <= w.dcap && |ds'| <= w.dcap ==>
      Execute(w, true, Xt(b), s.(ds := ds, rs := rs), gas) == Done(Beyond(s).(ds := ds', rs := rs'), gas - 1)
  }

  /** >R 2>R and what undoes or copies them, in a frame that ends with the cells in question; the pairs keep
      their order. */
  lemma ReturnStackWords(w: World, s: State, d: seq<int>, r: seq<int>, x: int, y: int, gas: nat)
    requires Builtins(w) && 0 <= s.tr0 <= |r|
    ensures Moves(w, TO_R, s, d + [x], r, d, r + [x], gas)
    ensures Moves(w, R_FROM, s, d, r + [x], d + [x], r, gas)
    ensures Moves(w, R_FETCH, s, d, r + [x], d + [x], r + [x], gas)
    ensures Moves(w, TWO_TO_R, s, d + [x, y], r, d, r + [x, y], gas)
    ensures Moves(w, TWO_R_FROM, s, d, r + [x, y], d + [x, y], r, gas)
    ensures Moves(w, TWO_R_FETCH, s, d, r + [x, y], d + [x, y], r + [x, y], gas)
  {
    hide Builtins, Execute, Moves;
    OneMoves(w, s, d, r, x, gas);
    TwoMoves(w, s, d, r, x, y, gas);
  }

  lemma OneMoves(w: World, s: State, d: seq<int>, r: seq<int>, x: int, gas: nat)
    requires Builtins(w) && 0 <= s.tr0 <= |r|
    ensures Moves(w, TO_R, s, d + [x], r, d, r + [x], gas)
    ensures Moves(w, R_FROM, s, d, r + [x], d + [x], r, gas)
    ensures Moves(w, R_FETCH, s, d, r + [x], d + [x], r + [x], gas)
  {
    hide Builtins, Execute, FrameStep;
    var v := if s.ip != 0 then s.ip + 1 else 0;
    FrameCalled(w, TO_R, s.(ds := d + [x], rs := r), gas);
    FrameCalled(w, R_FROM, s.(ds := d, rs := r + [x]), gas);
    FrameCalled(w, R_FETCH, s.(ds := d, rs := r + [x]), gas);
    OneMovesStep(w, s, d, r, x, v);
  }

  /** A call of a return-stack word. */
  lemma FrameCalled(w: World, b: Builtin, s: State, gas: nat)
    requires Builtins(w) && IsFrameWord(b) && 0 <= s.tr0 <= |s.rs|
    ensures 0 < gas && |s.rs| < w.rcap ==>
      Execute(w, true, Xt(b), s, gas) ==
      match FrameStep(w, b, s.(rs := s.rs + [if s.ip != 0 then s.ip + 1 else 0]))
      case Next(u) => Done(if s.ip == 0 then u.(ip := 0) else u, gas - 1)
      case Raise(code, ds) => Throw(code, ds)
      case Bad => Fault
  {
    hide FrameStep, Execute, NativeStep, Builtins;
    if 0 < gas && |s.rs| < w.rcap {
      NativeCalled(w, b, s, gas);
      LoopStep.FrameIsNative(w, b, s.(rs := s.rs + [if s.ip != 0 then s.ip + 1 else 0]));
    }
  }

  lemma OneMovesStep(w: World, s: State, d: seq<int>, r: seq<int>, x: int, v: int)
    requires 0 <= s.tr0 <= |r|
    ensures |r| + 2 <= w.rcap && |d| < w.dcap ==>
      FrameStep(w, TO_R, s.(ds := d + [x], rs := r + [v])) == Next(s.(ip := v, ds := d, rs := r + [x]))
    ensures |r| + 3 <= w.rcap && |d| < w.dcap ==>
      && FrameStep(w, R_FROM, s.(ds := d, rs := r + [x] + [v])) == Next(s.(ip := v, ds := d + [x], rs := r))
      && FrameStep(w, R_FETCH, s.(ds := d, rs := r + [x] + [v])) == Next(s.(ip := v, ds := d + [x], rs := r + [x]))
  {
    assert (r + [v])[..|r|] == r && (d + [x])[..|d|] == d;
    var q := r + [x] + [v];
    assert q[..|q| - 1] == r + [x] && (r + [x])[..|r|] == r;
  }

  lemma TwoMoves(w: World, s: State, d: seq<int>, r: seq<int>, x: int, y: int, gas: nat)
    requires Builtins(w) && 0 <= s.tr0 <= |r|
    ensures Moves(w, TWO_TO_R, s, d + [x, y], r, d, r + [x, y], gas)
    ensures Moves(w, TWO_R_FROM, s, d, r + [x, y], d + [x, y], r, gas)
    ensures Moves(w, TWO_R_FETCH, s, d, r + [x, y], d + [x, y], r + [x, y], gas)
  {
    hide Builtins, Execute, FrameStep;
    var v := if s.ip != 0 then s.ip + 1 else 0;
    FrameCalled(w, TWO_TO_R, s.(ds := d + [x, y], rs := r), gas);
    FrameCalled(w, TWO_R_FROM, s.(ds := d, rs := r + [x, y]), gas);
    FrameCalled(w, TWO_R_FETCH, s.(ds := d, rs := r + [x, y]), gas);
    TwoMovesStep(w, s, d, r, x, y, v);
  }

  lemma TwoMovesStep(w: World, s: State, d: seq<int>, r: seq<int>, x: int, y: int, v: int)
    requires 0 <= s.tr0 <= |r|
    ensures |r| + 3 <= w.rcap && |d| + 2 <= w.dcap ==>
      FrameStep(w, TWO_TO_R, s.(ds := d + [x, y], rs := r + [v])) == Next(s.(ip := v, ds := d, rs := r + [x, y]))
    ensures |r| + 3 <= w.rcap && |d| + 2 <= w.dcap ==>
      && FrameStep(w, TWO_R_FROM, s.(ds := d, rs := r + [x, y] + [v])) == Next(s.(ip := v, ds := d + [x, y], rs := r))
      && FrameStep(w, TWO_R_FETCH, s.(ds := d, rs := r + [x, y] + [v])) ==
           Next(s.(ip := v, ds := d + [x, y], rs := r + [x, y]))
  {
    hide FrameStep;
    TwoToRStep(w, s, d, r, x, y, v);
    TwoRFromStep(w, s, d, r, x, y, v);
    TwoRFetchStep(w, s, d, r, x, y, v);
  }

  lemma TwoToRStep(w: World, s: State, d: seq<int>, r: seq<int>, x: int, y: int, v: int)
    ensures 0 <= s.tr0 <= |r| && |r| + 3 <= w.rcap && |d| + 2 <= w.dcap ==>
      FrameStep(w, TWO_TO_R, s.(ds := d + [x, y], rs := r + [v])) == Next(s.(ip := v, ds := d, rs := r + [x, y]))
  {
    assert (r + [v])[..|r|] == r && (d + [x, y])[..|d|] == d;
  }

  lemma TwoRFromStep(w: World, s: State, d: seq<int>, r: seq<int>, x: int, y: int, v: int)
    ensures 0 <= s.tr0 <= |r| && |r| + 3 <= w.rcap && |d| + 2 <= w.dcap ==>
      FrameStep(w, TWO_R_FROM, s.(ds := d, rs := r + [x, y] + [v])) == Next(s.(ip := v, ds := d + [x, y], rs := r))
  {
    var q := r + [x, y] + [v];
    assert q[..|q| - 1] == r + [x, y] && (r + [x, y])[..|r|] == r;
  }

  lemma TwoRFetchStep(w: World, s: State, d: seq<int>, r: seq<int>, x: int, y: int, v: int)
    ensures 0 <= s.tr0 <= |r| && |r| + 3 <= w.rcap && |d| + 2 <= w.dcap ==>
      FrameStep(w, TWO_R_FETCH, s.(ds := d, rs := r + [x, y] + [v])) ==
        Next(s.(ip := v, ds := d + [x, y], rs := r + [x, y]))
  {
    var q := r + [x, y] + [v];
    assert q[..|q| - 1] == r + [x, y];
  }

  /** J is the index of the outer of two loops, and UNLOOP forgets the inner one. */
  lemma LoopWords(w: World, s: State, d: seq<int>, r: seq<int>, limit: int, index: int, limit2: int, index2: int,
                  gas: nat)
    requires Builtins(w) && 0 <= s.tr0 <= |r|
    ensures var loops := r + [limit, index, limit2, index2];
      && Moves(w, J, s, d, loops, d + [index], loops, gas)
      && Moves(w, UNLOOP, s, d, loops, d, r + [limit, index], gas)
  {
    hide Builtins, Execute, FrameStep;
    var v := if s.ip != 0 then s.ip + 1 else 0;
    var loops := r + [limit, index, limit2, index2];
    FrameCalled(w, J, s.(ds := d, rs := loops), gas);
    FrameCalled(w, UNLOOP, s.(ds := d, rs := loops), gas);
    LoopStepped(w, s, d, r, limit, index, limit2, index2, v);
  }

  lemma LoopStepped(w: World, s: State, d: seq<int>, r: seq<int>, limit: int, index: int, limit2: int, index2: int,
                    v: int)
    requires 0 <= s.tr0 <= |r|
    ensures var loops := r + [limit, index, limit2, index2];
      |loops| + 1 <= w.rcap ==>
      && (|d| < w.dcap ==>
            FrameStep(w, J, s.(ds := d, rs := loops + [v])) == Next(s.(ip := v, ds := d + [index], rs := loops)))
      && (|d| <= w.dcap ==>
            FrameStep(w, UNLOOP, s.(ds := d, rs := loops + [v])) ==
              Next(s.(ip := v, ds := d, rs := r + [limit, index])))
  {
    var loops := r + [limit, index, limit2, index2];
    assert (loops + [v])[..|loops|] == loops && loops[..|r| + 2] == r + [limit, index];
  }

  /** A frame without the cells is refused, and so is a stack without the operands or the room. */
  lemma ReturnStackErrors(w: World, b: Builtin, s: State, gas: nat)
    requires Builtins(w) && Ready(w, s) && 0 < gas && IsFrameWord(b)
    ensures b == TO_R && |s.ds| < 1 ==> Throws(w, b, s, -4, gas)
    ensures b == TWO_TO_R && |s.ds| < 2 ==> Throws(w, b, s, -4, gas)
    ensures b == TO_R && 1 <= |s.ds| && w.rcap - |s.rs| < 2 ==> Throws(w, b, s, -5, gas)
    ensures b == TWO_TO_R && 2 <= |s.ds| && w.rcap - |s.rs| < 3 ==> Throws(w, b, s, -5, gas)
    ensures b in {R_FROM, R_FETCH} && |s.rs| - s.tr0 < 1 ==> Throws(w, b, s, -6, gas)
    ensures b in {TWO_R_FROM, TWO_R_FETCH, UNLOOP} && |s.rs| - s.tr0 < 2 ==> Throws(w, b, s, -6, gas)
    ensures b == J && |s.rs| - s.tr0 < 4 ==> Throws(w, b, s, -6, gas)
    ensures b in {R_FROM, R_FETCH} && |s.rs| - s.tr0 >= 1 && |s.ds| >= w.dcap ==> Throws(w, b, s, -3, gas)
    ensures b in {TWO_R_FROM, TWO_R_FETCH} && |s.rs| - s.tr0 >= 2 && |s.ds| + 1 >= w.dcap ==>
      Throws(w, b, s, -3, gas)
    ensures b == J && |s.rs| - s.tr0 >= 4 && |s.ds| >= w.dcap ==> Throws(w, b, s, -3, gas)
  {
    hide Builtins, Execute, FrameStep;
    FrameCalled(w, b, s, gas);
    FrameErrors(w, b, s.(rs := s.rs + [if s.ip != 0 then s.ip + 1 else 0]));
  }

  lemma FrameErrors(w: World, b: Builtin, s: State)
    requires IsFrameWord(b)
    ensures var st, r, d := FrameStep(w, b, s), |s.rs| - 1 - s.tr0, |s.ds|;
      && (b == TO_R && d < 1 ==> st == Raise(-4, s.ds))
      && (b == TWO_TO_R && d < 2 ==> st == Raise(-4, s.ds))
      && (b == TO_R && 1 <= d && w.rcap - |s.rs| < 1 ==> st == Raise(-5, s.ds))
      && (b == TWO_TO_R && 2 <= d && w.rcap - |s.rs| < 2 ==> st == Raise(-5, s.ds))
      && (|s.rs| <= w.rcap ==>
           && (b in {R_FROM, R_FETCH} && r < 1 ==> st == Raise(-6, s.ds))
           && (b in {TWO_R_FROM, TWO_R_FETCH, UNLOOP} && r < 2 ==> st == Raise(-6, s.ds))
           && (b == J && r < 4 ==> st == Raise(-6, s.ds))
           && (b in {R_FROM, R_FETCH} && r >= 1 && d >= w.dcap ==> st == Raise(-3, s.ds))
           && (b in {TWO_R_FROM, TWO_R_FETCH} && r >= 2 && d + 1 >= w.dcap ==> st == Raise(-3, s.ds))
           && (b == J && r >= 4 && d >= w.dcap ==> st == Raise(-3, s.ds)))
  {
  }

  // ----- words that read their thread -----

  /** The next cell of the thread of s holds n. */
  predicate Inlined(w: World, s: State, n: int) {
    Readable(w, s.ip) && Readable(w, s.ip + 1) && w.mem[s.ip + 1] == n
  }

  /** BRANCH adds the displacement to the address of the cell that holds it; BRANCH0 does so on zero and goes
      on behind it otherwise; a literal is pushed and skipped. */
  lemma InlineWords(w: World, s: State, d: seq<int>, n: int, x: int, gas: nat)
    requires Builtins(w) && Ready(w, s) && 0 < gas && Inlined(w, s, n)
    ensures Execute(w, true, Xt(BRANCH), s, gas) == Done(s.(ip := (s.ip + 1 + n) % MODULUS), gas - 1)
    ensures Execute(w, true, Xt(BRANCH0), s.(ds := d + [x]), gas) ==
      Done(s.(ip := if x == 0 then (s.ip + 1 + n) % MODULUS else s.ip + 2, ds := d), gas - 1)
    ensures |s.ds| < w.dcap ==>
      Execute(w, true, Xt(LIT_CELL), s, gas) == Done(s.(ip := s.ip + 2, ds := s.ds + [n]), gas - 1)
    ensures |s.ds| >= w.dcap ==> Throws(w, LIT_CELL, s, -3, gas)
    ensures |s.ds| < 1 ==> Throws(w, BRANCH0, s, -4, gas)
  {
    hide Builtins, Execute, InlineStep;
    InlineCalled(w, BRANCH, s, gas);
    InlineCalled(w, BRANCH0, s.(ds := d + [x]), gas);
    InlineCalled(w, BRANCH0, s, gas);
    InlineCalled(w, LIT_CELL, s, gas);
    InlineStepped(w, s, d, n, x);
  }

  lemma InlineCalled(w: World, b: Builtin, s: State, gas: nat)
    requires Builtins(w) && IsInline(b) && Ready(w, s) && 0 < gas && s.ip > 0
    ensures Execute(w, true, Xt(b), s, gas) ==
      match InlineStep(w, b, s.(rs := s.rs + [s.ip + 1]))
      case Next(u) => Done(u, gas - 1)
      case Raise(code, ds) => Throw(code, ds)
      case Bad => Fault
  {
    hide InlineStep, Execute, NativeStep, Builtins;
    NativeCalled(w, b, s, gas);
    Correctness.InlineIsNative(w, b, s.(rs := s.rs + [s.ip + 1]));
  }

  lemma InlineStepped(w: World, s: State, d: seq<int>, n: int, x: int)
    requires 0 <= s.tr0 <= |s.rs| && Inlined(w, s, n)
    ensures var rs := s.rs + [s.ip + 1];
      && InlineStep(w, BRANCH, s.(rs := rs)) == Next(s.(ip := (s.ip + 1 + n) % MODULUS))
      && InlineStep(w, BRANCH0, s.(ds := d + [x], rs := rs)) ==
           Next(s.(ip := if x == 0 then (s.ip + 1 + n) % MODULUS else s.ip + 2, ds := d))
      && (s.ds == [] ==> InlineStep(w, BRANCH0, s.(rs := rs)) == Raise(E_STKUNDERFLOW, s.ds))
      && InlineStep(w, LIT_CELL, s.(rs := rs)) ==
           if w.dcap - |s.ds| < 1 then Raise(E_STKOVERFLOW, s.ds) else Next(s.(ip := s.ip + 2, ds := s.ds + [n]))
  {
    hide StringCells;
    assert (s.rs + [s.ip + 1])[..|s.rs|] == s.rs && (d + [x])[..|d|] == d;
  }

  /** A string of n bytes is skipped with the fewest cells that hold it. */
  lemma StringWord(w: World, s: State, n: nat, gas: nat)
    requires Builtins(w) && Ready(w, s) && 0 < gas && Inlined(w, s, n) && |s.ds| + 2 <= w.dcap
    ensures var k := StringCells(n);
      && (k - 1) * (BITS / 8) < n <= k * (BITS / 8)
      && Execute(w, true, Xt(LIT_STR), s, gas) == Done(s.(ip := s.ip + 2 + k, ds := s.ds + [s.ip + 2, n]), gas - 1)
  {
    hide Builtins, Execute, InlineStep, StringCells;
    InlineCalled(w, LIT_STR, s, gas);
    StringStepped(w, s, n);
    StringCellsIs(n);
  }

  lemma StringStepped(w: World, s: State, n: nat)
    requires 0 <= s.tr0 <= |s.rs| && Inlined(w, s, n) && |s.ds| + 2 <= w.dcap
    ensures InlineStep(w, LIT_STR, s.(rs := s.rs + [s.ip + 1])) ==
      Next(s.(ip := s.ip + 2 + StringCells(n), ds := s.ds + [s.ip + 2, n]))
  {
    hide StringCells;
    assert (s.rs + [s.ip + 1])[..|s.rs|] == s.rs;
  }

  lemma StringCellsIs(n: nat)
    ensures var k := StringCells(n); (k - 1) * (BITS / 8) < n <= k * (BITS / 8)
  {
    CellHasBytes();
    FewestCells(n, BITS / 8);
  }

  lemma CellHasBytes()
    ensures 1 <= BITS / 8
  {
    HalfFacts();
  }

  lemma FewestCells(n: nat, c: int)
    requires 0 < c
    ensures var k := n / c + if n % c != 0 then 1 else 0;
      0 <= k && (k - 1) * c < n <= k * c
  {
    var q, r := n / c, n % c;
    assert n == q * c + r;
    assert (q + 1) * c == q * c + c && (q - 1) * c == q * c - c;
  }

  // ----- tokens -----

  /** Constants, variables, deferred words and EXECUTE. */
  lemma Tokens(w: World, xt: int, s: State, v: int, gas: nat)
    requires Ready(w, s) && 0 < gas && |s.ds| < w.dcap && xt in w.tokens
    ensures w.tokens[xt] == Constant(v) ==> Execute(w, true, xt, s, gas) == Done(Beyond(s).(ds := s.ds + [v]), gas - 1)
    ensures w.tokens[xt] == Variable ==>
      Execute(w, true, xt, s, gas) == Done(Beyond(s).(ds := s.ds + [xt + 2]), gas - 1)
  {
    var r := s.rs + [if s.ip != 0 then s.ip + 1 else 0];
    assert r[..|s.rs|] == s.rs;
  }

  /** EXECUTE runs the token on the stack, a deferred word the one it is set to. */
  lemma Indirect(w: World, xt: int, t: int, s: State, v: int, gas: nat)
    requires Builtins(w) && Ready(w, s) && |s.rs| + 2 <= w.rcap && 1 < gas && |s.ds| < w.dcap
    requires t in w.tokens && w.tokens[t] == Constant(v)
    ensures Execute(w, true, Xt(EXECUTE), s.(ds := s.ds + [t]), gas) == Done(Beyond(s).(ds := s.ds + [v]), gas - 2)
    ensures xt in w.tokens && w.tokens[xt] == Defer(t) ==>
      Execute(w, true, xt, s, gas) == Done(Beyond(s).(ds := s.ds + [v]), gas - 2)
  {
    ExecuteRuns(w, t, s, v, gas);
    DeferRuns(w, xt, t, s, v, gas);
  }

  lemma CallIs(w: World, xt: int, s: State, gas: nat)
    requires Ready(w, s) && 0 < gas
    ensures Execute(w, true, xt, s, gas) ==
      var r := RunCode(w, true, xt, s.(rs := s.rs + [if s.ip != 0 then s.ip + 1 else 0]), gas - 1);
      if r.Done? && s.ip == 0 then r.(s := r.s.(ip := 0)) else r
  {
    hide RunCode;
  }

  /** Back from the word that a word has called. */
  lemma ComesBack(s: State, v: int, gas: nat)
    requires 0 <= s.tr0 <= |s.rs|
    ensures var a := if s.ip != 0 then s.ip + 1 else 0;
      var u := s.(rs := s.rs + [a]);
      Return(Done(Beyond(u).(ds := s.ds + [v]), gas)) == Done(s.(ip := a, ds := s.ds + [v]), gas)
  {
    var a := if s.ip != 0 then s.ip + 1 else 0;
    assert (s.rs + [a])[..|s.rs|] == s.rs;
  }

  lemma CodeOfExecute(w: World, t: int, u: State, gas: nat)
    requires Builtins(w)
    ensures RunCode(w, true, Xt(EXECUTE), u.(ds := u.ds + [t]), gas) == Return(Execute(w, true, t, u, gas))
  {
    hide Execute, Return, NativeStep, EnterThread;
    assert Xt(EXECUTE) in w.tokens && w.tokens[Xt(EXECUTE)] == Native(EXECUTE);
    assert (u.ds + [t])[..|u.ds|] == u.ds;
  }

  lemma ExecuteRuns(w: World, t: int, s: State, v: int, gas: nat)
    requires Builtins(w) && Ready(w, s) && |s.rs| + 2 <= w.rcap && 1 < gas && |s.ds| < w.dcap
    requires t in w.tokens && w.tokens[t] == Constant(v)
    ensures Execute(w, true, Xt(EXECUTE), s.(ds := s.ds + [t]), gas) == Done(Beyond(s).(ds := s.ds + [v]), gas - 2)
  {
    hide Execute, Builtins, Return, Beyond, RunCode;
    var u := s.(rs := s.rs + [if s.ip != 0 then s.ip + 1 else 0]);
    CallIs(w, Xt(EXECUTE), s.(ds := s.ds + [t]), gas);
    CodeOfExecute(w, t, u, gas - 1);
    Tokens(w, t, u, v, gas - 1);
    ComesBack(s, v, gas - 2);
    BeyondIs(s, v);
  }

  lemma DeferRuns(w: World, xt: int, t: int, s: State, v: int, gas: nat)
    requires Ready(w, s) && |s.rs| + 2 <= w.rcap && 1 < gas && |s.ds| < w.dcap
    requires t in w.tokens && w.tokens[t] == Constant(v)
    ensures xt in w.tokens && w.tokens[xt] == Defer(t) ==>
      Execute(w, true, xt, s, gas) == Done(Beyond(s).(ds := s.ds + [v]), gas - 2)
  {
    hide Execute, Return, Beyond, NativeStep, EnterThread;
    var u := s.(rs := s.rs + [if s.ip != 0 then s.ip + 1 else 0]);
    CallIs(w, xt, s, gas);
    Tokens(w, t, u, v, gas - 1);
    ComesBack(s, v, gas - 2);
    BeyondIs(s, v);
  }

  lemma BeyondIs(s: State, v: int)
    ensures Beyond(s).(ds := s.ds + [v]) == s.(ip := if s.ip != 0 then s.ip + 1 else 0, ds := s.ds + [v])
  {
  }

  /** A word made by CREATE and DOES> pushes its data address and runs the part behind DOES>, a colon word its
      thread: here one that ends at once. */
  lemma Threads(w: World, xt: int, s: State, gas: nat)
    requires Builtins(w) && Ready(w, s) && |s.rs| + 2 <= w.rcap && 1 < gas && |s.ds| < w.dcap && xt in w.tokens
    ensures w.tokens[xt].Does? && Holds(w.mem, w.tokens[xt].body, [Xt(EXIT)]) ==>
      Execute(w, true, xt, s, gas) == Done(Beyond(s).(ds := s.ds + [xt + 2]), gas - 2)
    ensures w.tokens[xt].Threaded? && Holds(w.mem, xt + 2, [Xt(EXIT)]) ==>
      Execute(w, true, xt, s, gas) == Done(Beyond(s), gas - 2)
  {
    hide EnterThread, Execute, Builtins;
    var u := s.(rs := s.rs + [if s.ip != 0 then s.ip + 1 else 0]);
    CallIs(w, xt, s, gas);
    if w.tokens[xt].Does? && Holds(w.mem, w.tokens[xt].body, [Xt(EXIT)]) {
      EndsAtOnce(w, w.tokens[xt].body, u.(ds := s.ds + [xt + 2]), gas - 1);
    }
    if w.tokens[xt].Threaded? && Holds(w.mem, xt + 2, [Xt(EXIT)]) {
      EndsAtOnce(w, xt + 2, u, gas - 1);
    }
    assert u.rs[..|s.rs|] == s.rs;
  }

  lemma EndsAtOnce(w: World, a: int, s: State, gas: nat)
    requires Builtins(w) && 0 <= s.tr0 < |s.rs| < w.rcap && 0 < gas && Holds(w.mem, a, [Xt(EXIT)])
    ensures var n := |s.rs| - 1;
      EnterThread(w, true, a, s, gas) == Done(s.(ip := s.rs[n], rs := s.rs[..n]), gas - 1)
  {
    var t := State(a, s.ds, s.rs + [s.tr0], |s.rs| + 1);
    assert w.mem[a..a + 1][0] == Xt(EXIT);
    assert w.mem[a] == Xt(EXIT) && w.tokens[Xt(EXIT)] == Native(EXIT);
    assert Loop(w, true, 1, t, gas) == Done(t, gas - 1);
    assert (s.rs + [s.tr0])[..|s.rs|] == s.rs;
  }

  /** THROW throws the signed number on the stack, and goes on when it is zero. */
  lemma ThrowWord(w: World, s: State, d: seq<int>, x: Usize, gas: nat)
    requires Builtins(w) && Ready(w, s) && 0 < gas
    ensures Execute(w, true, Xt(THROW), s.(ds := d + [x]), gas) ==
      if x == 0 then Done(Beyond(s).(ds := d), gas - 1) else Throw(Signed(x), d)
    ensures s.ds == [] ==> Throws(w, THROW, s, -4, gas)
  {
    hide Builtins, Execute, NativeStep;
    NativeCalled(w, THROW, s.(ds := d + [x]), gas);
    NativeCalled(w, THROW, s, gas);
    ThrowStepped(w, s, d, x, if s.ip != 0 then s.ip + 1 else 0);
  }

  lemma ThrowStepped(w: World, s: State, d: seq<int>, x: Usize, v: int)
    requires 0 <= s.tr0 <= |s.rs|
    ensures NativeStep(w, THROW, s.(ds := d + [x], rs := s.rs + [v])) ==
      if x == 0 then Next(s.(ip := v, ds := d)) else Raise(Signed(x), d)
    ensures s.ds == [] ==> NativeStep(w, THROW, s.(rs := s.rs + [v])) == Raise(E_STKUNDERFLOW, s.ds)
  {
    hide DataStep, FrameStep, InlineStep;
    assert (s.rs + [v])[..|s.rs|] == s.rs && (d + [x])[..|d|] == d;
    assert IsNegative(x) == Negative(x);
  }

  /** A thread that leaves a cell on its frame is refused, and so is any call without room for its return
      address. */
  lemma FrameErrorsThrow(w: World, xt: int, s: State, d: seq<int>, x: int, gas: nat)
    requires Builtins(w) && 0 <= s.tr0 <= |s.rs| && 3 <= gas && xt in w.tokens && |d| < w.dcap
    ensures |s.rs| >= w.rcap ==> Execute(w, true, xt, s, gas) == Throw(-5, s.ds)
    ensures |s.rs| + 1 == w.rcap && w.tokens[xt].Threaded? ==> Execute(w, true, xt, s, gas) == Throw(-5, s.ds)
    ensures |s.rs| + 5 <= w.rcap && w.tokens[xt].Threaded? && Holds(w.mem, xt + 2, [Xt(TO_R), Xt(EXIT)]) ==>
      Execute(w, true, xt, s.(ds := d + [x]), gas) == Throw(-25, d)
  {
    hide Builtins, EnterThread;
    if |s.rs| < w.rcap {
      CallIs(w, xt, s, gas);
      CallIs(w, xt, s.(ds := d + [x]), gas);
    }
    if |s.rs| + 1 == w.rcap && w.tokens[xt].Threaded? {
      NoRoom(w, xt + 2, s.(rs := s.rs + [if s.ip != 0 then s.ip + 1 else 0]), gas - 1);
    }
    if |s.rs| + 5 <= w.rcap && w.tokens[xt].Threaded? && Holds(w.mem, xt + 2, [Xt(TO_R), Xt(EXIT)]) {
      var u := s.(rs := s.rs + [if s.ip != 0 then s.ip + 1 else 0]);
      LeavesACell(w, xt + 2, u, d, x, gas - 1);
    }
  }

  lemma NoRoom(w: World, a: int, s: State, gas: nat)
    requires |s.rs| >= w.rcap
    ensures EnterThread(w, true, a, s, gas) == Throw(-5, s.ds)
  {
  }

  lemma LeavesACell(w: World, a: int, s: State, d: seq<int>, x: int, gas: nat)
    requires Builtins(w) && 0 <= s.tr0 < |s.rs| && |s.rs| + 4 <= w.rcap && 2 <= gas && |d| < w.dcap
    requires Holds(w.mem, a, [Xt(TO_R), Xt(EXIT)])
    ensures EnterThread(w, true, a, s.(ds := d + [x]), gas) == Throw(-25, d)
  {
    var r := s.rs + [s.tr0];
    var t := State(a, d + [x], r, |s.rs| + 1);
    assert w.mem[a..a + 2][0] == Xt(TO_R) && w.mem[a..a + 2][1] == Xt(EXIT);
    assert w.mem[a] == Xt(TO_R) && w.mem[a + 1] == Xt(EXIT);
    OneMoves(w, t, d, r, x, gas);
    var u := State(a + 1, d, r + [x], |s.rs| + 1);
    hide Execute;
    assert Xt(TO_R) in w.tokens && w.tokens[Xt(TO_R)] == Native(TO_R);
    assert Xt(EXIT) in w.tokens && w.tokens[Xt(EXIT)] == Native(EXIT);
    hide Builtins;
    assert Xt(TO_R) != Xt(EXIT);
    assert Loop(w, true, 1, u, gas - 1) == Done(u, gas - 2);
    assert Loop(w, true, 1, t, gas) == Loop(w, true, 1, u, gas - 1);
  }
}
