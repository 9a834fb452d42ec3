/** The threaded-code machine of e4: builtin words, execute tokens and the inner interpreter.

    Stacks are sequences whose last element is the top, so a pointer into the return stack is a
    height, tr0 is the height at which the running thread began, and saved heights are ordinary
    return-stack cells.  Exceptions are enabled throughout: throwing is an outcome.

    A program may run forever, so a run is given gas.  One unit pays for one call of e4__execute,
    one inlined call of a colon word or one EXIT; Spent holds the state in which the gas ran out.
    What holds of Spent for every amount of gas holds of every state that a run passes through. */
module Machine {
  import opened Words

  const E_STKOVERFLOW := -3
  const E_STKUNDERFLOW := -4
  const E_RSTKOVERFLOW := -5
  const E_RSTKUNDERFLOW := -6
  const E_RSTKIMBALANCE := -25
  const E_BUG := -258

  datatype Builtin =
    | AND | DEPTH | DROP | DUP | EQUALS | EXECUTE | EXIT | INVERT | J | LESS_THAN | LSHIFT | MINUS
    | NEGATE | OR | OVER | PLUS | R_FETCH | R_FROM | ROT | RSHIFT | STAR | SWAP | TO_R | TWO_DUP
    | U_LESS_THAN | UNLOOP | XOR | ZERO_EQUALS | BRANCH | BRANCH0 | LIT_CELL | LIT_STR | LOOP_INC
    | SENTINEL | TUCK | TWO_R_FETCH | TWO_R_FROM | TWO_TO_R | THROW

  /** Address of e4__BUILTIN_XT, whose entries are two cells wide. */
  type Address = a: nat | 0 < a witness 1
  const BUILTIN_XT: Address

  function Id(b: Builtin): nat {
    match b
    case AND => 7 case DEPTH => 28 case DROP => 33 case DUP => 34 case EQUALS => 38
    case EXECUTE => 40 case EXIT => 41 case INVERT => 52 case J => 53 case LESS_THAN => 58
    case LSHIFT => 61 case MINUS => 65 case NEGATE => 68 case OR => 74 case OVER => 75
    case PLUS => 77 case R_FETCH => 83 case R_FROM => 84 case ROT => 88 case RSHIFT => 89
    case STAR => 100 case SWAP => 105 case TO_R => 111 case TWO_DUP => 113
    case U_LESS_THAN => 122 case UNLOOP => 125 case XOR => 130 case ZERO_EQUALS => 131
    case BRANCH => 134 case BRANCH0 => 135 case LIT_CELL => 137 case LIT_STR => 140
    case LOOP_INC => 141 case SENTINEL => 143 case TUCK => 173 case TWO_R_FETCH => 174
    case TWO_R_FROM => 175 case TWO_TO_R => 176 case THROW => 183
  }

  function Xt(b: Builtin): int {
    BUILTIN_XT + 2 * Id(b)
  }

  /** What the code field of an execute token points to, with the user field where it matters.  A
      colon word (Threaded) keeps its thread two cells after the token. */
  datatype Token =
    | Native(b: Builtin)
    | Threaded
    | Thunk(table: int)
    | Does(body: int)
    | Defer(target: int)
    | Constant(v: int)
    | Variable

  /** Execute tokens, memory (address 0 is NULL) and the sizes of the two stacks. */
  datatype World = World(tokens: map<int, Token>, mem: seq<int>, dcap: nat, rcap: nat)

  datatype State = State(ip: int, ds: seq<int>, rs: seq<int>, tr0: int)

  datatype Step = Next(s: State) | Raise(code: int, ds: seq<int>) | Bad

  /** Fault stands for reading a cell outside memory or executing one that is no token. */
  datatype Outcome =
    | Done(s: State, gas: nat)
    | Throw(code: int, ds: seq<int>)
    | Spent(s: State)
    | Fault

  predicate Readable(w: World, a: int) {
    0 < a < |w.mem|
  }

  // ----- builtin words -----

  /** Builtins that are threads in a constant table. */
  predicate HasTable(b: Builtin) {
    b in {TWO_DUP, ZERO_EQUALS, LOOP_INC}
  }

  function Table(b: Builtin): seq<int>
    requires HasTable(b)
  {
    match b
    case TWO_DUP => [Xt(OVER), Xt(OVER), Xt(EXIT), Xt(SENTINEL)]
    case ZERO_EQUALS => [Xt(LIT_CELL), 0, Xt(EQUALS), Xt(EXIT), Xt(SENTINEL)]
    case LOOP_INC => [
      Xt(TO_R), Xt(TWO_DUP), Xt(PLUS), Xt(R_FROM), Xt(SWAP), Xt(TO_R),
      Xt(MINUS), Xt(LIT_CELL), SIGN_BIT, Xt(PLUS), Xt(DUP), Xt(ROT), Xt(PLUS),
      Xt(XOR), Xt(LIT_CELL), BITS - 1, Xt(RSHIFT), Xt(ZERO_EQUALS), Xt(INVERT),
      Xt(R_FROM), Xt(EXIT), Xt(SENTINEL)]
  }

  predicate Holds(mem: seq<int>, a: int, cells: seq<int>) {
    0 < a && a + |cells| <= |mem| && mem[a..a + |cells|] == cells
  }

  /** e4__BUILTIN_XT is in place. */
  ghost predicate Builtins(w: World) {
    && |w.mem| < MODULUS
    && forall b: Builtin ::
         && Xt(b) in w.tokens
         && if HasTable(b) then w.tokens[Xt(b)].Thunk? && Holds(w.mem, w.tokens[Xt(b)].table, Table(b))
            else w.tokens[Xt(b)] == Native(b)
  }

  datatype BitOp = BitAnd | BitOr | BitXor

  function OnBits(op: BitOp, a: bool, b: bool): bool {
    match op
    case BitAnd => a && b
    case BitOr => a || b
    case BitXor => a != b
  }

  /** Bitwise combination of two n-bit numbers, most significant bit first. */
  function Bitwise(op: BitOp, a: int, b: int, n: nat): (r: int)
    ensures 0 <= r < Pow2(n)
    decreases n
  {
    if n == 0 then 0 else
    var p := Pow2(n - 1);
    (if OnBits(op, a >= p, b >= p) then p else 0) + Bitwise(op, a % p, b % p, n - 1)
  }

  predicate Negative(c: int) {
    c > (MODULUS - 1) / 2
  }

  function Flag(f: bool): int {
    if f then MODULUS - 1 else 0
  }

  function SignedLess(l: int, r: int): bool {
    if Negative(r) == Negative(l) then l < r else !Negative(r) && Negative(l)
  }

  predicate IsBinary(b: Builtin) {
    b in {AND, EQUALS, LESS_THAN, LSHIFT, MINUS, OR, PLUS, RSHIFT, STAR, U_LESS_THAN, XOR}
  }

  /** Words that only touch the data stack. */
  predicate IsData(b: Builtin) {
    IsBinary(b) || b in {DEPTH, DROP, DUP, INVERT, NEGATE, OVER, ROT, SWAP, TUCK}
  }

  function Binary(b: Builtin, l: int, r: int): int
    requires IsBinary(b)
  {
    match b
    case AND => Bitwise(BitAnd, l, r, BITS)
    case OR => Bitwise(BitOr, l, r, BITS)
    case XOR => Bitwise(BitXor, l, r, BITS)
    case EQUALS => Flag(l == r)
    case LESS_THAN => Flag(SignedLess(l, r))
    case U_LESS_THAN => Flag(l < r)
    case LSHIFT => (l * Pow2(if r < 0 then 0 else r)) % MODULUS
    case RSHIFT => l / Pow2(if r < 0 then 0 else r)
    case MINUS => (l - r) % MODULUS
    case PLUS => (l + r) % MODULUS
    case STAR => (l * r) % MODULUS
  }

  function Pops(b: Builtin): nat {
    if IsBinary(b) || b in {OVER, SWAP, TUCK} then 2
    else if b == ROT then 3
    else if b == DEPTH then 0
    else 1
  }

  function Room(b: Builtin): nat {
    if b in {DEPTH, DUP, OVER, TUCK} then 1 else 0
  }

  function Effect(b: Builtin, ds: seq<int>): seq<int>
    requires IsData(b) && Pops(b) <= |ds|
  {
    var n := |ds|;
    match b
    case DEPTH => ds + [n]
    case DROP => ds[..n - 1]
    case DUP => ds + [ds[n - 1]]
    case INVERT => ds[..n - 1] + [MODULUS - 1 - ds[n - 1]]
    case NEGATE => ds[..n - 1] + [(MODULUS - ds[n - 1]) % MODULUS]
    case OVER => ds + [ds[n - 2]]
    case ROT => ds[..n - 3] + [ds[n - 2], ds[n - 1], ds[n - 3]]
    case SWAP => ds[..n - 2] + [ds[n - 1], ds[n - 2]]
    case TUCK => ds[..n - 2] + [ds[n - 1], ds[n - 2], ds[n - 1]]
    case _ => ds[..n - 2] + [Binary(b, ds[n - 2], ds[n - 1])]
  }

  /** e4__execute_ret */
  function Ret(s: State): Step {
    var n := |s.rs|;
    if n - s.tr0 < 1 then Raise(E_RSTKUNDERFLOW, s.ds)
    else if n == 0 then Bad
    else Next(s.(ip := s.rs[n - 1], rs := s.rs[..n - 1]))
  }

  /** The end of a thread: check and restore the frame base, then return. */
  function EndThread(s: State): Step {
    var n := |s.rs|;
    if n != s.tr0 then Raise(E_RSTKIMBALANCE, s.ds)
    else if n == 0 then Bad
    else Ret(s.(tr0 := s.rs[n - 1], rs := s.rs[..n - 1]))
  }

  function Push(w: World, s: State, v: int): Step {
    if w.dcap - |s.ds| < 1 then Raise(E_STKOVERFLOW, s.ds)
    else Ret(s.(ds := s.ds + [v]))
  }

  function DataStep(w: World, b: Builtin, s: State): Step
    requires IsData(b)
  {
    if |s.ds| < Pops(b) then Raise(E_STKUNDERFLOW, s.ds)
    else if w.dcap - |s.ds| < Room(b) then Raise(E_STKOVERFLOW, s.ds)
    else Ret(s.(ds := Effect(b, s.ds)))
  }

  predicate IsFrameWord(b: Builtin) {
    b in {J, R_FETCH, R_FROM, TO_R, TWO_R_FETCH, TWO_R_FROM, TWO_TO_R, UNLOOP}
  }

  /** Cells, its own return address included, that a return-stack word expects to find in the frame. */
  function RNeed(b: Builtin): nat {
    match b
    case J => 5
    case R_FETCH => 2
    case R_FROM => 2
    case TWO_R_FETCH => 3
    case TWO_R_FROM => 3
    case UNLOOP => 3
    case _ => 1
  }

  /** Words that use the return stack.  Each first takes its own return address off it. */
  function FrameStep(w: World, b: Builtin, s: State): Step
    requires IsFrameWord(b)
  {
    var pops := if b == TO_R then 1 else if b == TWO_TO_R then 2 else 0;
    var room := if b in {TWO_R_FETCH, TWO_R_FROM} then 2 else if b in {J, R_FETCH, R_FROM} then 1 else 0;
    var n, d := |s.rs|, |s.ds|;
    if d < pops then Raise(E_STKUNDERFLOW, s.ds)
    else if w.rcap - n < pops then Raise(E_RSTKOVERFLOW, s.ds)
    else if n - s.tr0 < RNeed(b) then Raise(E_RSTKUNDERFLOW, s.ds)
    else if w.dcap - d < room then Raise(E_STKOVERFLOW, s.ds)
    else if n < RNeed(b) then Bad
    else
      var t := s.(ip := s.rs[n - 1], rs := s.rs[..n - 1]);
      match b
      case J => Next(t.(ds := t.ds + [t.rs[n - 4]]))
      case R_FETCH => Next(t.(ds := t.ds + [t.rs[n - 2]]))
      case R_FROM => Next(t.(ds := t.ds + [t.rs[n - 2]], rs := t.rs[..n - 2]))
      case TO_R => Next(t.(ds := t.ds[..d - 1], rs := t.rs + [t.ds[d - 1]]))
      case TWO_R_FETCH => Next(t.(ds := t.ds + [t.rs[n - 3], t.rs[n - 2]]))
      case TWO_R_FROM => Next(t.(ds := t.ds + [t.rs[n - 3], t.rs[n - 2]], rs := t.rs[..n - 3]))
      case TWO_TO_R => Next(t.(ds := t.ds[..d - 2], rs := t.rs + [t.ds[d - 2], t.ds[d - 1]]))
      case UNLOOP => Next(t.(rs := t.rs[..n - 3]))
  }

  /** Words that read the cell after their own one.  The return address on top of the return stack
      points at it. */
  predicate IsInline(b: Builtin) {
    b in {BRANCH, BRANCH0, LIT_CELL, LIT_STR}
  }

  /** Cells taken by a string of len bytes. */
  function StringCells(len: int): int {
    var bytes := BITS / 8;
    if bytes == 0 then 0 else len / bytes + (if len % bytes != 0 then 1 else 0)
  }

  function InlineStep(w: World, b: Builtin, s: State): Step
    requires IsInline(b)
  {
    var n, d := |s.rs|, |s.ds|;
    if n - s.tr0 < 1 then Raise(E_RSTKUNDERFLOW, s.ds)
    else if b == BRANCH0 && d < 1 then Raise(E_STKUNDERFLOW, s.ds)
    else if n == 0 || !Readable(w, s.rs[n - 1]) then Bad
    else
      var a := s.rs[n - 1];
      var cell := w.mem[a];
      var t := s.(rs := s.rs[..n - 1]);
      match b
      case BRANCH => Next(t.(ip := (a + cell) % MODULUS))
      case BRANCH0 =>
        Next(t.(ip := if t.ds[d - 1] == 0 then (a + cell) % MODULUS else a + 1, ds := t.ds[..d - 1]))
      case LIT_CELL =>
        if w.dcap - d < 1 then Raise(E_STKOVERFLOW, s.ds)
        else Next(t.(ip := a + 1, ds := t.ds + [cell]))
      case LIT_STR =>
        if w.dcap - d < 2 then Raise(E_STKOVERFLOW, s.ds)
        else Next(t.(ip := a + 1 + StringCells(cell), ds := t.ds + [a + 1, cell]))
  }

  /** Builtins written in C, EXECUTE aside.  EXIT is intercepted by the inner interpreter and a bug
      anywhere else; the words with a thread of their own never get here. */
  function NativeStep(w: World, b: Builtin, s: State): Step {
    if IsData(b) then DataStep(w, b, s)
    else if IsFrameWord(b) then FrameStep(w, b, s)
    else if IsInline(b) then InlineStep(w, b, s)
    else if b == SENTINEL then Ret(s)
    else if b == EXIT then Raise(E_BUG, s.ds)
    else if b == THROW then
      var d := |s.ds|;
      if d < 1 then Raise(E_STKUNDERFLOW, s.ds)
      else if s.ds[d - 1] != 0 then Raise(SignedCode(s.ds[d - 1]), s.ds[..d - 1])
      else Ret(s.(ds := s.ds[..d - 1]))
    else Bad
  }

  function SignedCode(c: int): int {
    if Negative(c) then c - MODULUS else c
  }

  // ----- the interpreter -----

  function Lift(st: Step, gas: nat): Outcome {
    match st
    case Next(s) => Done(s, gas)
    case Raise(code, ds) => Throw(code, ds)
    case Bad => Fault
  }

  /** e4__execute: push the cell after the current one, or NULL from outside any thread, and run the
      code of the token.  With inline, threads run as e4__execute_threaded runs them; without it, a
      colon word in a thread is one more call of Execute. */
  function Execute(w: World, inline: bool, xt: int, s: State, gas: nat): (r: Outcome)
    ensures r.Done? ==> r.gas < gas
    decreases gas, 0
  {
    if gas == 0 then Spent(s)
    else if w.rcap - |s.rs| < 1 then Throw(E_RSTKOVERFLOW, s.ds)
    else
      var r := RunCode(w, inline, xt, s.(rs := s.rs + [if s.ip != 0 then s.ip + 1 else 0]), gas - 1);
      if r.Done? && s.ip == 0 then r.(s := r.s.(ip := 0)) else r
  }

  function RunCode(w: World, inline: bool, xt: int, s: State, gas: nat): (r: Outcome)
    ensures r.Done? ==> r.gas <= gas
    decreases gas, 3
  {
    if xt !in w.tokens then Fault
    else match w.tokens[xt]
      case Native(EXECUTE) =>
        if |s.ds| < 1 then Throw(E_STKUNDERFLOW, s.ds)
        else Return(Execute(w, inline, s.ds[|s.ds| - 1], s.(ds := s.ds[..|s.ds| - 1]), gas))
      case Native(b) => Lift(NativeStep(w, b, s), gas)
      case Threaded => EnterThread(w, inline, xt + 2, s, gas)
      case Thunk(table) => EnterThread(w, inline, table, s, gas)
      case Does(body) =>
        if w.dcap - |s.ds| < 1 then Throw(E_STKOVERFLOW, s.ds)
        else EnterThread(w, inline, body, s.(ds := s.ds + [xt + 2]), gas)
      case Defer(target) => Return(Execute(w, inline, target, s, gas))
      case Constant(v) => Lift(Push(w, s, v), gas)
      case Variable => Lift(Push(w, s, xt + 2), gas)
  }

  function Return(r: Outcome): (r': Outcome)
    ensures r'.Done? ==> r.Done? && r'.gas == r.gas
  {
    if r.Done? then Lift(Ret(r.s), r.gas) else r
  }

  /** e4__execute_threaded, with the thread at address a. */
  function EnterThread(w: World, inline: bool, a: int, s: State, gas: nat): (r: Outcome)
    ensures r.Done? ==> r.gas <= gas
    decreases gas, 2
  {
    if w.rcap - |s.rs| < 1 then Throw(E_RSTKOVERFLOW, s.ds)
    else
      var r := Loop(w, inline, 1, State(a, s.ds, s.rs + [s.tr0], |s.rs| + 1), gas);
      if r.Done? then Lift(EndThread(r.s), r.gas) else r
  }

  /** The while (depth) loop of e4__execute_threaded. */
  function Loop(w: World, inline: bool, depth: nat, s: State, gas: nat): (r: Outcome)
    ensures r.Done? ==> r.gas <= gas
    decreases gas, 1
  {
    if depth == 0 then Done(s, gas)
    else if !Readable(w, s.ip) then Fault
    else
      var xt := w.mem[s.ip];
      if xt !in w.tokens then Fault
      else if inline && w.tokens[xt].Threaded? then
        if gas == 0 then Spent(s)
        else if w.rcap - |s.rs| < 2 then Throw(E_RSTKOVERFLOW, s.ds)
        else
          Loop(w, inline, depth + 1, State(xt + 2, s.ds, s.rs + [s.ip + 1, s.tr0], |s.rs| + 2), gas - 1)
      else if xt == Xt(EXIT) then
        if gas == 0 then Spent(s)
        else if depth == 1 then Done(s, gas - 1)
        else match EndThread(s)
          case Next(t) => Loop(w, inline, depth - 1, t, gas - 1)
          case st => Lift(st, gas - 1)
      else
        var r := Execute(w, inline, xt, s, gas);
        if r.Done? then Loop(w, inline, depth, r.s, r.gas) else r
  }
}
