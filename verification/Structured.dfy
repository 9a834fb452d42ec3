/** Structured programs, the cells they compile to, and what they mean without any branch, offset or
    placeholder.  LEAVE leaves the innermost enclosing DO loop or CASE, whichever is closer: that is what
    the placeholders make of it.  Conformance.dfy says when this is the LEAVE of Forth 2012. */
module Structured {
  import opened Words
  import opened Machine

  /** The body of a colon definition.  Do is DO or ?DO up to LOOP (plain, increment 1) or +LOOP. */
  datatype Stmt =
    | Skip
    | Word(xt: int)
    | Lit(n: int)
    | Seq(first: Stmt, second: Stmt)
    | If(yes: Stmt)
    | IfElse(yes: Stmt, no: Stmt)
    | Until(body: Stmt)
    | While(test: Stmt, body: Stmt)
    | Again(body: Stmt)
    | Do(query: bool, plain: bool, body: Stmt)
    | Leave
    | Exit
    | Case(arms: Arms)

  datatype Arms = Default(stmt: Stmt) | Of(test: Stmt, body: Stmt, rest: Arms)

  // ----- code -----

  /** Where LEAVE goes: not known yet, or that many cells past the start of the fragment. */
  datatype Target = Pending | At(d: int)

  function Shift(t: Target, k: int): Target {
    if t.Pending? then t else At(t.d - k)
  }

  /** A branch displacement, counted from the cell that holds it. */
  function Off(k: int): int {
    k % MODULUS
  }

  function Hole(t: Target, pos: int): int {
    if t.Pending? then Xt(SENTINEL) else Off(t.d - pos)
  }

  function DoPrefix(query: bool): seq<int> {
    if query then [Xt(TWO_DUP), Xt(TWO_TO_R), Xt(EQUALS)]
    else [Xt(SWAP), Xt(TO_R), Xt(TO_R), Xt(LIT_CELL), 0]
  }

  function Increment(plain: bool): seq<int> {
    if plain then [Xt(LIT_CELL), 1] else []
  }

  function Len(p: Stmt): nat {
    match p
    case Skip => 0
    case Word(_) => 1
    case Lit(_) => 2
    case Seq(q, r) => Len(q) + Len(r)
    case If(q) => 2 + Len(q)
    case IfElse(q, r) => 4 + Len(q) + Len(r)
    case Until(q) => Len(q) + 2
    case While(q, r) => Len(q) + Len(r) + 4
    case Again(q) => Len(q) + 2
    case Do(query, plain, q) => |DoPrefix(query)| + Len(q) + |Increment(plain)| + 10
    case Leave => 2
    case Exit => 1
    case Case(arms) => ArmsLen(arms)
  }

  function ArmsLen(arms: Arms): nat {
    match arms
    case Default(q) => Len(q) + 1
    case Of(q, r, rest) => Len(q) + Len(r) + 7 + ArmsLen(rest)
  }

  function IfCells(yes: seq<int>): seq<int> {
    [Xt(BRANCH0), Off(|yes| + 1)] + yes
  }

  function IfElseCells(yes: seq<int>, no: seq<int>): seq<int> {
    [Xt(BRANCH0), Off(|yes| + 3)] + (yes + ([Xt(BRANCH), Off(|no| + 1)] + no))
  }

  function UntilCells(body: seq<int>): seq<int> {
    body + [Xt(BRANCH0), Off(0 - |body| - 1)]
  }

  function WhileCells(test: seq<int>, body: seq<int>): seq<int> {
    test + ([Xt(BRANCH0), Off(|body| + 3)] + (body + [Xt(BRANCH), Off(0 - |test| - |body| - 3)]))
  }

  function AgainCells(body: seq<int>): seq<int> {
    body + [Xt(BRANCH), Off(0 - |body| - 1)]
  }

  /** The cells between DO and UNLOOP, which +LOOP scans for placeholders. */
  function LoopCells(plain: bool, body: seq<int>, exit: int): seq<int> {
    var n := |body| + |Increment(plain)|;
    [Xt(INVERT), Xt(BRANCH0), exit] + (body + (Increment(plain) +
    [Xt(R_FROM), Xt(R_FETCH), Xt(LOOP_INC), Xt(TO_R), Xt(BRANCH), Off(0 - n - 8)]))
  }

  function DoCells(query: bool, plain: bool, body: seq<int>): seq<int> {
    DoPrefix(query) + (LoopCells(plain, body, Off(|body| + |Increment(plain)| + 7)) + [Xt(UNLOOP)])
  }

  function OfCells(test: seq<int>, body: seq<int>, end: int, rest: seq<int>): seq<int> {
    test + ([Xt(OVER), Xt(EQUALS), Xt(BRANCH0), Off(|body| + 4), Xt(DROP)] +
    (body + ([Xt(BRANCH), end] + rest)))
  }

  function Code(p: Stmt, leave: Target): (cells: seq<int>)
    ensures |cells| == Len(p)
  {
    match p
    case Skip => []
    case Word(xt) => [xt]
    case Lit(n) => [Xt(LIT_CELL), n]
    case Seq(q, r) => Code(q, leave) + Code(r, Shift(leave, Len(q)))
    case If(q) => IfCells(Code(q, Shift(leave, 2)))
    case IfElse(q, r) => IfElseCells(Code(q, Shift(leave, 2)), Code(r, Shift(leave, Len(q) + 4)))
    case Until(q) => UntilCells(Code(q, leave))
    case While(q, r) => WhileCells(Code(q, leave), Code(r, Shift(leave, Len(q) + 2)))
    case Again(q) => AgainCells(Code(q, leave))
    case Do(query, plain, q) => DoCells(query, plain, Code(q, At(LoopExit(plain, q))))
    case Leave => [Xt(BRANCH), Hole(leave, 1)]
    case Exit => [Xt(EXIT)]
    case Case(arms) => ArmsCode(arms, At(ArmsLen(arms)))
  }

  /** Distance from the body of a counted loop to its UNLOOP. */
  function LoopExit(plain: bool, body: Stmt): int {
    Len(body) + |Increment(plain)| + 6
  }

  /** ENDOF and LEAVE go to the same place: ENDCASE finds the placeholders of both. */
  function ArmsCode(arms: Arms, end: Target): (cells: seq<int>)
    ensures |cells| == ArmsLen(arms)
  {
    match arms
    case Default(q) => Code(q, end) + [Xt(DROP)]
    case Of(q, r, rest) =>
      var m, n := Len(q), Len(r);
      OfCells(Code(q, end), Code(r, Shift(end, m + 5)), Hole(end, m + n + 6),
        ArmsCode(rest, Shift(end, m + n + 7)))
  }

  // ----- meaning -----

  /** What a program sees of the machine: both stacks and the base of its own frame. */
  datatype Ctx = Ctx(ds: seq<int>, rs: seq<int>, tr0: int)

  /** Strayed is the one unstructured outcome: a word came back to another cell than the next one, as
      EXECUTE of R> can bring about. */
  datatype Result =
    | Normal(c: Ctx, gas: nat)
    | Left(c: Ctx, gas: nat)
    | Exited(c: Ctx, gas: nat)
    | Strayed(s: State, gas: nat)
    | Thrown(code: int, ds: seq<int>)
    | OutOfGas
    | Faulted

  function GasOf(r: Result): nat {
    match r
    case Normal(_, g) => g
    case Left(_, g) => g
    case Exited(_, g) => g
    case Strayed(_, g) => g
    case _ => 0
  }

  function AtCell(a: int, c: Ctx): State {
    State(a, c.ds, c.rs, c.tr0)
  }

  function CtxOf(s: State): Ctx {
    Ctx(s.ds, s.rs, s.tr0)
  }

  /** The price of one call: a unit of gas and, for its duration, one cell of return stack. */
  function Spend(w: World, c: Ctx, gas: nat): (r: Result)
    ensures r.Normal? ==> r.gas < gas && r.c == c
    ensures !r.Left?
  {
    if gas == 0 then OutOfGas
    else if w.rcap - |c.rs| < 1 then Thrown(E_RSTKOVERFLOW, c.ds)
    else if |c.rs| < c.tr0 then Thrown(E_RSTKUNDERFLOW, c.ds)
    else Normal(c, gas - 1)
  }

  /** Take the top cell off as a flag. */
  function Test(w: World, c: Ctx, gas: nat): (r: Result)
    ensures r.Normal? ==> r.gas < gas && 0 < |c.ds| && r.c == c.(ds := c.ds[..|c.ds| - 1])
    ensures !r.Left?
  {
    var r := Spend(w, c, gas);
    if !r.Normal? then r
    else if |c.ds| < 1 then Thrown(E_STKUNDERFLOW, c.ds)
    else Normal(c.(ds := c.ds[..|c.ds| - 1]), gas - 1)
  }

  predicate Holds0(c: Ctx)
    requires 0 < |c.ds|
  {
    c.ds[|c.ds| - 1] == 0
  }

  function Literal(w: World, n: int, c: Ctx, gas: nat): (r: Result)
    ensures r.Normal? ==> r.gas < gas
    ensures !r.Left?
  {
    var r := Spend(w, c, gas);
    if !r.Normal? then r
    else if w.dcap - |c.ds| < 1 then Thrown(E_STKOVERFLOW, c.ds)
    else Normal(c.(ds := c.ds + [n]), gas - 1)
  }

  /** Run the word that stands at address a. */
  function RunWord(w: World, xt: int, a: int, c: Ctx, gas: nat): (r: Result)
    ensures GasOf(r) <= gas
    ensures r.Normal? ==> r.gas < gas
    ensures !r.Left?
  {
    if xt !in w.tokens then Faulted
    else match Execute(w, false, xt, AtCell(a, c), gas)
      case Done(s, g) => if s.ip == a + 1 then Normal(CtxOf(s), g) else Strayed(s, g)
      case Throw(code, ds) => Thrown(code, ds)
      case Spent(_) => OutOfGas
      case Fault => Faulted
  }

  function RunWords(w: World, xts: seq<int>, a: int, c: Ctx, gas: nat): (r: Result)
    ensures GasOf(r) <= gas
    ensures r.Normal? && |xts| > 0 ==> r.gas < gas
    ensures !r.Left?
    decreases |xts|
  {
    if xts == [] then Normal(c, gas)
    else
      var r := RunWord(w, xts[0], a, c, gas);
      if r.Normal? then RunWords(w, xts[1..], a + 1, r.c, r.gas) else r
  }

  const DO_WORDS: seq<int> := [Xt(SWAP), Xt(TO_R), Xt(TO_R)]
  const QDO_WORDS: seq<int> := [Xt(TWO_DUP), Xt(TWO_TO_R), Xt(EQUALS)]
  const STEP_WORDS: seq<int> := [Xt(R_FROM), Xt(R_FETCH), Xt(LOOP_INC), Xt(TO_R)]

  function Eval(w: World, p: Stmt, a: int, c: Ctx, gas: nat): (r: Result)
    ensures GasOf(r) <= gas
    decreases gas, p, 1
  {
    match p
    case Skip => Normal(c, gas)
    case Word(xt) => RunWord(w, xt, a, c, gas)
    case Lit(n) => Literal(w, n, c, gas)
    case Seq(q, r) =>
      var x := Eval(w, q, a, c, gas);
      if x.Normal? then Eval(w, r, a + Len(q), x.c, x.gas) else x
    case If(q) =>
      var t := Test(w, c, gas);
      if !t.Normal? then t
      else if Holds0(c) then t
      else Eval(w, q, a + 2, t.c, t.gas)
    case IfElse(q, r) => EvalIfElse(w, q, r, a, c, gas)
    case Until(q) =>
      var x := Eval(w, q, a, c, gas);
      if !x.Normal? then x
      else
        var t := Test(w, x.c, x.gas);
        if t.Normal? && Holds0(x.c) then Eval(w, p, a, t.c, t.gas) else t
    case While(q, r) => EvalWhile(w, q, r, a, c, gas)
    case Again(q) =>
      var x := Eval(w, q, a, c, gas);
      if !x.Normal? then x
      else
        var z := Spend(w, x.c, x.gas);
        if z.Normal? then Eval(w, p, a, z.c, z.gas) else z
    case Do(query, plain, q) => EvalDo(w, query, plain, q, a, c, gas)
    case Leave =>
      var z := Spend(w, c, gas);
      if z.Normal? then Left(z.c, z.gas) else z
    case Exit => if gas == 0 then OutOfGas else Exited(c, gas - 1)
    case Case(arms) =>
      var x := EvalArms(w, arms, a, c, gas);
      if x.Left? then Normal(x.c, x.gas) else x
  }

  function EvalIfElse(w: World, q: Stmt, r: Stmt, a: int, c: Ctx, gas: nat): (res: Result)
    ensures GasOf(res) <= gas
    decreases gas, IfElse(q, r), 0
  {
    var t := Test(w, c, gas);
    if !t.Normal? then t
    else if Holds0(c) then Eval(w, r, a + Len(q) + 4, t.c, t.gas)
    else
      var x := Eval(w, q, a + 2, t.c, t.gas);
      if x.Normal? then Spend(w, x.c, x.gas) else x
  }

  function EvalWhile(w: World, q: Stmt, r: Stmt, a: int, c: Ctx, gas: nat): (res: Result)
    ensures GasOf(res) <= gas
    decreases gas, While(q, r), 0
  {
    var x := Eval(w, q, a, c, gas);
    if !x.Normal? then x
    else
      var t := Test(w, x.c, x.gas);
      if !t.Normal? || Holds0(x.c) then t
      else
        var y := Eval(w, r, a + Len(q) + 2, t.c, t.gas);
        if !y.Normal? then y
        else
          var z := Spend(w, y.c, y.gas);
          if z.Normal? then EvalWhile(w, q, r, a, z.c, z.gas) else z
  }

  function EvalDo(w: World, query: bool, plain: bool, q: Stmt, a: int, c: Ctx, gas: nat): (res: Result)
    ensures GasOf(res) <= gas
    decreases gas, Do(query, plain, q), 0
  {
    var x := Enter(w, query, a, c, gas);
    if !x.Normal? then x
    else
      var ref := a + |DoPrefix(query)|;
      var y := Iterate(w, plain, q, ref, x.c, x.gas);
      if y.Normal? || y.Left? then
        RunWords(w, [Xt(UNLOOP)], ref + Len(q) + |Increment(plain)| + 9, y.c, y.gas)
      else y
  }

  /** Move limit and index to the return stack and decide whether to start at all. */
  function Enter(w: World, query: bool, a: int, c: Ctx, gas: nat): (r: Result)
    ensures GasOf(r) <= gas && !r.Left?
  {
    if query then RunWords(w, QDO_WORDS, a, c, gas)
    else
      var x := RunWords(w, DO_WORDS, a, c, gas);
      if x.Normal? then Literal(w, 0, x.c, x.gas) else x
  }

  /** A counted loop, with the stop flag of the previous round on the stack. */
  function Iterate(w: World, plain: bool, body: Stmt, ref: int, c: Ctx, gas: nat): (r: Result)
    ensures GasOf(r) <= gas
    decreases gas, body, 2
  {
    var i := RunWords(w, [Xt(INVERT)], ref, c, gas);
    if !i.Normal? then i
    else
      var t := Test(w, i.c, i.gas);
      if !t.Normal? || Holds0(i.c) then t
      else
        var x := Eval(w, body, ref + 3, t.c, t.gas);
        if !x.Normal? then x
        else
          var y := Advance(w, plain, ref + 3 + Len(body), x.c, x.gas);
          if !y.Normal? then y
          else
            var z := Spend(w, y.c, y.gas);
            if z.Normal? then Iterate(w, plain, body, ref, z.c, z.gas) else z
  }

  /** Step the index by the increment on the stack and leave the stop flag. */
  function Advance(w: World, plain: bool, a: int, c: Ctx, gas: nat): (r: Result)
    ensures GasOf(r) <= gas && !r.Left?
  {
    if plain then
      var x := Literal(w, 1, c, gas);
      if x.Normal? then RunWords(w, STEP_WORDS, a + 2, x.c, x.gas) else x
    else RunWords(w, STEP_WORDS, a, c, gas)
  }

  function EvalArms(w: World, arms: Arms, a: int, c: Ctx, gas: nat): (r: Result)
    ensures GasOf(r) <= gas
    decreases gas, arms, 1
  {
    match arms
    case Default(q) =>
      var x := Eval(w, q, a, c, gas);
      if x.Normal? then RunWords(w, [Xt(DROP)], a + Len(q), x.c, x.gas) else x
    case Of(q, r, rest) =>
      var m := a + Len(q);
      var x := Eval(w, q, a, c, gas);
      if !x.Normal? then x
      else
        var e := RunWords(w, [Xt(OVER), Xt(EQUALS)], m, x.c, x.gas);
        if !e.Normal? then e
        else
          var t := Test(w, e.c, e.gas);
          if !t.Normal? then t
          else if Holds0(e.c) then EvalArms(w, rest, m + Len(r) + 7, t.c, t.gas)
          else
            var d := RunWords(w, [Xt(DROP)], m + 4, t.c, t.gas);
            if !d.Normal? then d
            else
              var y := Eval(w, r, m + 5, d.c, d.gas);
              if y.Normal? then Spend(w, y.c, y.gas) else y
  }
}
