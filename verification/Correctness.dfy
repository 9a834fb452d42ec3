/** Running emitted cells on the machine is running the structured program. */
module Correctness {
  import opened Words
  import opened Machine
  import opened Structured

  /** A run of the machine, without the address at which an EXIT was met or the gas ran out. */
  datatype Run = Finished(c: Ctx, gas: nat) | Failed(code: int, ds: seq<int>) | Running | Broken

  function Observe(r: Outcome): Run {
    match r
    case Done(s, g) => Finished(CtxOf(s), g)
    case Throw(code, ds) => Failed(code, ds)
    case Spent(_) => Running
    case Fault => Broken
  }

  /** Go on with the thread at s. */
  function From(w: World, s: State, gas: nat): Run {
    Observe(Loop(w, false, 1, s, gas))
  }

  /** What the thread does after a statement that ends at address end, LEAVE leading to exit. */
  function Then(w: World, r: Result, end: int, exit: int): Run {
    match r
    case Normal(c, g) => From(w, AtCell(end, c), g)
    case Left(c, g) => From(w, AtCell(exit, c), g)
    case Exited(c, g) => Finished(c, g)
    case Strayed(s, g) => From(w, s, g)
    case Thrown(code, ds) => Failed(code, ds)
    case OutOfGas => Running
    case Faulted => Broken
  }

  lemma HoldsSplit(mem: seq<int>, a: int, x: seq<int>, y: seq<int>)
    requires Holds(mem, a, x + y)
    ensures Holds(mem, a, x) && Holds(mem, a + |x|, y)
  {
    var z := mem[a..a + |x| + |y|];
    assert z == x + y;
    assert mem[a..a + |x|] == z[..|x|] == x;
    assert mem[a + |x|..a + |x| + |y|] == z[|x|..] == y;
  }

  lemma HoldsCell(mem: seq<int>, a: int, cells: seq<int>, i: nat)
    requires Holds(mem, a, cells) && i < |cells|
    ensures 0 < a + i < |mem| && mem[a + i] == cells[i]
  {
    assert mem[a..a + |cells|][i] == cells[i];
  }

  lemma OffReaches(from: int, to: int)
    requires 0 <= from && 0 <= to < MODULUS
    ensures (from + Off(to - from)) % MODULUS == to
  {
    var d := to - from;
    var q := d / MODULUS;
    assert d == MODULUS * q + d % MODULUS;
    assert from + Off(d) == (0 - q) * MODULUS + to;
    ModIs(from + Off(d), MODULUS, 0 - q, to);
  }

  // ----- single cells -----

  lemma StepWord(w: World, xt: int, a: int, c: Ctx, gas: nat)
    requires Readable(w, a) && w.mem[a] == xt != Xt(EXIT)
    ensures From(w, AtCell(a, c), gas) == Then(w, RunWord(w, xt, a, c, gas), a + 1, a + 1)
  {
    if xt in w.tokens {
      var r := Execute(w, false, xt, AtCell(a, c), gas);
      if r.Done? && r.s.ip == a + 1 {
        assert AtCell(a + 1, CtxOf(r.s)) == r.s;
      }
    }
  }

  lemma StepExit(w: World, a: int, c: Ctx, gas: nat)
    requires Builtins(w) && Readable(w, a) && w.mem[a] == Xt(EXIT)
    ensures From(w, AtCell(a, c), gas) == if gas == 0 then Running else Finished(c, gas - 1)
  {
    assert Xt(EXIT) in w.tokens;
  }

  lemma NotExit(w: World, b: Builtin)
    requires Builtins(w) && b != EXIT
    ensures Xt(b) != Xt(EXIT) && Xt(b) in w.tokens
    ensures !HasTable(b) ==> w.tokens[Xt(b)] == Native(b)
  {
  }

  function After(w: World, st: Step, gas: nat): Run {
    match st
    case Next(s) => From(w, s, gas)
    case Raise(code, ds) => Failed(code, ds)
    case Bad => Broken
  }

  /** One call of a builtin that is written in C. */
  lemma NativeCall(w: World, b: Builtin, s: State, gas: nat)
    requires Builtins(w) && !HasTable(b) && b != EXECUTE && s.ip != 0
    ensures Execute(w, false, Xt(b), s, gas) ==
      if gas == 0 then Spent(s)
      else if w.rcap - |s.rs| < 1 then Throw(E_RSTKOVERFLOW, s.ds)
      else Lift(NativeStep(w, b, s.(rs := s.rs + [s.ip + 1])), gas - 1)
  {
    var t := s.(rs := s.rs + [s.ip + 1]);
    if gas != 0 && w.rcap - |s.rs| >= 1 {
      assert w.tokens[Xt(b)] == Native(b);
      assert RunCode(w, false, Xt(b), t, gas - 1) == Lift(NativeStep(w, b, t), gas - 1);
    }
  }

  /** The thread meets a word that reads the cell after it. */
  lemma InlineCall(w: World, b: Builtin, a: int, c: Ctx, gas: nat)
    requires Builtins(w) && IsInline(b) && Readable(w, a) && w.mem[a] == Xt(b)
    ensures From(w, AtCell(a, c), gas) ==
      if gas == 0 then Running
      else if w.rcap - |c.rs| < 1 then Failed(E_RSTKOVERFLOW, c.ds)
      else After(w, InlineStep(w, b, State(a, c.ds, c.rs + [a + 1], c.tr0)), gas - 1)
  {
    hide Builtins, Xt, InlineStep, NativeStep, Execute, From, IsInline;
    InlineHasNoTable(b);
    NotExit(w, b);
    var s := AtCell(a, c);
    NativeCall(w, b, s, gas);
    InlineIsNative(w, b, State(a, c.ds, c.rs + [a + 1], c.tr0));
    assert s.(rs := s.rs + [s.ip + 1]) == State(a, c.ds, c.rs + [a + 1], c.tr0);
    StepInto(w, s, gas);
  }

  lemma InlineHasNoTable(b: Builtin)
    requires IsInline(b)
    ensures b != EXIT && b != EXECUTE && !HasTable(b)
  {
  }

  lemma InlineIsNative(w: World, b: Builtin, s: State)
    requires IsInline(b)
    ensures NativeStep(w, b, s) == InlineStep(w, b, s)
  {
  }

  /** The loop of a thread calls e4__execute for any word but EXIT. */
  lemma StepInto(w: World, s: State, gas: nat)
    requires Readable(w, s.ip) && w.mem[s.ip] in w.tokens && w.mem[s.ip] != Xt(EXIT)
    ensures var r := Execute(w, false, w.mem[s.ip], s, gas);
      From(w, s, gas) == if r.Done? then From(w, r.s, r.gas) else Observe(r)
  {
  }

  lemma StepBranch(w: World, a: int, to: int, c: Ctx, gas: nat)
    requires Builtins(w) && Holds(w.mem, a, [Xt(BRANCH), Off(to - a - 1)])
    requires 0 <= to < MODULUS
    ensures From(w, AtCell(a, c), gas) == Then(w, Spend(w, c, gas), to, 0)
  {
    BranchCell(w, a, BRANCH, to, c);
    InlineCall(w, BRANCH, a, c, gas);
  }

  lemma StepBranch0(w: World, a: int, to: int, c: Ctx, gas: nat)
    requires Builtins(w) && Holds(w.mem, a, [Xt(BRANCH0), Off(to - a - 1)])
    requires 0 <= to < MODULUS
    ensures var t := Test(w, c, gas);
      From(w, AtCell(a, c), gas) == Then(w, t, if t.Normal? && Holds0(c) then to else a + 2, 0)
  {
    BranchCell(w, a, BRANCH0, to, c);
    InlineCall(w, BRANCH0, a, c, gas);
  }

  lemma BranchCell(w: World, a: int, b: Builtin, to: int, c: Ctx)
    requires Builtins(w) && b in {BRANCH, BRANCH0} && Holds(w.mem, a, [Xt(b), Off(to - a - 1)])
    requires 0 <= to < MODULUS
    ensures Readable(w, a) && w.mem[a] == Xt(b)
    ensures var st := InlineStep(w, b, State(a, c.ds, c.rs + [a + 1], c.tr0));
      st == if |c.rs| < c.tr0 then Raise(E_RSTKUNDERFLOW, c.ds)
            else if b == BRANCH then Next(AtCell(to, c))
            else if c.ds == [] then Raise(E_STKUNDERFLOW, c.ds)
            else Next(AtCell(if Holds0(c) then to else a + 2, c.(ds := c.ds[..|c.ds| - 1])))
  {
    hide Builtins, Xt, Off, Holds;
    var cells := [Xt(b), Off(to - a - 1)];
    HoldsCell(w.mem, a, cells, 0);
    HoldsCell(w.mem, a, cells, 1);
    OffReaches(a + 1, to);
    var rs := c.rs + [a + 1];
    assert rs[|rs| - 1] == a + 1 && rs[..|rs| - 1] == c.rs;
  }

  lemma StepLiteral(w: World, a: int, n: int, c: Ctx, gas: nat)
    requires Builtins(w) && Holds(w.mem, a, [Xt(LIT_CELL), n])
    ensures From(w, AtCell(a, c), gas) == Then(w, Literal(w, n, c, gas), a + 2, 0)
  {
    var cells := [Xt(LIT_CELL), n];
    HoldsCell(w.mem, a, cells, 0);
    HoldsCell(w.mem, a, cells, 1);
    InlineCall(w, LIT_CELL, a, c, gas);
    var rs := c.rs + [a + 1];
    assert rs[|rs| - 1] == a + 1 && rs[..|rs| - 1] == c.rs;
  }

  lemma {:induction false} StepWords(w: World, xts: seq<int>, a: int, c: Ctx, gas: nat)
    requires Holds(w.mem, a, xts) && Xt(EXIT) !in xts
    ensures From(w, AtCell(a, c), gas) == Then(w, RunWords(w, xts, a, c, gas), a + |xts|, 0)
    decreases |xts|
  {
    if xts == [] {
    } else {
      HoldsCell(w.mem, a, xts, 0);
      assert xts == [xts[0]] + xts[1..];
      HoldsSplit(w.mem, a, [xts[0]], xts[1..]);
      StepWord(w, xts[0], a, c, gas);
      var r := RunWord(w, xts[0], a, c, gas);
      if r.Normal? {
        StepWords(w, xts[1..], a + 1, r.c, r.gas);
        assert a + 1 + |xts[1..]| == a + |xts|;
      }
    }
  }

  lemma Bounds(w: World, a: int, cells: seq<int>)
    requires Builtins(w) && Holds(w.mem, a, cells)
    ensures 0 < a && a + |cells| < MODULUS
  {
  }

  // ----- statements -----

  /** EXIT is a statement of its own, not an ordinary word. */
  predicate Proper(p: Stmt) {
    match p
    case Word(xt) => xt != Xt(EXIT)
    case Seq(q, r) => Proper(q) && Proper(r)
    case If(q) => Proper(q)
    case IfElse(q, r) => Proper(q) && Proper(r)
    case Until(q) => Proper(q)
    case While(q, r) => Proper(q) && Proper(r)
    case Again(q) => Proper(q)
    case Do(_, _, q) => Proper(q)
    case Case(arms) => ProperArms(arms)
    case _ => true
  }

  predicate ProperArms(arms: Arms) {
    match arms
    case Default(q) => Proper(q)
    case Of(q, r, rest) => Proper(q) && Proper(r) && ProperArms(rest)
  }

  ghost predicate InPlace(w: World, p: Stmt, a: int, exit: int) {
    && Builtins(w) && Proper(p)
    && 0 <= exit < MODULUS
    && Holds(w.mem, a, Code(p, At(exit - a)))
  }

  lemma IfPieces(mem: seq<int>, a: int, yes: seq<int>)
    requires Holds(mem, a, IfCells(yes))
    ensures Holds(mem, a, [Xt(BRANCH0), Off(|yes| + 1)]) && Holds(mem, a + 2, yes)
  {
    hide Holds;
    HoldsSplit(mem, a, [Xt(BRANCH0), Off(|yes| + 1)], yes);
  }

  lemma IfElsePieces(mem: seq<int>, a: int, yes: seq<int>, no: seq<int>)
    requires Holds(mem, a, IfElseCells(yes, no))
    ensures var jump := a + 2 + |yes|;
      && Holds(mem, a, [Xt(BRANCH0), Off(|yes| + 3)])
      && Holds(mem, a + 2, yes)
      && Holds(mem, jump, [Xt(BRANCH), Off(|no| + 1)])
      && Holds(mem, jump + 2, no)
  {
    hide Holds;
    var head, hop := [Xt(BRANCH0), Off(|yes| + 3)], [Xt(BRANCH), Off(|no| + 1)];
    HoldsSplit(mem, a, head, yes + (hop + no));
    HoldsSplit(mem, a + 2, yes, hop + no);
    HoldsSplit(mem, a + 2 + |yes|, hop, no);
  }

  lemma WhilePieces(mem: seq<int>, a: int, test: seq<int>, body: seq<int>)
    requires Holds(mem, a, WhileCells(test, body))
    ensures var m := a + |test|;
      && Holds(mem, a, test)
      && Holds(mem, m, [Xt(BRANCH0), Off(|body| + 3)])
      && Holds(mem, m + 2, body)
      && Holds(mem, m + 2 + |body|, [Xt(BRANCH), Off(0 - |test| - |body| - 3)])
  {
    hide Holds;
    var head, tail := [Xt(BRANCH0), Off(|body| + 3)], [Xt(BRANCH), Off(0 - |test| - |body| - 3)];
    HoldsSplit(mem, a, test, head + (body + tail));
    HoldsSplit(mem, a + |test|, head, body + tail);
    HoldsSplit(mem, a + |test| + 2, body, tail);
  }

  /** The thread at a behaves as the statement does, for every amount of gas, and then goes on behind
      it, at its LEAVE target, or wherever a word has strayed to. */
  lemma {:induction false} StmtRuns(w: World, p: Stmt, a: int, exit: int, c: Ctx, gas: nat)
    requires InPlace(w, p, a, exit)
    ensures From(w, AtCell(a, c), gas) == Then(w, Eval(w, p, a, c, gas), a + Len(p), exit)
    decreases gas, p, 1
  {
    hide From, Then, Eval, InPlace, Len;
    EvalIs(w, p, a, c, gas);
    match p
    case Seq(q, r) => SeqRuns(w, q, r, a, exit, c, gas);
    case If(q) => IfRuns(w, q, a, exit, c, gas);
    case IfElse(q, r) => IfElseRuns(w, q, r, a, exit, c, gas);
    case Until(q) => UntilRuns(w, q, a, exit, c, gas);
    case While(q, r) => WhileRuns(w, q, r, a, exit, c, gas);
    case Again(q) => AgainRuns(w, q, a, exit, c, gas);
    case Do(query, plain, q) => DoRuns(w, query, plain, q, a, exit, c, gas);
    case Case(arms) => CaseRuns(w, arms, a, exit, c, gas);
    case _ => LeafRuns(w, p, a, exit, c, gas);
  }

  lemma EvalIs(w: World, p: Stmt, a: int, c: Ctx, gas: nat)
    ensures match p
      case IfElse(q, r) => Eval(w, p, a, c, gas) == EvalIfElse(w, q, r, a, c, gas)
      case While(q, r) => Eval(w, p, a, c, gas) == EvalWhile(w, q, r, a, c, gas)
      case Do(query, plain, q) => Eval(w, p, a, c, gas) == EvalDo(w, query, plain, q, a, c, gas)
      case _ => true
  {
    hide EvalIfElse, EvalWhile, EvalDo;
  }

  lemma LeafRuns(w: World, p: Stmt, a: int, exit: int, c: Ctx, gas: nat)
    requires InPlace(w, p, a, exit) && (p.Skip? || p.Word? || p.Lit? || p.Leave? || p.Exit?)
    ensures From(w, AtCell(a, c), gas) == Then(w, Eval(w, p, a, c, gas), a + Len(p), exit)
  {
    hide Builtins, From, Spend, RunWord, Literal, Off, Xt, Holds;
    match p
    case Skip =>
    case Word(xt) =>
      HoldsCell(w.mem, a, [xt], 0);
      StepWord(w, xt, a, c, gas);
    case Lit(n) => StepLiteral(w, a, n, c, gas);
    case Leave => StepBranch(w, a, exit, c, gas);
    case Exit =>
      HoldsCell(w.mem, a, [Xt(EXIT)], 0);
      StepExit(w, a, c, gas);
  }

  lemma {:induction false} CaseRuns(w: World, arms: Arms, a: int, exit: int, c: Ctx, gas: nat)
    requires InPlace(w, Case(arms), a, exit)
    ensures var p := Case(arms);
      From(w, AtCell(a, c), gas) == Then(w, Eval(w, p, a, c, gas), a + Len(p), exit)
    decreases gas, Case(arms), 0
  {
    hide Builtins, From, Holds, EvalArms, ArmsCode;
    ArmsRun(w, arms, a, a + ArmsLen(arms), c, gas);
  }

  lemma SeqParts(w: World, q: Stmt, r: Stmt, a: int, exit: int)
    requires InPlace(w, Seq(q, r), a, exit)
    ensures InPlace(w, q, a, exit) && InPlace(w, r, a + Len(q), exit)
  {
    hide Builtins, Holds, Code, Proper, Len;
    SeqCode(q, r, At(exit - a));
    HoldsSplit(w.mem, a, Code(q, At(exit - a)), Code(r, At(exit - a - Len(q))));
    assert exit - a - Len(q) == exit - (a + Len(q));
  }

  lemma SeqCode(q: Stmt, r: Stmt, t: Target)
    ensures Code(Seq(q, r), t) == Code(q, t) + Code(r, Shift(t, Len(q)))
    ensures Proper(Seq(q, r)) == (Proper(q) && Proper(r))
  {
    hide Off, Xt, Len;
  }

  lemma EvalSeq(w: World, q: Stmt, r: Stmt, a: int, c: Ctx, gas: nat)
    ensures Len(Seq(q, r)) == Len(q) + Len(r)
    ensures var x := Eval(w, q, a, c, gas);
      Eval(w, Seq(q, r), a, c, gas) == if x.Normal? then Eval(w, r, a + Len(q), x.c, x.gas) else x
  {
    hide Spend, Test, Literal, RunWord, EvalIfElse, EvalWhile, EvalDo, EvalArms, Holds0;
  }

  lemma {:induction false} SeqRuns(w: World, q: Stmt, r: Stmt, a: int, exit: int, c: Ctx, gas: nat)
    requires InPlace(w, Seq(q, r), a, exit)
    ensures var p := Seq(q, r);
      From(w, AtCell(a, c), gas) == Then(w, Eval(w, p, a, c, gas), a + Len(p), exit)
    decreases gas, Seq(q, r), 0
  {
    EvalSeq(w, q, r, a, c, gas);
    hide From, InPlace, Eval, Len;
    SeqParts(w, q, r, a, exit);
    StmtRuns(w, q, a, exit, c, gas);
    var x := Eval(w, q, a, c, gas);
    if x.Normal? {
      StmtRuns(w, r, a + Len(q), exit, x.c, x.gas);
    }
  }

  lemma {:induction false} IfRuns(w: World, q: Stmt, a: int, exit: int, c: Ctx, gas: nat)
    requires InPlace(w, If(q), a, exit)
    ensures var p := If(q);
      From(w, AtCell(a, c), gas) == Then(w, Eval(w, p, a, c, gas), a + Len(p), exit)
    decreases gas, If(q), 0
  {
    hide Builtins, From, Holds, Off, Xt, Spend, Test, RunWord, Literal, IfCells;
    Bounds(w, a, Code(If(q), At(exit - a)));
    IfPieces(w.mem, a, Code(q, At(exit - a - 2)));
    StepBranch0(w, a, a + 2 + Len(q), c, gas);
    var t := Test(w, c, gas);
    if t.Normal? && !Holds0(c) {
      StmtRuns(w, q, a + 2, exit, t.c, t.gas);
    }
  }

  lemma IfElseParts(w: World, q: Stmt, r: Stmt, a: int, exit: int)
    requires InPlace(w, IfElse(q, r), a, exit)
    ensures var jump := a + 2 + Len(q);
      var end := jump + 2 + Len(r);
      && Builtins(w) && 0 < a && end < MODULUS
      && InPlace(w, q, a + 2, exit) && InPlace(w, r, jump + 2, exit)
      && Holds(w.mem, a, [Xt(BRANCH0), Off(jump + 2 - a - 1)])
      && Holds(w.mem, jump, [Xt(BRANCH), Off(end - jump - 1)])
  {
    hide Builtins, Holds, Off, Xt, IfElseCells, Code, Proper, Len;
    IfElseCode(q, r, At(exit - a));
    IfElseFacts(q, r);
    Bounds(w, a, Code(IfElse(q, r), At(exit - a)));
    IfElsePieces(w.mem, a, Code(q, At(exit - a - 2)), Code(r, At(exit - a - (Len(q) + 4))));
    assert exit - a - 2 == exit - (a + 2) && exit - a - (Len(q) + 4) == exit - (a + 2 + Len(q) + 2);
    assert a + 2 + Len(q) + 2 - a - 1 == Len(q) + 3 && a + 2 + Len(q) + 2 + Len(r) - (a + 2 + Len(q)) - 1 == Len(r) + 1;
  }

  lemma IfElseCode(q: Stmt, r: Stmt, t: Target)
    ensures Code(IfElse(q, r), t) == IfElseCells(Code(q, Shift(t, 2)), Code(r, Shift(t, Len(q) + 4)))
  {
    hide IfElseCells, Off, Xt, Len;
  }

  lemma IfElseFacts(q: Stmt, r: Stmt)
    ensures var p := IfElse(q, r);
      Proper(p) == (Proper(q) && Proper(r)) && Len(p) == 4 + Len(q) + Len(r)
  {
  }

  lemma {:induction false} IfElseRuns(w: World, q: Stmt, r: Stmt, a: int, exit: int, c: Ctx, gas: nat)
    requires InPlace(w, IfElse(q, r), a, exit)
    ensures var p := IfElse(q, r);
      From(w, AtCell(a, c), gas) == Then(w, EvalIfElse(w, q, r, a, c, gas), a + Len(p), exit)
    decreases gas, IfElse(q, r), 0
  {
    hide Builtins, From, Holds, Off, Xt, Spend, Test, Eval, InPlace, Code, Len;
    IfElseParts(w, q, r, a, exit);
    IfElseFacts(q, r);
    var jump := a + 2 + Len(q);
    var end := jump + 2 + Len(r);
    StepBranch0(w, a, jump + 2, c, gas);
    var t := Test(w, c, gas);
    if t.Normal? {
      if Holds0(c) {
        StmtRuns(w, r, jump + 2, exit, t.c, t.gas);
      } else {
        StmtRuns(w, q, a + 2, exit, t.c, t.gas);
        var x := Eval(w, q, a + 2, t.c, t.gas);
        if x.Normal? {
          StepBranch(w, jump, end, x.c, x.gas);
        }
      }
    }
  }

  lemma {:induction false} UntilRuns(w: World, q: Stmt, a: int, exit: int, c: Ctx, gas: nat)
    requires InPlace(w, Until(q), a, exit)
    ensures var p := Until(q);
      From(w, AtCell(a, c), gas) == Then(w, Eval(w, p, a, c, gas), a + Len(p), exit)
    decreases gas, Until(q), 0
  {
    hide Builtins, From, Holds, Off, Xt, Spend, Test, RunWord, Literal;
    Bounds(w, a, Code(Until(q), At(exit - a)));
    HoldsSplit(w.mem, a, Code(q, At(exit - a)), [Xt(BRANCH0), Off(0 - Len(q) - 1)]);
    var m := a + Len(q);
    StmtRuns(w, q, a, exit, c, gas);
    var x := Eval(w, q, a, c, gas);
    if x.Normal? {
      StepBranch0(w, m, a, x.c, x.gas);
      var t := Test(w, x.c, x.gas);
      if t.Normal? && Holds0(x.c) {
        StmtRuns(w, Until(q), a, exit, t.c, t.gas);
      }
    }
  }

  lemma {:induction false} AgainRuns(w: World, q: Stmt, a: int, exit: int, c: Ctx, gas: nat)
    requires InPlace(w, Again(q), a, exit)
    ensures var p := Again(q);
      From(w, AtCell(a, c), gas) == Then(w, Eval(w, p, a, c, gas), a + Len(p), exit)
    decreases gas, Again(q), 0
  {
    hide Builtins, From, Holds, Off, Xt, Spend, Test, RunWord, Literal;
    Bounds(w, a, Code(Again(q), At(exit - a)));
    HoldsSplit(w.mem, a, Code(q, At(exit - a)), [Xt(BRANCH), Off(0 - Len(q) - 1)]);
    StmtRuns(w, q, a, exit, c, gas);
    var x := Eval(w, q, a, c, gas);
    if x.Normal? {
      StepBranch(w, a + Len(q), a, x.c, x.gas);
      var z := Spend(w, x.c, x.gas);
      if z.Normal? {
        StmtRuns(w, Again(q), a, exit, z.c, z.gas);
      }
    }
  }

  lemma WhileParts(w: World, q: Stmt, r: Stmt, a: int, exit: int)
    requires InPlace(w, While(q, r), a, exit)
    ensures var m := a + Len(q);
      var back := m + 2 + Len(r);
      && Builtins(w) && 0 < a && back + 2 < MODULUS
      && InPlace(w, q, a, exit) && InPlace(w, r, m + 2, exit)
      && Holds(w.mem, m, [Xt(BRANCH0), Off(back + 2 - m - 1)])
      && Holds(w.mem, back, [Xt(BRANCH), Off(a - back - 1)])
  {
    hide Builtins, Holds, Off, Xt, WhileCells, Code, Proper, Len;
    WhileCode(q, r, At(exit - a));
    WhileFacts(q, r);
    Bounds(w, a, Code(While(q, r), At(exit - a)));
    WhilePieces(w.mem, a, Code(q, At(exit - a)), Code(r, At(exit - a - (Len(q) + 2))));
    var m := a + Len(q);
    var back := m + 2 + Len(r);
    assert exit - a - (Len(q) + 2) == exit - (m + 2);
    assert back + 2 - m - 1 == Len(r) + 3 && a - back - 1 == 0 - Len(q) - Len(r) - 3;
  }

  lemma WhileCode(q: Stmt, r: Stmt, t: Target)
    ensures Code(While(q, r), t) == WhileCells(Code(q, t), Code(r, Shift(t, Len(q) + 2)))
  {
    hide WhileCells, Off, Xt, Len;
  }

  lemma WhileFacts(q: Stmt, r: Stmt)
    ensures var p := While(q, r);
      Proper(p) == (Proper(q) && Proper(r)) && Len(p) == Len(q) + Len(r) + 4
  {
  }

  lemma {:induction false} WhileRuns(w: World, q: Stmt, r: Stmt, a: int, exit: int, c: Ctx, gas: nat)
    requires InPlace(w, While(q, r), a, exit)
    ensures var p := While(q, r);
      From(w, AtCell(a, c), gas) == Then(w, EvalWhile(w, q, r, a, c, gas), a + Len(p), exit)
    decreases gas, While(q, r), 0
  {
    hide Builtins, From, Holds, Off, Xt, Spend, Test, Eval, InPlace, Code;
    WhileParts(w, q, r, a, exit);
    var m := a + Len(q);
    var back := m + 2 + Len(r);
    StmtRuns(w, q, a, exit, c, gas);
    var x := Eval(w, q, a, c, gas);
    if x.Normal? {
      StepBranch0(w, m, back + 2, x.c, x.gas);
      var t := Test(w, x.c, x.gas);
      if t.Normal? && !Holds0(x.c) {
        StmtRuns(w, r, m + 2, exit, t.c, t.gas);
        var y := Eval(w, r, m + 2, t.c, t.gas);
        if y.Normal? {
          StepBranch(w, back, a, y.c, y.gas);
          var z := Spend(w, y.c, y.gas);
          if z.Normal? {
            WhileRuns(w, q, r, a, exit, z.c, z.gas);
          }
        }
      }
    }
  }

  // ----- counted loops -----

  lemma LoopWordsAreNoExit(w: World)
    requires Builtins(w)
    ensures Xt(EXIT) !in DO_WORDS && Xt(EXIT) !in QDO_WORDS && Xt(EXIT) !in STEP_WORDS
    ensures Xt(EXIT) !in [Xt(UNLOOP)] && Xt(EXIT) !in [Xt(INVERT)] && Xt(EXIT) !in [Xt(DROP)]
    ensures Xt(EXIT) !in [Xt(OVER), Xt(EQUALS)]
  {
    forall b: Builtin {
      OnlyExit(b);
    }
    hide Xt, Builtins;
  }

  lemma OnlyExit(b: Builtin)
    ensures Xt(b) == Xt(EXIT) ==> b == EXIT
  {
  }

  lemma EnterRuns(w: World, query: bool, a: int, c: Ctx, gas: nat)
    requires Builtins(w) && Holds(w.mem, a, DoPrefix(query))
    ensures From(w, AtCell(a, c), gas) ==
      Then(w, Enter(w, query, a, c, gas), a + |DoPrefix(query)|, 0)
  {
    hide Builtins, From, Holds, Xt, Literal, RunWords;
    LoopWordsAreNoExit(w);
    if query {
      StepWords(w, QDO_WORDS, a, c, gas);
    } else {
      assert DoPrefix(false) == DO_WORDS + [Xt(LIT_CELL), 0];
      HoldsSplit(w.mem, a, DO_WORDS, [Xt(LIT_CELL), 0]);
      StepWords(w, DO_WORDS, a, c, gas);
      var x := RunWords(w, DO_WORDS, a, c, gas);
      if x.Normal? {
        StepLiteral(w, a + 3, 0, x.c, x.gas);
      }
    }
  }

  lemma AdvanceRuns(w: World, plain: bool, a: int, c: Ctx, gas: nat)
    requires Builtins(w) && Holds(w.mem, a, Increment(plain) + STEP_WORDS)
    ensures From(w, AtCell(a, c), gas) ==
      Then(w, Advance(w, plain, a, c, gas), a + |Increment(plain)| + 4, 0)
  {
    hide Builtins, From, Holds, Xt, Literal, RunWords;
    LoopWordsAreNoExit(w);
    HoldsSplit(w.mem, a, Increment(plain), STEP_WORDS);
    if plain {
      StepLiteral(w, a, 1, c, gas);
      var x := Literal(w, 1, c, gas);
      if x.Normal? {
        StepWords(w, STEP_WORDS, a + 2, x.c, x.gas);
      }
    } else {
      StepWords(w, STEP_WORDS, a, c, gas);
    }
  }

  ghost predicate LoopInPlace(w: World, plain: bool, body: Stmt, ref: int) {
    var n := Len(body) + |Increment(plain)|;
    && Builtins(w) && Proper(body)
    && Holds(w.mem, ref, LoopCells(plain, Code(body, At(n + 6)), Off(n + 7)))
  }

  /** The pieces that +LOOP has put around the body. */
  lemma LoopCellsParts(plain: bool, code: seq<int>)
    ensures var n := |code| + |Increment(plain)|;
      && |LoopCells(plain, code, Off(n + 7))| == n + 9
      && LoopCells(plain, code, Off(n + 7)) ==
         [Xt(INVERT), Xt(BRANCH0), Off(n + 7)] +
         (code + (Increment(plain) + STEP_WORDS + [Xt(BRANCH), Off(0 - n - 8)]))
  {
    hide Off, Xt, Increment;
    var n := |code| + |Increment(plain)|;
    assert Increment(plain) + [Xt(R_FROM), Xt(R_FETCH), Xt(LOOP_INC), Xt(TO_R), Xt(BRANCH), Off(0 - n - 8)] ==
      Increment(plain) + STEP_WORDS + [Xt(BRANCH), Off(0 - n - 8)];
  }

  lemma LoopPieces(w: World, plain: bool, body: Stmt, ref: int)
    requires LoopInPlace(w, plain, body, ref)
    ensures var n := Len(body) + |Increment(plain)|;
      && 0 < ref && ref + n + 9 < MODULUS
      && Holds(w.mem, ref, [Xt(INVERT)])
      && Holds(w.mem, ref + 1, [Xt(BRANCH0), Off(n + 7)])
      && Holds(w.mem, ref + 3, Code(body, At(n + 6)))
      && Holds(w.mem, ref + 3 + Len(body), Increment(plain) + STEP_WORDS)
      && Holds(w.mem, ref + n + 7, [Xt(BRANCH), Off(0 - n - 8)])
  {
    hide Builtins, Holds, Off, Xt, Code, Len, Proper, Increment, LoopCells;
    var n := Len(body) + |Increment(plain)|;
    var code := Code(body, At(n + 6));
    LoopCellsParts(plain, code);
    Bounds(w, ref, LoopCells(plain, code, Off(n + 7)));
    var head := [Xt(INVERT), Xt(BRANCH0), Off(n + 7)];
    var back := [Xt(BRANCH), Off(0 - n - 8)];
    var tail := Increment(plain) + STEP_WORDS;
    HoldsSplit(w.mem, ref, head, code + (tail + back));
    HoldsSplit(w.mem, ref + 3, code, tail + back);
    HoldsSplit(w.mem, ref + 3 + Len(body), tail, back);
    assert head == [Xt(INVERT)] + [Xt(BRANCH0), Off(n + 7)];
    HoldsSplit(w.mem, ref, [Xt(INVERT)], [Xt(BRANCH0), Off(n + 7)]);
  }

  lemma LoopParts(w: World, plain: bool, body: Stmt, ref: int)
    requires LoopInPlace(w, plain, body, ref)
    ensures var n := Len(body) + |Increment(plain)|;
      var end := ref + n + 9;
      && Builtins(w) && 0 < ref && end < MODULUS
      && InPlace(w, body, ref + 3, end)
      && Holds(w.mem, ref, [Xt(INVERT)])
      && Holds(w.mem, ref + 1, [Xt(BRANCH0), Off(end - (ref + 1) - 1)])
      && Holds(w.mem, ref + 3 + Len(body), Increment(plain) + STEP_WORDS)
      && Holds(w.mem, ref + n + 7, [Xt(BRANCH), Off(ref - (ref + n + 7) - 1)])
  {
    hide Builtins, Holds, Off, Xt, Code, Len, Increment, Proper;
    LoopPieces(w, plain, body, ref);
    var n := Len(body) + |Increment(plain)|;
    assert ref + n + 9 - (ref + 1) - 1 == n + 7 && ref - (ref + n + 7) - 1 == 0 - n - 8;
    assert ref + n + 9 - (ref + 3) == n + 6;
  }

  lemma {:induction false} IterateRuns(w: World, plain: bool, body: Stmt, ref: int, c: Ctx, gas: nat)
    requires LoopInPlace(w, plain, body, ref)
    ensures var end := ref + Len(body) + |Increment(plain)| + 9;
      From(w, AtCell(ref, c), gas) == Then(w, Iterate(w, plain, body, ref, c, gas), end, end)
    decreases gas, body, 3
  {
    hide Builtins, From, Holds, Code, Off, Xt, Spend, Test, RunWords, Advance, Eval, InPlace,
      LoopInPlace, Increment, Len;
    LoopParts(w, plain, body, ref);
    LoopWordsAreNoExit(w);
    var n := Len(body) + |Increment(plain)|;
    var end := ref + n + 9;
    StepWords(w, [Xt(INVERT)], ref, c, gas);
    var i := RunWords(w, [Xt(INVERT)], ref, c, gas);
    if i.Normal? {
      StepBranch0(w, ref + 1, end, i.c, i.gas);
      var t := Test(w, i.c, i.gas);
      if t.Normal? && !Holds0(i.c) {
        StmtRuns(w, body, ref + 3, end, t.c, t.gas);
        var x := Eval(w, body, ref + 3, t.c, t.gas);
        if x.Normal? {
          RoundRuns(w, plain, body, ref, x.c, x.gas);
        }
      }
    }
  }

  /** The end of a round: increment, stop test, and the branch to the next round. */
  lemma {:induction false} RoundRuns(w: World, plain: bool, body: Stmt, ref: int, c: Ctx, gas: nat)
    requires LoopInPlace(w, plain, body, ref)
    ensures var n := Len(body) + |Increment(plain)|;
      var end := ref + n + 9;
      var y := Advance(w, plain, ref + 3 + Len(body), c, gas);
      var z := if y.Normal? then Spend(w, y.c, y.gas) else y;
      From(w, AtCell(ref + 3 + Len(body), c), gas) ==
        if z.Normal? then Then(w, Iterate(w, plain, body, ref, z.c, z.gas), end, end) else Then(w, z, end, end)
    decreases gas, body, 2
  {
    hide Builtins, From, Holds, Code, Off, Xt, Spend, Advance, InPlace, LoopInPlace, Increment, Iterate, Len;
    LoopParts(w, plain, body, ref);
    var n := Len(body) + |Increment(plain)|;
    var m := ref + 3 + Len(body);
    AdvanceRuns(w, plain, m, c, gas);
    var y := Advance(w, plain, m, c, gas);
    if y.Normal? {
      StepBranch(w, ref + n + 7, ref, y.c, y.gas);
      var z := Spend(w, y.c, y.gas);
      if z.Normal? {
        IterateRuns(w, plain, body, ref, z.c, z.gas);
      }
    }
  }

  lemma UnloopRuns(w: World, a: int, c: Ctx, gas: nat)
    requires Builtins(w) && Holds(w.mem, a, [Xt(UNLOOP)])
    ensures From(w, AtCell(a, c), gas) == Then(w, RunWords(w, [Xt(UNLOOP)], a, c, gas), a + 1, 0)
  {
    hide Builtins, From, Holds, Xt, RunWords;
    LoopWordsAreNoExit(w);
    StepWords(w, [Xt(UNLOOP)], a, c, gas);
  }

  lemma DoCode(query: bool, plain: bool, q: Stmt, d: int)
    ensures Code(Do(query, plain, q), At(d)) == DoCells(query, plain, Code(q, At(LoopExit(plain, q))))
    ensures Proper(Do(query, plain, q)) ==> Proper(q)
  {
  }

  lemma LoopIsInPlace(w: World, query: bool, plain: bool, q: Stmt, a: int, exit: int)
    requires InPlace(w, Do(query, plain, q), a, exit)
    ensures var ref := a + |DoPrefix(query)|;
      && Holds(w.mem, a, DoPrefix(query))
      && LoopInPlace(w, plain, q, ref)
      && Holds(w.mem, ref + Len(q) + |Increment(plain)| + 9, [Xt(UNLOOP)])
  {
    DoCode(query, plain, q, exit - a);
    hide Builtins, Holds, Off, Xt, LoopCells, DoCells, DoPrefix, Increment, Code, Proper;
    DoPieces(w.mem, a, query, plain, Code(q, At(LoopExit(plain, q))));
  }

  lemma DoPieces(mem: seq<int>, a: int, query: bool, plain: bool, body: seq<int>)
    requires Holds(mem, a, DoCells(query, plain, body))
    ensures var n, ref := |body| + |Increment(plain)|, a + |DoPrefix(query)|;
      && Holds(mem, a, DoPrefix(query))
      && Holds(mem, ref, LoopCells(plain, body, Off(n + 7)))
      && Holds(mem, ref + n + 9, [Xt(UNLOOP)])
  {
    hide Holds, Xt, Off, DoPrefix, Increment;
    var cells := LoopCells(plain, body, Off(|body| + |Increment(plain)| + 7));
    HoldsSplit(mem, a, DoPrefix(query), cells + [Xt(UNLOOP)]);
    HoldsSplit(mem, a + |DoPrefix(query)|, cells, [Xt(UNLOOP)]);
  }

  lemma {:induction false} DoRuns(w: World, query: bool, plain: bool, q: Stmt, a: int, exit: int, c: Ctx, gas: nat)
    requires InPlace(w, Do(query, plain, q), a, exit)
    ensures var p := Do(query, plain, q);
      From(w, AtCell(a, c), gas) == Then(w, EvalDo(w, query, plain, q, a, c, gas), a + Len(p), exit)
    decreases gas, Do(query, plain, q), 0
  {
    hide Builtins, From, Holds, Off, Xt, RunWords, Enter, Iterate, LoopCells, DoCells, DoPrefix, Increment, Eval;
    hide Spend, Test, RunWord, Literal;
    hide LoopInPlace, Code;
    var ref := a + |DoPrefix(query)|;
    var n := Len(q) + |Increment(plain)|;
    LoopIsInPlace(w, query, plain, q, a, exit);
    EnterRuns(w, query, a, c, gas);
    var x := Enter(w, query, a, c, gas);
    if x.Normal? {
      IterateRuns(w, plain, q, ref, x.c, x.gas);
      var y := Iterate(w, plain, q, ref, x.c, x.gas);
      if y.Normal? || y.Left? {
        UnloopRuns(w, ref + n + 9, y.c, y.gas);
      }
    }
  }

  // ----- CASE -----

  /** What stands where in the code of a CASE. */
  lemma ArmsParts(w: World, arms: Arms, a: int, end: int)
    requires Builtins(w) && ProperArms(arms)
    requires end == a + ArmsLen(arms)
    requires Holds(w.mem, a, ArmsCode(arms, At(end - a)))
    ensures match arms
      case Default(q) => InPlace(w, q, a, end) && Holds(w.mem, a + Len(q), [Xt(DROP)]) && end == a + Len(q) + 1
      case Of(q, r, rest) =>
        var m, n := a + Len(q), Len(r);
        && InPlace(w, q, a, end) && InPlace(w, r, m + 5, end)
        && Holds(w.mem, m, [Xt(OVER), Xt(EQUALS)])
        && Holds(w.mem, m + 2, [Xt(BRANCH0), Off(m + n + 7 - (m + 2) - 1)])
        && Holds(w.mem, m + 4, [Xt(DROP)])
        && Holds(w.mem, m + n + 5, [Xt(BRANCH), Off(end - (m + n + 5) - 1)])
        && ProperArms(rest) && end == m + n + 7 + ArmsLen(rest)
        && Holds(w.mem, m + n + 7, ArmsCode(rest, At(end - (m + n + 7))))
  {
    hide Builtins, Holds, Off, Xt, OfCells, Code, ArmsCode, Proper, ProperArms, Len, ArmsLen;
    ArmsIs(arms, At(end - a));
    Bounds(w, a, ArmsCode(arms, At(end - a)));
    match arms
    case Default(q) =>
      HoldsSplit(w.mem, a, Code(q, At(end - a)), [Xt(DROP)]);
    case Of(q, r, rest) => ClauseParts(w, q, r, rest, a, end);
  }

  lemma ClauseParts(w: World, q: Stmt, r: Stmt, rest: Arms, a: int, end: int)
    requires Builtins(w) && ProperArms(Of(q, r, rest))
    requires end == a + ArmsLen(Of(q, r, rest))
    requires Holds(w.mem, a, ArmsCode(Of(q, r, rest), At(end - a)))
    ensures var m, n := a + Len(q), Len(r);
      && InPlace(w, q, a, end) && InPlace(w, r, m + 5, end)
      && Holds(w.mem, m, [Xt(OVER), Xt(EQUALS)])
      && Holds(w.mem, m + 2, [Xt(BRANCH0), Off(m + n + 7 - (m + 2) - 1)])
      && Holds(w.mem, m + 4, [Xt(DROP)])
      && Holds(w.mem, m + n + 5, [Xt(BRANCH), Off(end - (m + n + 5) - 1)])
      && ProperArms(rest) && end == m + n + 7 + ArmsLen(rest)
      && Holds(w.mem, m + n + 7, ArmsCode(rest, At(end - (m + n + 7))))
  {
    hide Builtins, Holds, Off, Xt, OfCells, Code, ArmsCode, Proper, ProperArms, Len, ArmsLen;
    ArmsIs(Of(q, r, rest), At(end - a));
    Bounds(w, a, ArmsCode(Of(q, r, rest), At(end - a)));
    var m, n := a + Len(q), Len(r);
    assert end - a - (Len(q) + 5) == end - (m + 5) && end - a - (Len(q) + n + 6) == end - (m + n + 5) - 1;
    assert end - a - (Len(q) + n + 7) == end - (m + n + 7) && m + n + 7 - (m + 2) - 1 == n + 4;
    OfPieces(w.mem, a, Code(q, At(end - a)), Code(r, At(end - (m + 5))), Off(end - (m + n + 5) - 1),
      ArmsCode(rest, At(end - (m + n + 7))));
  }

  lemma ArmsIs(arms: Arms, t: Target)
    requires t.At?
    ensures match arms
      case Default(q) =>
        ArmsCode(arms, t) == Code(q, t) + [Xt(DROP)] && ArmsLen(arms) == Len(q) + 1 && ProperArms(arms) == Proper(q)
      case Of(q, r, rest) =>
        var m, n := Len(q), Len(r);
        && ArmsCode(arms, t) == OfCells(Code(q, t), Code(r, Shift(t, m + 5)), Off(t.d - (m + n + 6)),
             ArmsCode(rest, Shift(t, m + n + 7)))
        && ArmsLen(arms) == m + n + 7 + ArmsLen(rest)
        && ProperArms(arms) == (Proper(q) && Proper(r) && ProperArms(rest))
  {
    hide OfCells, Off, Xt, Len, Code;
  }

  lemma {:induction false} ArmsRun(w: World, arms: Arms, a: int, end: int, c: Ctx, gas: nat)
    requires Builtins(w) && ProperArms(arms)
    requires end == a + ArmsLen(arms)
    requires Holds(w.mem, a, ArmsCode(arms, At(end - a)))
    ensures From(w, AtCell(a, c), gas) == Then(w, EvalArms(w, arms, a, c, gas), end, end)
    decreases gas, arms, 2
  {
    hide Builtins, From, Holds, Off, Xt, Spend, Test, RunWords, Eval, Code, ArmsCode, InPlace, ProperArms, Len, ArmsLen;
    LoopWordsAreNoExit(w);
    Bounds(w, a, ArmsCode(arms, At(end - a)));
    ArmsParts(w, arms, a, end);
    match arms
    case Default(q) =>
      StmtRuns(w, q, a, end, c, gas);
      var x := Eval(w, q, a, c, gas);
      if x.Normal? {
        StepWords(w, [Xt(DROP)], a + Len(q), x.c, x.gas);
      }
    case Of(q, r, rest) =>
      var m := a + Len(q);
      var n := Len(r);
      StmtRuns(w, q, a, end, c, gas);
      var x := Eval(w, q, a, c, gas);
      if x.Normal? {
        StepWords(w, [Xt(OVER), Xt(EQUALS)], m, x.c, x.gas);
        var e := RunWords(w, [Xt(OVER), Xt(EQUALS)], m, x.c, x.gas);
        if e.Normal? {
          StepBranch0(w, m + 2, m + n + 7, e.c, e.gas);
          var t := Test(w, e.c, e.gas);
          if t.Normal? {
            if Holds0(e.c) {
              ArmsRun(w, rest, m + n + 7, end, t.c, t.gas);
            } else {
              StepWords(w, [Xt(DROP)], m + 4, t.c, t.gas);
              var d := RunWords(w, [Xt(DROP)], m + 4, t.c, t.gas);
              if d.Normal? {
                StmtRuns(w, r, m + 5, end, d.c, d.gas);
                var y := Eval(w, r, m + 5, d.c, d.gas);
                if y.Normal? {
                  StepBranch(w, m + n + 5, end, y.c, y.gas);
                }
              }
            }
          }
        }
      }
  }

  lemma OfPieces(mem: seq<int>, a: int, test: seq<int>, body: seq<int>, end: int, rest: seq<int>)
    requires Holds(mem, a, OfCells(test, body, end, rest))
    ensures var m, n := a + |test|, |body|;
      && Holds(mem, a, test)
      && Holds(mem, m, [Xt(OVER), Xt(EQUALS)])
      && Holds(mem, m + 2, [Xt(BRANCH0), Off(n + 4)])
      && Holds(mem, m + 4, [Xt(DROP)])
      && Holds(mem, m + 5, body)
      && Holds(mem, m + n + 5, [Xt(BRANCH), end])
      && Holds(mem, m + n + 7, rest)
  {
    hide Holds, Off, Xt;
    var m, n := a + |test|, |body|;
    var pick, skip, hop := [Xt(OVER), Xt(EQUALS)], [Xt(BRANCH0), Off(n + 4)], [Xt(BRANCH), end];
    var more := body + (hop + rest);
    assert OfCells(test, body, end, rest) == test + (pick + (skip + ([Xt(DROP)] + more)));
    HoldsSplit(mem, a, test, pick + (skip + ([Xt(DROP)] + more)));
    HoldsSplit(mem, m, pick, skip + ([Xt(DROP)] + more));
    HoldsSplit(mem, m + 2, skip, [Xt(DROP)] + more);
    HoldsSplit(mem, m + 4, [Xt(DROP)], more);
    HoldsSplit(mem, m + 5, body, hop + rest);
    HoldsSplit(mem, m + n + 5, hop, rest);
  }
}
