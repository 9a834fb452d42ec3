/** What compiled control structures compute, told by stacks and numbers alone: definitions made of the words
    of the source, called as the machine calls them. */
module ControlLaws {
  import opened Words
  import opened Machine
  import opened Frames
  import opened Structured
  import Compiling
  import opened Definitions
  import Correctness
  import CountedLoops
  import LoopStep

  // ----- the meaning of some words -----

  /** Room for one call and for three more cells of data. */
  predicate Roomy(w: World, c: Ctx, below: seq<int>) {
    0 <= c.tr0 <= |c.rs| < w.rcap && |below| + 3 <= w.dcap
  }

  lemma PushesLit(w: World, n: int, a: int, c: Ctx, ds: seq<int>, gas: nat)
    requires c.tr0 <= |c.rs| < w.rcap && |ds| < w.dcap && 0 < gas
    ensures Eval(w, Lit(n), a, c.(ds := ds), gas) == Normal(c.(ds := ds + [n]), gas - 1)
  {
  }

  /** A data word, with what it makes of the stack. */
  lemma RunsData(w: World, b: Builtin, a: int, c: Ctx, before: seq<int>, after: seq<int>, gas: nat)
    requires Builtins(w) && IsData(b) && c.tr0 <= |c.rs| < w.rcap && 0 < a && 0 < gas
    requires Pops(b) <= |before| && |before| + Room(b) <= w.dcap && Effect(b, before) == after
    ensures RunWord(w, Xt(b), a, c.(ds := before), gas) == Normal(c.(ds := after), gas - 1)
    ensures RunWords(w, [Xt(b)], a, c.(ds := before), gas) == Normal(c.(ds := after), gas - 1)
    ensures Eval(w, Word(Xt(b)), a, c.(ds := before), gas) == Normal(c.(ds := after), gas - 1)
  {
    LoopStep.DataWord(w, b, a, c.(ds := before), gas);
    hide RunWord, Builtins, Effect, Pops, Room;
    assert [Xt(b)][1..] == [];
  }

  // ----- CASE -----

  /** n OF m ENDOF */
  datatype Clause = Clause(test: int, value: int)

  /** What stands before ENDCASE: nothing, or m SWAP, which leaves m. */
  datatype Otherwise = Nothing | Leaves(value: int)

  function Clauses(clauses: seq<Clause>, otherwise: Otherwise): Arms {
    if clauses == [] then
      Default(match otherwise case Nothing => Skip case Leaves(m) => Seq(Lit(m), Word(Xt(SWAP))))
    else Of(Lit(clauses[0].test), Lit(clauses[0].value), Clauses(clauses[1..], otherwise))
  }

  /** The value of the first clause that tests for x, or else the default. */
  function Chosen(clauses: seq<Clause>, otherwise: Otherwise, x: int): seq<int> {
    if clauses == [] then (match otherwise case Nothing => [] case Leaves(m) => [m])
    else if clauses[0].test == x then [clauses[0].value]
    else Chosen(clauses[1..], otherwise, x)
  }

  /** The same by position. */
  lemma {:induction false} ChosenIsFirst(clauses: seq<Clause>, otherwise: Otherwise, x: int, i: nat)
    requires i <= |clauses| && forall j :: 0 <= j < i ==> clauses[j].test != x
    ensures i < |clauses| && clauses[i].test == x ==> Chosen(clauses, otherwise, x) == [clauses[i].value]
    ensures i == |clauses| ==>
      Chosen(clauses, otherwise, x) == if otherwise.Leaves? then [otherwise.value] else []
  {
    if i == 0 {
    } else {
      ChosenIsFirst(clauses[1..], otherwise, x, i - 1);
    }
  }

  lemma DefaultLeaves(w: World, otherwise: Otherwise, a: int, c: Ctx, below: seq<int>, x: int, gas: nat)
    requires Builtins(w) && Roomy(w, c, below) && 0 < a && 3 <= gas
    ensures var r := EvalArms(w, Clauses([], otherwise), a, c.(ds := below + [x]), gas);
      r.Normal? && r.c == c.(ds := below + Chosen([], otherwise, x)) && gas - 3 <= r.gas
  {
    hide Builtins, RunWord, RunWords, Effect, Xt, Literal;
    match otherwise
    case Nothing =>
      DropsTop(below, x);
      RunsData(w, DROP, a, c, below + [x], below, gas);
      assert below + [] == below;
    case Leaves(m) =>
      var q := Seq(Lit(m), Word(Xt(SWAP)));
      PushesLit(w, m, a, c, below + [x], gas);
      SwapsTop(below, x, m);
      RunsData(w, SWAP, a + 2, c, below + [x] + [m], below + [m, x], gas - 1);
      Correctness.EvalSeq(w, Lit(m), Word(Xt(SWAP)), a, c.(ds := below + [x]), gas);
      assert Eval(w, q, a, c.(ds := below + [x]), gas) == Normal(c.(ds := below + [m, x]), gas - 2);
      DropsTop(below + [m], x);
      assert below + [m] + [x] == below + [m, x];
      RunsData(w, DROP, a + 3, c, below + [m, x], below + [m], gas - 2);
  }

  lemma DropsTop(below: seq<int>, x: int)
    ensures Effect(DROP, below + [x]) == below
  {
  }

  lemma SwapsTop(below: seq<int>, x: int, m: int)
    ensures Effect(SWAP, below + [x] + [m]) == below + [m, x]
  {
  }

  /** OVER = and the branch on the result. */
  lemma Compares(w: World, n: int, a: int, c: Ctx, below: seq<int>, x: int, gas: nat)
    requires Builtins(w) && Roomy(w, c, below) && 0 < a && 3 <= gas
    ensures var e := RunWords(w, [Xt(OVER), Xt(EQUALS)], a, c.(ds := below + [x, n]), gas);
      && e.Normal? && e.gas == gas - 2 && 0 < |e.c.ds|
      && Test(w, e.c, e.gas) == Normal(c.(ds := below + [x]), gas - 3)
      && (Holds0(e.c) <==> n != x)
  {
    WidthFacts();
    hide Builtins, RunWord;
    var xs := [Xt(OVER), Xt(EQUALS)];
    assert Effect(OVER, below + [x, n]) == below + [x, n, x];
    RunsData(w, OVER, a, c, below + [x, n], below + [x, n, x], gas);
    var f := Flag(n == x);
    assert Effect(EQUALS, below + [x, n, x]) == below + [x, f];
    RunsData(w, EQUALS, a + 1, c, below + [x, n, x], below + [x, f], gas - 1);
    assert xs[1..] == [Xt(EQUALS)];
    assert (below + [x, f])[..|below| + 1] == below + [x];
  }

  lemma {:induction false} ClausesSelect(w: World, clauses: seq<Clause>, otherwise: Otherwise, a: int, c: Ctx,
                                         below: seq<int>, x: int, gas: nat)
    requires Builtins(w) && Roomy(w, c, below) && 0 < a && 4 * |clauses| + 7 <= gas
    ensures var r := EvalArms(w, Clauses(clauses, otherwise), a, c.(ds := below + [x]), gas);
      r.Normal? && r.c == c.(ds := below + Chosen(clauses, otherwise, x)) && gas - 4 * |clauses| - 6 <= r.gas
  {
    hide Builtins, EvalArms, Eval;
    if clauses == [] {
      DefaultLeaves(w, otherwise, a, c, below, x, gas);
    } else {
      var n, m, rest := clauses[0].test, clauses[0].value, clauses[1..];
      ClauseIs(w, n, m, Clauses(rest, otherwise), a, c, below, x, gas);
      if n != x {
        ClausesSelect(w, rest, otherwise, a + 11, c, below, x, gas - 4);
      }
    }
  }

  /** One clause: its value if the selector is the one it tests for, or else the clauses behind it. */
  lemma ClauseIs(w: World, n: int, m: int, rest: Arms, a: int, c: Ctx, below: seq<int>, x: int, gas: nat)
    requires Builtins(w) && Roomy(w, c, below) && 0 < a && 7 <= gas
    ensures EvalArms(w, Of(Lit(n), Lit(m), rest), a, c.(ds := below + [x]), gas) ==
      if n != x then EvalArms(w, rest, a + 11, c.(ds := below + [x]), gas - 4)
      else Normal(c.(ds := below + [m]), gas - 7)
  {
    hide Builtins, RunWord, RunWords, Effect, Xt, Test, Holds0;
    PushesLit(w, n, a, c, below + [x], gas);
    assert below + [x] + [n] == below + [x, n];
    Compares(w, n, a + 2, c, below, x, gas - 1);
    if n == x {
      DropsTop(below, x);
      RunsData(w, DROP, a + 6, c, below + [x], below, gas - 4);
      PushesLit(w, m, a + 7, c, below, gas - 5);
    }
  }

  /** A definition of CASE n1 OF m1 ENDOF n2 OF m2 ENDOF ... ENDCASE, with m SWAP before ENDCASE or without,
      takes the selector off the stack and leaves the value of the first clause that tests for it, or else
      the default. */
  lemma CaseSelects(w: World, xt: int, clauses: seq<Clause>, otherwise: Otherwise, k: Compiling.Draft, s: State,
                    below: seq<int>, x: int, gas: nat)
    requires var p := Case(Clauses(clauses, otherwise)); Compilable(w.dcap, k, p) && Defined(w, xt, p, k)
    requires Framed(w, s) && s.ds == below + [x]
    requires |s.rs| + 3 <= w.rcap && |below| + 3 <= w.dcap && 4 * |clauses| + 9 <= gas
    ensures var r := Execute(w, true, xt, s, gas);
      r.Done? && r.s == s.(ip := if s.ip == 0 then 0 else s.ip + 1, ds := below + Chosen(clauses, otherwise, x))
  {
    hide Compilable, Defined, Execute, Eval, EvalArms;
    var arms := Clauses(clauses, otherwise);
    Premises(w, xt, Case(arms), k);
    var c := Inside(s);
    ClausesSelect(w, clauses, otherwise, xt + 2, c, below, x, gas - 1);
    EvalCase(w, arms, xt + 2, c, gas - 1);
    Concludes(w, xt, Case(arms), k, s, below + Chosen(clauses, otherwise, x), gas);
  }

  lemma EvalCase(w: World, arms: Arms, a: int, c: Ctx, gas: nat)
    ensures var x := EvalArms(w, arms, a, c, gas);
      Eval(w, Case(arms), a, c, gas) == if x.Left? then Normal(x.c, x.gas) else x
  {
    hide EvalArms;
  }

  lemma Premises(w: World, xt: int, p: Stmt, k: Compiling.Draft)
    requires Compilable(w.dcap, k, p) && Defined(w, xt, p, k)
    ensures Builtins(w) && 0 < xt + 2
  {
    hide Builtins;
  }

  /** The frame of a word that was called from s. */
  function Inside(s: State): Ctx {
    Ctx(s.ds, s.rs + [if s.ip != 0 then s.ip + 1 else 0, s.tr0], |s.rs| + 2)
  }

  /** A definition whose body ends normally, or by EXIT, returns with the data stack of its body. */
  lemma Concludes(w: World, xt: int, p: Stmt, k: Compiling.Draft, s: State, ds: seq<int>, gas: nat)
    requires Compilable(w.dcap, k, p) && Defined(w, xt, p, k) && Framed(w, s)
    requires 0 < gas && |s.rs| + 2 <= w.rcap
    requires var x := Eval(w, p, xt + 2, Inside(s), gas - 1);
      ((x.Normal? && 0 < x.gas) || x.Exited?) && x.c == Inside(s).(ds := ds)
    ensures var r := Execute(w, true, xt, s, gas);
      r.Done? && r.s == s.(ip := if s.ip == 0 then 0 else s.ip + 1, ds := ds)
  {
    hide Compilable, Defined, Eval, Execute;
    DefinitionIsCorrect(w, xt, p, k, s, gas);
  }

  // ----- IF -----

  lemma Tests(w: World, c: Ctx, below: seq<int>, x: int, gas: nat)
    requires c.tr0 <= |c.rs| < w.rcap && 0 < gas
    ensures var d := c.(ds := below + [x]);
      Test(w, d, gas) == Normal(c.(ds := below), gas - 1) && (Holds0(d) <==> x == 0)
  {
  }

  /** IF m ELSE n THEN and IF m THEN: the flag goes, and chooses. */
  lemma IfSelects(w: World, xt: int, m: int, n: int, k: Compiling.Draft, s: State, below: seq<int>, x: int, gas: nat)
    requires Framed(w, s) && s.ds == below + [x] && |s.rs| + 3 <= w.rcap && |below| + 3 <= w.dcap && 6 <= gas
    ensures var p := IfElse(Lit(m), Lit(n));
      Compilable(w.dcap, k, p) && Defined(w, xt, p, k) ==>
        var r := Execute(w, true, xt, s, gas);
        r.Done? && r.s == s.(ip := if s.ip == 0 then 0 else s.ip + 1, ds := below + [if x != 0 then m else n])
    ensures var p := If(Lit(m));
      Compilable(w.dcap, k, p) && Defined(w, xt, p, k) ==>
        var r := Execute(w, true, xt, s, gas);
        r.Done? && r.s == s.(ip := if s.ip == 0 then 0 else s.ip + 1, ds := below + if x != 0 then [m] else [])
  {
    hide Compilable, Defined, Execute, Call;
    var both, one, c := IfElse(Lit(m), Lit(n)), If(Lit(m)), Inside(s);
    Tests(w, c, below, x, gas - 1);
    PushesLit(w, m, xt + 4, c, below, gas - 2);
    PushesLit(w, n, xt + 8, c, below, gas - 2);
    assert below + [] == below;
    IfEvaluates(w, m, n, xt + 2, c, below, x, gas - 1);
    if Compilable(w.dcap, k, both) && Defined(w, xt, both, k) {
      Concludes(w, xt, both, k, s, below + [if x != 0 then m else n], gas);
    }
    if Compilable(w.dcap, k, one) && Defined(w, xt, one, k) {
      Concludes(w, xt, one, k, s, below + if x != 0 then [m] else [], gas);
    }
  }

  lemma IfEvaluates(w: World, m: int, n: int, a: int, c: Ctx, below: seq<int>, x: int, gas: nat)
    requires c.tr0 <= |c.rs| < w.rcap && |below| < w.dcap && 4 <= gas
    ensures var r := Eval(w, IfElse(Lit(m), Lit(n)), a, c.(ds := below + [x]), gas);
      r.Normal? && r.c == c.(ds := below + [if x != 0 then m else n]) && gas - 3 <= r.gas
    ensures var r := Eval(w, If(Lit(m)), a, c.(ds := below + [x]), gas);
      r.Normal? && r.c == c.(ds := below + if x != 0 then [m] else []) && gas - 2 <= r.gas
  {
    Tests(w, c, below, x, gas);
    PushesLit(w, m, a + 2, c, below, gas - 1);
    PushesLit(w, n, a + 6, c, below, gas - 1);
    assert below + [] == below;
    hide Test, Holds0, Literal;
    assert Len(Lit(m)) == 2;
  }

  // ----- loops without a count -----

  /** 1 - */
  const LESS: Stmt := Seq(Lit(1), Word(Xt(MINUS)))

  lemma Lessens(w: World, a: int, c: Ctx, below: seq<int>, x: Usize, gas: nat)
    requires Builtins(w) && Roomy(w, c, below) && 0 < a && 2 <= gas && 0 < x
    ensures Eval(w, LESS, a, c.(ds := below + [x]), gas) == Normal(c.(ds := below + [x - 1]), gas - 2)
  {
    hide Builtins, RunWord, Eval;
    PushesLit(w, 1, a, c, below + [x], gas);
    ModIs(x - 1, MODULUS, 0, x - 1);
    assert Effect(MINUS, below + [x] + [1]) == below + [x - 1];
    RunsData(w, MINUS, a + 2, c, below + [x] + [1], below + [x - 1], gas - 1);
    Correctness.EvalSeq(w, Lit(1), Word(Xt(MINUS)), a, c.(ds := below + [x]), gas);
    assert Len(Lit(1)) == 2;
  }

  lemma Doubles(w: World, a: int, c: Ctx, below: seq<int>, x: int, gas: nat)
    requires Builtins(w) && Roomy(w, c, below) && 0 < a && 1 <= gas
    ensures Eval(w, Word(Xt(DUP)), a, c.(ds := below + [x]), gas) == Normal(c.(ds := below + [x, x]), gas - 1)
  {
    hide Builtins;
    assert Effect(DUP, below + [x]) == below + [x, x];
    RunsData(w, DUP, a, c, below + [x], below + [x, x], gas);
  }

  /** BEGIN DUP WHILE 1 - REPEAT counts down to zero. */
  lemma {:induction false} CountsDown(w: World, a: int, c: Ctx, below: seq<int>, x: Usize, gas: nat)
    requires Builtins(w) && Roomy(w, c, below) && 0 < a && 5 * x + 2 <= gas
    ensures EvalWhile(w, Word(Xt(DUP)), LESS, a, c.(ds := below + [x]), gas) ==
      Normal(c.(ds := below + [0]), gas - 5 * x - 2)
    decreases x
  {
    hide Builtins, Eval, Test, Holds0, Spend;
    Doubles(w, a, c, below, x, gas);
    assert below + [x, x] == below + [x] + [x];
    Tests(w, c, below + [x], x, gas - 1);
    if x == 0 {
    } else {
      Lessens(w, a + 3, c, below, x, gas - 2);
      Spends(w, c.(ds := below + [x - 1]), gas - 4);
      CountsDown(w, a, c, below, x - 1, gas - 5);
    }
  }

  lemma Spends(w: World, c: Ctx, gas: nat)
    requires c.tr0 <= |c.rs| < w.rcap && 0 < gas
    ensures Spend(w, c, gas) == Normal(c, gas - 1)
  {
  }

  /** BEGIN 1 - DUP 0 = UNTIL counts down to zero and runs its body at least once. */
  const UNTIL_ZERO: Stmt := Seq(LESS, Seq(Word(Xt(DUP)), Seq(Lit(0), Word(Xt(EQUALS)))))

  lemma EqualsZero(w: World, a: int, c: Ctx, below: seq<int>, x: int, gas: nat)
    requires Builtins(w) && Roomy(w, c, below) && 0 < a && 2 <= gas
    ensures Eval(w, Seq(Lit(0), Word(Xt(EQUALS))), a, c.(ds := below + [x, x]), gas) ==
      Normal(c.(ds := below + [x] + [Flag(x == 0)]), gas - 2)
  {
    hide Builtins, RunWord, Eval, Flag;
    PushesLit(w, 0, a, c, below + [x, x], gas);
    assert Effect(EQUALS, below + [x, x] + [0]) == below + [x] + [Flag(x == 0)];
    RunsData(w, EQUALS, a + 2, c, below + [x, x] + [0], below + [x] + [Flag(x == 0)], gas - 1);
    Correctness.EvalSeq(w, Lit(0), Word(Xt(EQUALS)), a, c.(ds := below + [x, x]), gas);
    assert Len(Lit(0)) == 2;
  }

  lemma UntilRound(w: World, a: int, c: Ctx, below: seq<int>, x: Usize, gas: nat)
    requires Builtins(w) && Roomy(w, c, below) && 0 < a && 5 <= gas && 0 < x
    ensures Eval(w, UNTIL_ZERO, a, c.(ds := below + [x]), gas) ==
      Normal(c.(ds := below + [x - 1] + [Flag(x - 1 == 0)]), gas - 5)
  {
    hide Builtins, RunWord, Eval, Flag;
    var d := c.(ds := below + [x]);
    Lessens(w, a, c, below, x, gas);
    Doubles(w, a + 3, c, below, x - 1, gas - 2);
    EqualsZero(w, a + 4, c, below, x - 1, gas - 3);
    var last := Seq(Lit(0), Word(Xt(EQUALS)));
    Correctness.EvalSeq(w, Word(Xt(DUP)), last, a + 3, c.(ds := below + [x - 1]), gas - 2);
    Correctness.EvalSeq(w, LESS, Seq(Word(Xt(DUP)), last), a, d, gas);
    assert Len(LESS) == 3 && Len(Word(Xt(DUP))) == 1;
  }

  lemma {:induction false} UntilCounts(w: World, a: int, c: Ctx, below: seq<int>, x: Usize, gas: nat)
    requires Builtins(w) && Roomy(w, c, below) && 0 < a && 0 < x && 6 * x <= gas
    ensures Eval(w, Until(UNTIL_ZERO), a, c.(ds := below + [x]), gas) == Normal(c.(ds := below + [0]), gas - 6 * x)
    decreases x
  {
    WidthFacts();
    hide Builtins, Test, Holds0, Spend, Eval, Roomy;
    RoomyRoom(w, c, below);
    UntilRound(w, a, c, below, x, gas);
    Tests(w, c, below + [x - 1], Flag(x - 1 == 0), gas - 5);
    UntilIs(w, UNTIL_ZERO, a, c.(ds := below + [x]), gas);
    if x == 1 {
    } else {
      UntilCounts(w, a, c, below, x - 1, gas - 6);
    }
  }

  lemma RoomyRoom(w: World, c: Ctx, below: seq<int>)
    requires Roomy(w, c, below)
    ensures c.tr0 <= |c.rs| < w.rcap
  {
  }

  lemma UntilIs(w: World, q: Stmt, a: int, c: Ctx, gas: nat)
    ensures Eval(w, Until(q), a, c, gas) ==
      var x := Eval(w, q, a, c, gas);
      if !x.Normal? then x
      else
        var t := Test(w, x.c, x.gas);
        if t.Normal? && Holds0(x.c) then Eval(w, Until(q), a, t.c, t.gas) else t
  {
    hide Spend, Test, Literal, RunWord, EvalIfElse, EvalWhile, EvalDo, EvalArms, Holds0;
  }

  /** A definition of BEGIN DUP WHILE 1 - REPEAT, on x, leaves zero after x rounds. */
  lemma WhileCounts(w: World, xt: int, k: Compiling.Draft, s: State, below: seq<int>, x: Usize, gas: nat)
    requires Framed(w, s) && s.ds == below + [x] && |s.rs| + 3 <= w.rcap && |below| + 3 <= w.dcap
    requires 5 * x + 4 <= gas
    requires var p := While(Word(Xt(DUP)), LESS); Compilable(w.dcap, k, p) && Defined(w, xt, p, k)
    ensures var r := Execute(w, true, xt, s, gas);
      r.Done? && r.s == s.(ip := if s.ip == 0 then 0 else s.ip + 1, ds := below + [0])
  {
    hide Compilable, Defined, Execute, Call, Eval, EvalWhile, Builtins;
    var p, c := While(Word(Xt(DUP)), LESS), Inside(s);
    Premises(w, xt, p, k);
    CountsDown(w, xt + 2, c, below, x, gas - 1);
    WhileIs(w, Word(Xt(DUP)), LESS, xt + 2, c, gas - 1);
    Concludes(w, xt, p, k, s, below + [0], gas);
  }

  /** A definition of BEGIN 1 - DUP 0 = UNTIL, on x other than zero, does so too. */
  lemma UntilIsCounted(w: World, xt: int, k: Compiling.Draft, s: State, below: seq<int>, x: Usize, gas: nat)
    requires Framed(w, s) && s.ds == below + [x] && |s.rs| + 3 <= w.rcap && |below| + 3 <= w.dcap
    requires 0 < x && 6 * x + 4 <= gas
    requires Compilable(w.dcap, k, Until(UNTIL_ZERO)) && Defined(w, xt, Until(UNTIL_ZERO), k)
    ensures var r := Execute(w, true, xt, s, gas);
      r.Done? && r.s == s.(ip := if s.ip == 0 then 0 else s.ip + 1, ds := below + [0])
  {
    hide Compilable, Defined, Execute, Call, Eval, Builtins;
    var p, c := Until(UNTIL_ZERO), Inside(s);
    Premises(w, xt, p, k);
    UntilCounts(w, xt + 2, c, below, x, gas - 1);
    Concludes(w, xt, p, k, s, below + [0], gas);
  }

  lemma WhileIs(w: World, q: Stmt, r: Stmt, a: int, c: Ctx, gas: nat)
    ensures Eval(w, While(q, r), a, c, gas) == EvalWhile(w, q, r, a, c, gas)
  {
    hide EvalWhile;
  }

  /** BEGIN DUP IF 1 - ELSE EXIT THEN AGAIN */
  const ROUND: Stmt := Seq(Word(Xt(DUP)), IfElse(LESS, Exit))

  lemma RoundIs(w: World, a: int, c: Ctx, below: seq<int>, x: Usize, gas: nat)
    requires Builtins(w) && Roomy(w, c, below) && 0 < a && 6 <= gas
    ensures Eval(w, ROUND, a, c.(ds := below + [x]), gas) ==
      if x == 0 then Exited(c.(ds := below + [0]), gas - 3) else Normal(c.(ds := below + [x - 1]), gas - 5)
  {
    hide Builtins, RunWord, Test, Holds0, Spend;
    Doubles(w, a, c, below, x, gas);
    assert below + [x, x] == below + [x] + [x];
    Tests(w, c, below + [x], x, gas - 1);
    if x != 0 {
      Lessens(w, a + 3, c, below, x, gas - 2);
      Spends(w, c.(ds := below + [x - 1]), gas - 4);
    }
    EitherIs(w, a + 1, c.(ds := below + [x, x]), gas - 1);
    Correctness.EvalSeq(w, Word(Xt(DUP)), IfElse(LESS, Exit), a, c.(ds := below + [x]), gas);
    assert Len(Word(Xt(DUP))) == 1;
  }

  lemma EitherIs(w: World, a: int, c: Ctx, gas: nat)
    ensures Eval(w, IfElse(LESS, Exit), a, c, gas) ==
      var t := Test(w, c, gas);
      if !t.Normal? then t
      else if Holds0(c) then (if t.gas == 0 then OutOfGas else Exited(t.c, t.gas - 1))
      else
        var x := Eval(w, LESS, a + 2, t.c, t.gas);
        if x.Normal? then Spend(w, x.c, x.gas) else x
  {
    hide Test, Holds0, Spend, RunWord, Literal;
    var t := Test(w, c, gas);
    if t.Normal? {
      ExitIs(w, a + Len(LESS) + 4, t.c, t.gas);
    }
  }

  lemma ExitIs(w: World, a: int, c: Ctx, gas: nat)
    ensures Eval(w, Exit, a, c, gas) == if gas == 0 then OutOfGas else Exited(c, gas - 1)
  {
  }

  lemma {:induction false} AgainExits(w: World, a: int, c: Ctx, below: seq<int>, x: Usize, gas: nat)
    requires Builtins(w) && Roomy(w, c, below) && 0 < a && 6 * x + 6 <= gas
    ensures var r := Eval(w, Again(ROUND), a, c.(ds := below + [x]), gas);
      r.Exited? && r.c == c.(ds := below + [0])
    decreases x
  {
    hide Builtins, Test, Holds0, Spend, Eval;
    RoundIs(w, a, c, below, x, gas);
    AgainIs(w, ROUND, a, c.(ds := below + [x]), gas);
    if x == 0 {
    } else {
      Spends(w, c.(ds := below + [x - 1]), gas - 5);
      AgainExits(w, a, c, below, x - 1, gas - 6);
    }
  }

  lemma AgainIs(w: World, q: Stmt, a: int, c: Ctx, gas: nat)
    ensures Eval(w, Again(q), a, c, gas) ==
      var x := Eval(w, q, a, c, gas);
      if !x.Normal? then x
      else
        var z := Spend(w, x.c, x.gas);
        if z.Normal? then Eval(w, Again(q), a, z.c, z.gas) else z
  {
    hide Spend, Test, Literal, RunWord, EvalIfElse, EvalWhile, EvalDo, EvalArms, Holds0;
  }

  /** A definition of BEGIN DUP IF 1 - ELSE EXIT THEN AGAIN, on x, leaves zero: EXIT ends it. */
  lemma AgainEnds(w: World, xt: int, k: Compiling.Draft, s: State, below: seq<int>, x: Usize, gas: nat)
    requires Framed(w, s) && s.ds == below + [x] && |s.rs| + 3 <= w.rcap && |below| + 3 <= w.dcap
    requires 6 * x + 8 <= gas
    requires Compilable(w.dcap, k, Again(ROUND)) && Defined(w, xt, Again(ROUND), k)
    ensures var r := Execute(w, true, xt, s, gas);
      r.Done? && r.s == s.(ip := if s.ip == 0 then 0 else s.ip + 1, ds := below + [0])
  {
    hide Compilable, Defined, Execute, Call, Eval, Builtins;
    var p, c := Again(ROUND), Inside(s);
    Premises(w, xt, p, k);
    AgainExits(w, xt + 2, c, below, x, gas - 1);
    Concludes(w, xt, p, k, s, below + [0], gas);
  }

  // ----- LEAVE -----

  /** DO m LEAVE LOOP */
  lemma LeaveEvaluates(w: World, m: int, a: int, c: Ctx, limit: int, index: int, gas: nat)
    requires Builtins(w) && 0 < a && CountedLoops.LoopRoom(w, c, c.ds + [m]) && 9 <= gas
    ensures Eval(w, Do(false, true, Seq(Lit(m), Leave)), a, LoopStep.OnDs(c, [limit, index]), gas) ==
      Normal(c.(ds := c.ds + [m]), gas - 9)
  {
    hide Builtins, RunWord, RunWords, Enter, Iterate, Flag, Xt;
    var q := Seq(Lit(m), Leave);
    var ref := a + |DoPrefix(false)|;
    CountedLoops.DoEnters(w, a, c, limit, index, gas);
    LeavesAtOnce(w, m, ref, c, limit, index, gas - 4);
    var inner := CountedLoops.InLoop(c, c.ds + [m], limit, index);
    CountedLoops.UnloopEnds(w, ref + Len(q) + |Increment(true)| + 9, c, c.ds + [m], Normal(inner, gas - 8));
    CountedLoops.EvalDoIs(w, false, true, q, a, LoopStep.OnDs(c, [limit, index]), gas);
  }

  lemma LeavesAtOnce(w: World, m: int, ref: int, c: Ctx, limit: int, index: int, gas: nat)
    requires Builtins(w) && 0 < ref && CountedLoops.LoopRoom(w, c, c.ds) && 4 <= gas
    ensures var start := CountedLoops.InLoop(c, c.ds + [Flag(false)], limit, index);
      Iterate(w, true, Seq(Lit(m), Leave), ref, start, gas) ==
      Left(CountedLoops.InLoop(c, c.ds + [m], limit, index), gas - 4)
  {
    hide Builtins, RunWord, RunWords, Flag, Xt, Test, Holds0;
    var q, start := Seq(Lit(m), Leave), CountedLoops.InLoop(c, c.ds + [Flag(false)], limit, index);
    var body := CountedLoops.InLoop(c, c.ds, limit, index);
    CountedLoops.LoopGoesOn(w, ref, c, c.ds, limit, index, false, gas);
    CountedLoops.LoopGoesOn(w, ref, c, c.ds, limit, index, false, gas - 1);
    CountedLoops.IterateGoesOn(w, true, q, ref, start, gas);
    PushesLit(w, m, ref + 3, body, c.ds, gas - 2);
    Correctness.EvalSeq(w, Lit(m), Leave, ref + 3, body, gas - 2);
    Spends(w, CountedLoops.InLoop(c, c.ds + [m], limit, index), gas - 3);
  }

  /** A definition of DO m LEAVE LOOP leaves m, after one round, and the return stack as it was. */
  lemma LeaveLeaves(w: World, xt: int, m: int, k: Compiling.Draft, s: State, below: seq<int>, limit: int, index: int,
                    gas: nat)
    requires Framed(w, s) && s.ds == below + [limit, index] && |s.rs| + 11 <= w.rcap && |below| + 5 <= w.dcap
    requires 12 <= gas
    requires var p := Do(false, true, Seq(Lit(m), Leave)); Compilable(w.dcap, k, p) && Defined(w, xt, p, k)
    ensures var r := Execute(w, true, xt, s, gas);
      r.Done? && r.s == s.(ip := if s.ip == 0 then 0 else s.ip + 1, ds := below + [m])
  {
    hide Compilable, Defined, Execute, Call, Eval, Builtins;
    var p, c := Do(false, true, Seq(Lit(m), Leave)), Inside(s);
    Premises(w, xt, p, k);
    LeaveEvaluates(w, m, xt + 2, c.(ds := below), limit, index, gas - 1);
    assert LoopStep.OnDs(c.(ds := below), [limit, index]) == c;
    Concludes(w, xt, p, k, s, below + [m], gas);
  }
}
