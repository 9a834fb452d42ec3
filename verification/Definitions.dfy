/** Colon definitions as a whole: compile the text of a structured program, execute the token, and
    compare with the meaning of the program. */
module Definitions {
  import opened Machine
  import opened Threads
  import opened Frames
  import opened Structured
  import opened Correctness
  import opened Compiling
  import opened Emission

  /** The token at xt has its thread right behind it, and that is what compiling p has written. */
  ghost predicate Defined(w: World, xt: int, p: Stmt, k: Draft) {
    && Builtins(w) && xt in w.tokens && w.tokens[xt].Threaded?
    && k.here == xt + 2 && 0 < k.here
    && CompileBody(w.dcap, k, Text(p)).Ok?
    && w.mem == CompileBody(w.dcap, k, Text(p)).k.mem
  }

  /** A program none of whose data is taken for a placeholder, whose references fit on the data stack and
      whose code fits in memory. */
  ghost predicate Compilable(dcap: nat, k: Draft, p: Stmt) {
    && WellNested(p) && !Clashes(p, false) && Proper(p)
    && HasRoom(k, Len(p) + 2) && Clear(Len(p))
    && |k.ds| + Depth(p) <= dcap
  }

  /** The body of the definition, after EXIT. */
  function BodyRun(w: World, r: Result): Run {
    match r
    case Normal(c, g) => if g == 0 then Running else Finished(c, g - 1)
    case Left(c, g) => Broken
    case Exited(c, g) => Finished(c, g)
    case Strayed(s, g) => From(w, s, g)
    case Thrown(code, ds) => Failed(code, ds)
    case OutOfGas => Running
    case Faulted => Broken
  }

  /** Back in the caller s: the frame must be empty. */
  function Finish(s: State, r: Run): Run {
    if r.Finished? then
      if |r.c.rs| != r.c.tr0 then Failed(E_RSTKIMBALANCE, r.c.ds)
      else Finished(Ctx(r.c.ds, s.rs, s.tr0), r.gas)
    else r
  }

  /** What calling a definition of p amounts to. */
  function Call(w: World, p: Stmt, a: int, s: State, gas: nat): Run {
    if gas == 0 then Running
    else if w.rcap - |s.rs| < 2 then Failed(E_RSTKOVERFLOW, s.ds)
    else
      var back := if s.ip != 0 then s.ip + 1 else 0;
      Finish(s, BodyRun(w, Eval(w, p, a, Ctx(s.ds, s.rs + [back, s.tr0], |s.rs| + 2), gas - 1)))
  }

  lemma {:induction false} EmitsBody(dcap: nat, k: Draft, p: Stmt)
    requires Compilable(dcap, k, p)
    ensures CompileBody(dcap, k, Text(p)) == Ok(Grown(k, Code(p, At(Len(p))) + [Xt(EXIT), Xt(SENTINEL)], k.ds))
    ensures Xt(SENTINEL) !in Code(p, At(Len(p))) <==> !Clashes(p, true)
  {
    hide Compile, Grown, Code, Xt, Clear;
    Emits(dcap, k, p);
    RawIsCode(p, Len(p));
    GrownRoom(k, Code(p, Pending), k.ds);
    CellGrown(k, Code(p, Pending), k.ds, [Xt(EXIT), Xt(SENTINEL)]);
    NoLeave(p, Pending, At(Len(p)));
    if Clashes(p, true) {
      DirtyCode(p, At(Len(p)));
    } else {
      Patched(p, Len(p), Len(p));
    }
  }

  // ----- no LEAVE escapes -----

  lemma {:induction false} StaysInside(w: World, p: Stmt, a: int, c: Ctx, gas: nat)
    requires WellNested(p)
    ensures !Eval(w, p, a, c, gas).Left?
    decreases gas, p, 1
  {
    hide Spend, Test, Literal, RunWord, RunWords, Enter, Iterate;
    match p
    case Seq(q, r) =>
      StaysInside(w, q, a, c, gas);
      var x := Eval(w, q, a, c, gas);
      if x.Normal? {
        StaysInside(w, r, a + Len(q), x.c, x.gas);
      }
    case If(q) =>
      var t := Test(w, c, gas);
      if t.Normal? && !Holds0(c) {
        StaysInside(w, q, a + 2, t.c, t.gas);
      }
    case IfElse(q, r) =>
      var t := Test(w, c, gas);
      if t.Normal? {
        if Holds0(c) {
          StaysInside(w, r, a + Len(q) + 4, t.c, t.gas);
        } else {
          StaysInside(w, q, a + 2, t.c, t.gas);
        }
      }
    case Until(q) =>
      StaysInside(w, q, a, c, gas);
      var x := Eval(w, q, a, c, gas);
      if x.Normal? {
        var t := Test(w, x.c, x.gas);
        if t.Normal? && Holds0(x.c) {
          StaysInside(w, p, a, t.c, t.gas);
        }
      }
    case While(q, r) => WhileStaysInside(w, q, r, a, c, gas);
    case Again(q) =>
      StaysInside(w, q, a, c, gas);
      var x := Eval(w, q, a, c, gas);
      if x.Normal? {
        var z := Spend(w, x.c, x.gas);
        if z.Normal? {
          StaysInside(w, p, a, z.c, z.gas);
        }
      }
    case _ =>
  }

  lemma {:induction false} WhileStaysInside(w: World, q: Stmt, r: Stmt, a: int, c: Ctx, gas: nat)
    requires WellNested(q) && WellNested(r)
    ensures !EvalWhile(w, q, r, a, c, gas).Left?
    decreases gas, While(q, r), 0
  {
    hide Spend, Test, Eval;
    StaysInside(w, q, a, c, gas);
    var x := Eval(w, q, a, c, gas);
    if x.Normal? {
      var t := Test(w, x.c, x.gas);
      if t.Normal? && !Holds0(x.c) {
        StaysInside(w, r, a + Len(q) + 2, t.c, t.gas);
        var y := Eval(w, r, a + Len(q) + 2, t.c, t.gas);
        if y.Normal? {
          var z := Spend(w, y.c, y.gas);
          if z.Normal? {
            WhileStaysInside(w, q, r, a, z.c, z.gas);
          }
        }
      }
    }
  }

  // ----- calling a definition -----

  /** The thread of the definition, up to and including its EXIT. */
  lemma BodyRuns(w: World, p: Stmt, a: int, c: Ctx, gas: nat)
    requires Builtins(w) && Proper(p) && WellNested(p)
    requires Holds(w.mem, a, Code(p, At(Len(p))) + [Xt(EXIT), Xt(SENTINEL)])
    ensures From(w, AtCell(a, c), gas) == BodyRun(w, Eval(w, p, a, c, gas))
  {
    hide From, Eval, Code, Xt, Builtins;
    var code, tail := Code(p, At(Len(p))), [Xt(EXIT), Xt(SENTINEL)];
    var end := a + Len(p);
    Bounds(w, a, code + tail);
    HoldsSplit(w.mem, a, code, tail);
    HoldsCell(w.mem, end, tail, 0);
    assert end - a == Len(p);
    StmtRuns(w, p, a, end, c, gas);
    StaysInside(w, p, a, c, gas);
    var r := Eval(w, p, a, c, gas);
    if r.Normal? {
      StepExit(w, end, r.c, r.gas);
    }
  }

  /** The end of a thread that has kept its frame. */
  lemma ThreadEnds(w: World, s: State, a: int, gas: nat)
    requires Framed(w, s) && s.tr0 < |s.rs|
    ensures var r := EnterThread(w, false, a, s, gas);
      var caller := s.(rs := s.rs[..|s.rs| - 1]);
      Observe(r) ==
        if w.rcap - |s.rs| < 1 then Failed(E_RSTKOVERFLOW, s.ds)
        else Finish(caller, From(w, State(a, s.ds, s.rs + [s.tr0], |s.rs| + 1), gas))
  {
    if w.rcap - |s.rs| >= 1 {
      var n := |s.rs|;
      var t := State(a, s.ds, s.rs + [s.tr0], n + 1);
      assert t.rs[..s.tr0] == s.rs[..s.tr0];
      ChainPrefix(s.rs, t.rs, s.tr0);
      LoopKeeps(w, t, gas);
      EnterKeeps(w, a, s, gas);
      var r := Loop(w, false, 1, t, gas);
      if r.Done? {
        assert r.s.rs[n] == r.s.rs[..n + 1][n] == t.rs[..n + 1][n] == s.tr0;
        if |r.s.rs| == r.s.tr0 {
          assert EndThread(r.s).Next?;
        }
      }
    }
  }

  predicate NoPlaceholder(mem: seq<int>, a: int, n: nat) {
    0 <= a && a + n <= |mem| && Xt(SENTINEL) !in mem[a..a + n]
  }

  /** Compiler correctness.  Calling the token of a compiled definition, with the flattened interpreter
      and with any amount of gas, has the outcome of the structured program: the same stacks, error and
      gas, running forever alike; a call that returns goes back to the cell after the caller's.  And
      compiling has left no placeholder, unless the programmer supplied one outside loops and CASEs. */
  lemma DefinitionIsCorrect(w: World, xt: int, p: Stmt, k: Draft, s: State, gas: nat)
    requires Compilable(w.dcap, k, p) && Defined(w, xt, p, k)
    requires Framed(w, s)
    ensures var r := Execute(w, true, xt, s, gas);
      && Observe(r) == Call(w, p, xt + 2, s, gas)
      && (r.Done? ==> r.s.ip == if s.ip == 0 then 0 else s.ip + 1)
    ensures NoPlaceholder(w.mem, xt + 2, Len(p)) <==> !Clashes(p, true)
  {
    hide Code, Compile, Eval, Grown, Execute;
    var code, tail := Code(p, At(Len(p))), [Xt(EXIT), Xt(SENTINEL)];
    EmitsBody(w.dcap, k, p);
    InMemory(w.mem, k, code, tail);
    ExecuteFlattens(w, xt, s, gas);
    ExecuteKeeps(w, xt, s, gas);
    CallsBody(w, xt, p, s, gas);
  }

  lemma InMemory(mem: seq<int>, k: Draft, code: seq<int>, tail: seq<int>)
    requires HasRoom(k, |code + tail|) && 0 < k.here
    requires mem == Grown(k, code + tail, k.ds).mem
    ensures Holds(mem, k.here, code + tail) && (NoPlaceholder(mem, k.here, |code|) <==> Xt(SENTINEL) !in code)
  {
    assert mem[k.here..k.here + |code|] == code;
  }

  lemma CallsBody(w: World, xt: int, p: Stmt, s: State, gas: nat)
    requires Builtins(w) && Proper(p) && WellNested(p) && Framed(w, s)
    requires xt in w.tokens && w.tokens[xt].Threaded?
    requires Holds(w.mem, xt + 2, Code(p, At(Len(p))) + [Xt(EXIT), Xt(SENTINEL)])
    ensures Observe(Execute(w, false, xt, s, gas)) == Call(w, p, xt + 2, s, gas)
  {
    hide Eval, Code, Builtins, Loop, NativeStep;
    if gas != 0 && w.rcap - |s.rs| >= 1 {
      var back := if s.ip != 0 then s.ip + 1 else 0;
      var t := s.(rs := s.rs + [back]);
      assert t.rs[..s.tr0] == s.rs[..s.tr0];
      ChainPrefix(s.rs, t.rs, s.tr0);
      assert t.rs[..|t.rs| - 1] == s.rs;
      ThreadEnds(w, t, xt + 2, gas - 1);
      assert t.rs + [t.tr0] == s.rs + [back, s.tr0];
      BodyRuns(w, p, xt + 2, Ctx(s.ds, s.rs + [back, s.tr0], |s.rs| + 2), gas - 1);
    }
  }
}
