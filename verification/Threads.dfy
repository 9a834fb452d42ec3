/** What running threads in one loop with a depth counter amounts to: the same as one recursive call
    of e4__execute for each colon word, and no thread ever disturbs its callers' frames. */
module Threads {
  import opened Machine

  /** Finish the depth - 1 threads that are still open when the innermost one ends with r. */
  function Unwind(w: World, depth: nat, r: Outcome): Outcome
    requires 0 < depth
  {
    if !r.Done? || depth == 1 then r
    else match EndThread(r.s)
      case Next(t) => Loop(w, true, depth - 1, t, r.gas)
      case st => Lift(st, r.gas)
  }

  /** The flattened loop at any depth is the innermost thread, run recursively, and then the rest. */
  lemma {:induction false} LoopUnwinds(w: World, depth: nat, s: State, gas: nat)
    requires Builtins(w) && 0 < depth
    ensures Loop(w, true, depth, s, gas) == Unwind(w, depth, Loop(w, false, 1, s, gas))
    decreases gas, 1
  {
    if Readable(w, s.ip) && w.mem[s.ip] in w.tokens {
      var xt := w.mem[s.ip];
      if w.tokens[xt].Threaded? {
        assert xt != Xt(EXIT) by { assert w.tokens[Xt(EXIT)] == Native(EXIT); }
        if gas != 0 && w.rcap - |s.rs| >= 2 {
          CallUnwinds(w, depth, s, gas);
        } else if gas != 0 {
          // At most one cell is left: it takes the return address and the callee then finds none.
          var called := s.(rs := s.rs + [s.ip + 1]);
          assert RunCode(w, false, xt, called, gas - 1) == EnterThread(w, false, xt + 2, called, gas - 1);
        }
      } else if xt != Xt(EXIT) {
        ExecuteFlattens(w, xt, s, gas);
        var r := Execute(w, true, xt, s, gas);
        if r.Done? {
          LoopUnwinds(w, depth, r.s, r.gas);
        }
      }
    }
  }

  /** The inlined call of a colon word. */
  lemma {:induction false} CallUnwinds(w: World, depth: nat, s: State, gas: nat)
    requires Builtins(w) && 0 < depth && 0 < gas && w.rcap - |s.rs| >= 2
    requires Readable(w, s.ip) && w.mem[s.ip] in w.tokens && w.tokens[w.mem[s.ip]].Threaded?
    ensures Loop(w, true, depth, s, gas) == Unwind(w, depth, Loop(w, false, 1, s, gas))
    decreases gas, 0
  {
    var xt := w.mem[s.ip];
    var callee := State(xt + 2, s.ds, s.rs + [s.ip + 1, s.tr0], |s.rs| + 2);
    var called := s.(rs := s.rs + [s.ip + 1]);
    assert called.rs + [s.tr0] == callee.rs;
    LoopUnwinds(w, depth + 1, callee, gas - 1);
    var r := Loop(w, false, 1, callee, gas - 1);
    assert EnterThread(w, false, xt + 2, called, gas - 1) == if r.Done? then Lift(EndThread(r.s), r.gas) else r;
    assert Execute(w, false, xt, s, gas) == EnterThread(w, false, xt + 2, called, gas - 1);
    if r.Done? && EndThread(r.s).Next? {
      LoopUnwinds(w, depth, EndThread(r.s).s, r.gas);
    }
  }

  /** Flattening changes no outcome of e4__execute: neither stack, ip, tr0, error nor gas, nor the state
      reached after any number of calls. */
  lemma {:induction false} ExecuteFlattens(w: World, xt: int, s: State, gas: nat)
    requires Builtins(w)
    ensures Execute(w, true, xt, s, gas) == Execute(w, false, xt, s, gas)
    decreases gas, 0
  {
    if gas != 0 && w.rcap - |s.rs| >= 1 {
      RunCodeFlattens(w, xt, s.(rs := s.rs + [if s.ip != 0 then s.ip + 1 else 0]), gas - 1);
    }
  }

  lemma {:induction false} RunCodeFlattens(w: World, xt: int, s: State, gas: nat)
    requires Builtins(w)
    ensures RunCode(w, true, xt, s, gas) == RunCode(w, false, xt, s, gas)
    decreases gas, 3
  {
    if xt in w.tokens {
      match w.tokens[xt]
      case Native(b) =>
        if b == EXECUTE && |s.ds| > 0 {
          ExecuteFlattens(w, s.ds[|s.ds| - 1], s.(ds := s.ds[..|s.ds| - 1]), gas);
        }
      case Threaded => EnterFlattens(w, xt + 2, s, gas);
      case Thunk(table) => EnterFlattens(w, table, s, gas);
      case Does(body) => EnterFlattens(w, body, s.(ds := s.ds + [xt + 2]), gas);
      case Defer(target) => ExecuteFlattens(w, target, s, gas);
      case Constant(v) =>
      case Variable =>
    }
  }

  lemma {:induction false} EnterFlattens(w: World, a: int, s: State, gas: nat)
    requires Builtins(w)
    ensures EnterThread(w, true, a, s, gas) == EnterThread(w, false, a, s, gas)
    decreases gas, 2
  {
    LoopUnwinds(w, 1, State(a, s.ds, s.rs + [s.tr0], |s.rs| + 1), gas);
  }
}
