/** Frame discipline of the return stack, over whole runs. */
module Frames {
  import opened Machine
  import opened Threads

  /** The saved bases found from height t downward descend strictly to the empty stack, and between two
      of them there is room for a return address. */
  ghost predicate Chain(rs: seq<int>, t: int)
    decreases t
  {
    t == 0 || (2 <= t <= |rs| && 0 <= rs[t - 1] <= t - 2 && Chain(rs, rs[t - 1]))
  }

  ghost predicate Framed(w: World, s: State) {
    0 <= s.tr0 <= |s.rs| <= w.rcap && Chain(s.rs, s.tr0)
  }

  /** t is a later state: same open frames, and nothing below the base of s has changed. */
  ghost predicate Keeps(w: World, s: State, t: State) {
    && 0 <= s.tr0 <= |s.rs|
    && s.tr0 <= t.tr0
    && Framed(w, t)
    && s.rs[..s.tr0] == t.rs[..s.tr0]
  }

  ghost predicate KeepsOutcome(w: World, s: State, r: Outcome) {
    match r
    case Done(t, _) => Keeps(w, s, t) && t.tr0 == s.tr0
    case Spent(t) => Keeps(w, s, t)
    case _ => true
  }

  /** Like KeepsOutcome, for a thread that was called from frame s with a return address on top. */
  ghost predicate Returns(w: World, s: State, r: Outcome) {
    var n := |s.rs|;
    && 0 < n
    && match r
       case Done(t, _) => t.rs == s.rs[..n - 1] && t.ip == s.rs[n - 1] && t.tr0 == s.tr0
       case Spent(t) => Framed(w, t) && s.tr0 <= t.tr0 && n <= |t.rs| && t.rs[..n] == s.rs
       case _ => true
  }

  predicate IsThread(w: World, xt: int) {
    xt in w.tokens && (w.tokens[xt].Threaded? || w.tokens[xt].Thunk? || w.tokens[xt].Does?)
  }

  lemma {:induction false} ChainPrefix(rs: seq<int>, rs': seq<int>, t: int)
    requires 0 <= t <= |rs| && t <= |rs'| && rs[..t] == rs'[..t]
    requires Chain(rs, t)
    ensures Chain(rs', t)
    decreases t
  {
    if t == 0 {
    } else {
      assert rs[..t][t - 1] == rs'[..t][t - 1];
      var u := rs[t - 1];
      assert rs[..u] == rs[..t][..u] == rs'[..t][..u] == rs'[..u];
      ChainPrefix(rs, rs', u);
    }
  }

  lemma CutKeeps(w: World, s: State, t: State)
    requires Framed(w, s) && t.tr0 == s.tr0 <= |t.rs| <= w.rcap && t.rs[..s.tr0] == s.rs[..s.tr0]
    ensures Keeps(w, s, t)
  {
    ChainPrefix(s.rs, t.rs, s.tr0);
  }

  lemma RetKeeps(w: World, s: State)
    requires Framed(w, s)
    ensures Ret(s).Next? || Ret(s).Raise?
    ensures Ret(s).Next? ==> Keeps(w, s, Ret(s).s) && Ret(s).s.tr0 == s.tr0
  {
    if Ret(s).Next? {
      assert Ret(s).s.rs[..s.tr0] == s.rs[..s.tr0];
      CutKeeps(w, s, Ret(s).s);
    }
  }

  lemma DataStepKeeps(w: World, b: Builtin, s: State)
    requires Framed(w, s) && IsData(b)
    ensures var st := DataStep(w, b, s);
      !st.Bad? && (st.Next? ==> Keeps(w, s, st.s) && st.s.tr0 == s.tr0)
  {
    if Pops(b) <= |s.ds| {
      RetKeeps(w, s.(ds := Effect(b, s.ds)));
    }
  }

  lemma ThrowKeeps(w: World, s: State)
    requires Framed(w, s)
    ensures var st := NativeStep(w, THROW, s);
      !st.Bad? && (st.Next? ==> Keeps(w, s, st.s) && st.s.tr0 == s.tr0)
  {
    if |s.ds| > 0 {
      RetKeeps(w, s.(ds := s.ds[..|s.ds| - 1]));
    }
  }

  lemma FrameStepKeeps(w: World, b: Builtin, s: State)
    requires Framed(w, s) && IsFrameWord(b)
    ensures var st := FrameStep(w, b, s);
      !st.Bad? && (st.Next? ==> Keeps(w, s, st.s) && st.s.tr0 == s.tr0)
  {
    var st := FrameStep(w, b, s);
    if st.Next? {
      var n := |s.rs|;
      assert st.s.rs[..s.tr0] == s.rs[..s.tr0];
      CutKeeps(w, s, st.s);
    }
  }

  lemma InlineStepKeeps(w: World, b: Builtin, s: State)
    requires Framed(w, s) && IsInline(b)
    ensures var st := InlineStep(w, b, s);
      && (st.Next? ==> Keeps(w, s, st.s) && st.s.tr0 == s.tr0)
      && (st.Bad? ==> s.tr0 < |s.rs| && !Readable(w, s.rs[|s.rs| - 1]))
  {
    var st := InlineStep(w, b, s);
    if st.Next? {
      assert st.s.rs == s.rs[..|s.rs| - 1];
      assert st.s.rs[..s.tr0] == s.rs[..s.tr0];
      CutKeeps(w, s, st.s);
    }
  }

  /** The checks that builtins make are enough: they never read past the bottom of the return stack,
      and change nothing below the base of the frame. */
  lemma NativeKeeps(w: World, b: Builtin, s: State)
    requires Framed(w, s)
    ensures var st := NativeStep(w, b, s);
      && (st.Next? ==> Keeps(w, s, st.s) && st.s.tr0 == s.tr0)
      && (st.Bad? ==> HasTable(b) || b == EXECUTE ||
                      (IsInline(b) && s.tr0 < |s.rs| && !Readable(w, s.rs[|s.rs| - 1])))
  {
    if IsData(b) {
      DataStepKeeps(w, b, s);
    } else if IsFrameWord(b) {
      FrameStepKeeps(w, b, s);
    } else if IsInline(b) {
      InlineStepKeeps(w, b, s);
    } else if b == THROW {
      ThrowKeeps(w, s);
    } else if b == SENTINEL {
      RetKeeps(w, s);
    }
  }

  lemma KeepsTrans(w: World, s: State, t: State, u: State)
    requires Keeps(w, s, t) && Keeps(w, t, u)
    ensures Keeps(w, s, u)
  {
    assert s.rs[..s.tr0] == t.rs[..t.tr0][..s.tr0] == u.rs[..t.tr0][..s.tr0] == u.rs[..s.tr0];
  }

  /** One call of e4__execute.  A colon word, thunk or DOES> word that returns has restored ip, tr0 and
      the whole return stack exactly; any word leaves the frames below the current one alone, in every
      state on the way. */
  lemma {:induction false} ExecuteKeeps(w: World, xt: int, s: State, gas: nat)
    requires Framed(w, s)
    ensures var r := Execute(w, false, xt, s, gas);
      && KeepsOutcome(w, s, r)
      && (r.Done? && IsThread(w, xt) ==> r.s.rs == s.rs && r.s.ip == if s.ip == 0 then 0 else s.ip + 1)
    decreases gas, 0
  {
    if gas != 0 && w.rcap - |s.rs| >= 1 {
      var t := s.(rs := s.rs + [if s.ip != 0 then s.ip + 1 else 0]);
      assert t.rs[..s.tr0] == s.rs[..s.tr0];
      ChainPrefix(s.rs, t.rs, s.tr0);
      RunCodeKeeps(w, xt, t, gas - 1);
      assert t.rs[..|t.rs| - 1] == s.rs;
      var r := RunCode(w, false, xt, t, gas - 1);
      if r.Done? {
        assert Keeps(w, s, t);
        KeepsTrans(w, s, t, r.s);
      } else if r.Spent? {
        KeepsTrans(w, s, t, r.s);
      }
    }
  }

  lemma {:induction false} RunCodeKeeps(w: World, xt: int, s: State, gas: nat)
    requires Framed(w, s) && s.tr0 < |s.rs|
    ensures var r := RunCode(w, false, xt, s, gas);
      && KeepsOutcome(w, s, r)
      && (IsThread(w, xt) ==> Returns(w, s, r))
    decreases gas, 3
  {
    if xt in w.tokens {
      match w.tokens[xt]
      case Native(b) =>
        if b == EXECUTE {
          if |s.ds| > 0 {
            CallKeeps(w, s.ds[|s.ds| - 1], s.(ds := s.ds[..|s.ds| - 1]), gas);
          }
        } else {
          NativeKeeps(w, b, s);
        }
      case Threaded => EnterKeeps(w, xt + 2, s, gas);
      case Thunk(table) => EnterKeeps(w, table, s, gas);
      case Does(body) => EnterKeeps(w, body, s.(ds := s.ds + [xt + 2]), gas);
      case Defer(target) => CallKeeps(w, target, s, gas);
      case Constant(v) => RetKeeps(w, s.(ds := s.ds + [v]));
      case Variable => RetKeeps(w, s.(ds := s.ds + [xt + 2]));
    }
  }

  /** A word that calls e4__execute and then returns. */
  lemma {:induction false} CallKeeps(w: World, xt: int, s: State, gas: nat)
    requires Framed(w, s)
    ensures KeepsOutcome(w, s, Return(Execute(w, false, xt, s, gas)))
    decreases gas, 1
  {
    ExecuteKeeps(w, xt, s, gas);
    var r := Execute(w, false, xt, s, gas);
    if r.Done? {
      RetKeeps(w, r.s);
      if Ret(r.s).Next? {
        KeepsTrans(w, s, r.s, Ret(r.s).s);
      }
    }
  }

  lemma FrameBelow(rs: seq<int>, t: int, now: seq<int>)
    requires 0 <= t <= |rs| && |rs| + 1 <= |now| && now[..|rs| + 1] == rs + [t]
    ensures now[..|rs|] == rs && now[|rs|] == t && now[..t] == rs[..t]
  {
    assert now[..|rs|] == now[..|rs| + 1][..|rs|] == rs;
    assert now[|rs|] == now[..|rs| + 1][|rs|];
    assert now[..t] == now[..|rs|][..t];
  }

  lemma {:induction false} EnterKeeps(w: World, a: int, s: State, gas: nat)
    requires Framed(w, s) && s.tr0 < |s.rs|
    ensures Returns(w, s, EnterThread(w, false, a, s, gas))
    ensures KeepsOutcome(w, s, EnterThread(w, false, a, s, gas))
    decreases gas, 2
  {
    hide Loop;
    if w.rcap - |s.rs| >= 1 {
      var n := |s.rs|;
      var t := State(a, s.ds, s.rs + [s.tr0], n + 1);
      assert t.rs[..s.tr0] == s.rs[..s.tr0];
      ChainPrefix(s.rs, t.rs, s.tr0);
      LoopKeeps(w, t, gas);
      var r := Loop(w, false, 1, t, gas);
      if r.Done? || r.Spent? {
        FrameBelow(s.rs, s.tr0, r.s.rs);
        if r.Done? && EndThread(r.s).Next? {
          assert r.s.rs[..|r.s.rs| - 1] == s.rs;
          ChainPrefix(s.rs, s.rs[..n - 1], s.tr0);
        }
      }
    }
  }

  lemma {:induction false} LoopKeeps(w: World, s: State, gas: nat)
    requires Framed(w, s)
    ensures KeepsOutcome(w, s, Loop(w, false, 1, s, gas))
    decreases gas, 1
  {
    if Readable(w, s.ip) && w.mem[s.ip] in w.tokens && w.mem[s.ip] != Xt(EXIT) {
      ExecuteKeeps(w, w.mem[s.ip], s, gas);
      var r := Execute(w, false, w.mem[s.ip], s, gas);
      if r.Done? {
        LoopKeeps(w, r.s, r.gas);
        var r' := Loop(w, false, 1, r.s, r.gas);
        if r'.Done? || r'.Spent? {
          KeepsTrans(w, s, r.s, r'.s);
        }
      }
    }
  }

  /** The same of the interpreter as it is, threads flattened into one loop. */
  lemma FlattenedRunKeepsFrames(w: World, xt: int, s: State, gas: nat)
    requires Builtins(w) && Framed(w, s)
    ensures var r := Execute(w, true, xt, s, gas);
      && KeepsOutcome(w, s, r)
      && (r.Done? && IsThread(w, xt) ==> r.s.rs == s.rs && r.s.ip == if s.ip == 0 then 0 else s.ip + 1)
  {
    ExecuteFlattens(w, xt, s, gas);
    ExecuteKeeps(w, xt, s, gas);
  }
}
