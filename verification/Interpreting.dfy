/** Executing words one by one and running a definition made of them come to the same.

    The bridge is an evaluator that knows no return stack, only the cells that a thread keeps in its own
    frame: what a word does to the data stack does not depend on where it is called from, save for the
    room that is left. */
module Interpreting {
  import opened Machine
  import opened Threads
  import C = Correctness

  /** frame is what a thread has on the return stack above its base.  Strays stands for a word that works
      on the return address of another one, as EXECUTE of R> would. */
  datatype Result =
    | Gives(ds: seq<int>, frame: seq<int>, gas: nat)
    | Fails(code: int, ds: seq<int>)
    | Unfinished
    | Broken
    | Strays

  function AfterStep(st: Step, gas: nat): Result {
    match st
    case Next(s) => Gives(s.ds, [], gas)
    case Raise(code, ds) => Fails(code, ds)
    case Bad => Broken
  }

  /** A word called from anywhere. */
  function PureExecute(w: World, xt: int, ds: seq<int>, gas: nat): (r: Result)
    ensures r.Gives? ==> r.gas < gas && r.frame == []
    decreases gas, 0
  {
    if gas == 0 then Unfinished else PureCode(w, xt, ds, gas - 1)
  }

  function PureCode(w: World, xt: int, ds: seq<int>, gas: nat): (r: Result)
    ensures r.Gives? ==> r.gas <= gas && r.frame == []
    decreases gas, 3
  {
    if xt !in w.tokens then Broken
    else match w.tokens[xt]
      case Native(EXECUTE) =>
        if |ds| < 1 then Fails(E_STKUNDERFLOW, ds)
        else PureExecute(w, ds[|ds| - 1], ds[..|ds| - 1], gas)
      case Native(b) =>
        if IsFrameWord(b) || IsInline(b) then Strays else AfterStep(NativeStep(w, b, State(0, ds, [0], 0)), gas)
      case Threaded => PureThread(w, xt + 2, ds, gas)
      case Thunk(table) => PureThread(w, table, ds, gas)
      case Does(body) =>
        if w.dcap - |ds| < 1 then Fails(E_STKOVERFLOW, ds) else PureThread(w, body, ds + [xt + 2], gas)
      case Defer(target) => PureExecute(w, target, ds, gas)
      case Constant(v) => PurePush(w, ds, v, gas)
      case Variable => PurePush(w, ds, xt + 2, gas)
  }

  function PurePush(w: World, ds: seq<int>, v: int, gas: nat): Result {
    if w.dcap - |ds| < 1 then Fails(E_STKOVERFLOW, ds) else Gives(ds + [v], [], gas)
  }

  /** A thread must leave its frame empty. */
  function PureThread(w: World, a: int, ds: seq<int>, gas: nat): (r: Result)
    ensures r.Gives? ==> r.gas <= gas && r.frame == []
    decreases gas, 2
  {
    var r := PureLoop(w, a, ds, [], gas);
    if r.Gives? && r.frame != [] then Fails(E_RSTKIMBALANCE, r.ds) else r
  }

  /** The world as a thread sees it that has the return stack to itself. */
  function Alone(w: World, frame: seq<int>): World {
    w.(rcap := |frame| + 3)
  }

  /** A word of the thread that works on its frame or on the cell behind it. */
  function LocalStep(w: World, b: Builtin, ip: int, ds: seq<int>, frame: seq<int>): Step
    requires IsFrameWord(b) || IsInline(b)
  {
    NativeStep(Alone(w, frame), b, State(ip, ds, frame + [ip + 1], 0))
  }

  function PureLoop(w: World, ip: int, ds: seq<int>, frame: seq<int>, gas: nat): (r: Result)
    ensures r.Gives? ==> r.gas <= gas
    decreases gas, 1
  {
    if !Readable(w, ip) then Broken
    else
      var xt := w.mem[ip];
      if xt !in w.tokens then Broken
      else if gas == 0 then Unfinished
      else if xt == Xt(EXIT) then Gives(ds, frame, gas - 1)
      else match w.tokens[xt]
        case Native(b) =>
          if IsFrameWord(b) || IsInline(b) then
            match LocalStep(w, b, ip, ds, frame)
            case Next(s) => PureLoop(w, s.ip, s.ds, s.rs, gas - 1)
            case Raise(code, ds') => Fails(code, ds')
            case Bad => Broken
          else
            var r := PureExecute(w, xt, ds, gas);
            if r.Gives? then PureLoop(w, ip + 1, r.ds, frame, r.gas) else r
        case _ =>
          var r := PureExecute(w, xt, ds, gas);
          if r.Gives? then PureLoop(w, ip + 1, r.ds, frame, r.gas) else r
  }

  // ----- the machine does the same -----

  predicate Overflowed(r: Outcome) {
    r.Throw? && r.code == E_RSTKOVERFLOW
  }

  /** Above n cells of return stack there is no room for so many more.  A call takes three at most for each
      unit of gas. */
  predicate Short(w: World, n: int, need: int) {
    w.rcap - n < need
  }

  /** A run from s overflowed a return stack that was too short for its gas. */
  predicate RanShort(w: World, s: State, gas: nat, r: Outcome) {
    Overflowed(r) && Short(w, |s.rs|, 3 * gas)
  }

  /** Outcome r of the machine is p, leading to state t in the end; or the return stack, being short, has
      overflowed. */
  predicate Same(r: Outcome, p: Result, t: State, short: bool) {
    || (short && Overflowed(r))
    || match p
       case Gives(ds, frame, gas) => r == Done(t.(ds := ds, rs := t.rs + frame), gas)
       case Fails(code, ds) => r == Throw(code, ds)
       case Unfinished => r.Spent?
       case Broken => r.Fault?
       case Strays => true
  }

  /** Back at the cell after the current one. */
  function Resumed(s: State): State {
    s.(ip := if s.ip == 0 then 0 else s.ip + 1)
  }

  /** Back where the return address on top leads. */
  function Popped(s: State): State
    requires s.rs != []
  {
    s.(ip := s.rs[|s.rs| - 1], rs := s.rs[..|s.rs| - 1])
  }

  lemma {:induction false} ExecuteIsPure(w: World, xt: int, s: State, gas: nat)
    requires Builtins(w) && 0 <= s.tr0 <= |s.rs|
    ensures Same(Execute(w, false, xt, s, gas), PureExecute(w, xt, s.ds, gas), Resumed(s), Short(w, |s.rs|, 3 * gas))
    decreases gas, 0
  {
    hide Builtins, PureCode, RunCode;
    if gas != 0 && w.rcap - |s.rs| >= 1 {
      var t := s.(rs := s.rs + [if s.ip != 0 then s.ip + 1 else 0]);
      CodeIsPure(w, xt, t, gas - 1);
      assert t.rs[..|t.rs| - 1] == s.rs;
    }
  }

  lemma {:induction false} CodeIsPure(w: World, xt: int, s: State, gas: nat)
    requires Builtins(w) && 0 <= s.tr0 < |s.rs|
    ensures Same(RunCode(w, false, xt, s, gas), PureCode(w, xt, s.ds, gas), Popped(s), Short(w, |s.rs|, 3 * gas + 2))
    decreases gas, 3
  {
    hide Builtins, NativeStep, EnterThread, PureThread, Execute, PureExecute;
    if xt in w.tokens {
      match w.tokens[xt]
      case Native(b) =>
        if b == EXECUTE {
          if |s.ds| > 0 {
            CallIsPure(w, s.ds[|s.ds| - 1], s.(ds := s.ds[..|s.ds| - 1]), gas);
          }
        } else if !IsFrameWord(b) && !IsInline(b) {
          NativeIsPure(w, b, s, gas);
        }
      case Threaded => ThreadIsPure(w, xt + 2, s, gas);
      case Thunk(table) => ThreadIsPure(w, table, s, gas);
      case Does(body) => ThreadIsPure(w, body, s.(ds := s.ds + [xt + 2]), gas);
      case Defer(target) => CallIsPure(w, target, s, gas);
      case Constant(v) =>
      case Variable =>
    }
  }

  lemma NativeIsPure(w: World, b: Builtin, s: State, gas: nat)
    requires 0 <= s.tr0 < |s.rs| && b != EXECUTE && !IsFrameWord(b) && !IsInline(b)
    ensures Same(Lift(NativeStep(w, b, s), gas), AfterStep(NativeStep(w, b, State(0, s.ds, [0], 0)), gas), Popped(s),
                 false)
  {
    hide FrameStep, InlineStep, DataStep, Ret;
    var t := State(0, s.ds, [0], 0);
    if IsData(b) {
      DataIsPure(w, b, s);
    } else if b == THROW && |s.ds| > 0 {
      var ds := s.ds[..|s.ds| - 1];
      RetIsPure(s.(ds := ds), t.(ds := ds));
    } else if b == SENTINEL {
      RetIsPure(s, t);
    }
    assert Popped(s).rs + [] == Popped(s).rs;
  }

  lemma RetIsPure(s: State, t: State)
    requires 0 <= s.tr0 < |s.rs| && t.rs == [0] && t.tr0 == 0
    ensures Ret(s) == Next(Popped(s)) && Ret(t) == Next(Popped(t))
  {
  }

  lemma DataIsPure(w: World, b: Builtin, s: State)
    requires 0 <= s.tr0 < |s.rs| && IsData(b)
    ensures match DataStep(w, b, State(0, s.ds, [0], 0))
      case Next(t) => DataStep(w, b, s) == Next(Popped(s).(ds := t.ds))
      case st => DataStep(w, b, s) == st
  {
    hide Effect;
  }

  /** A word that calls another and returns. */
  lemma {:induction false} CallIsPure(w: World, xt: int, s: State, gas: nat)
    requires Builtins(w) && 0 <= s.tr0 < |s.rs|
    ensures Same(Return(Execute(w, false, xt, s, gas)), PureExecute(w, xt, s.ds, gas), Popped(s),
                 Short(w, |s.rs|, 3 * gas))
    decreases gas, 1
  {
    ExecuteIsPure(w, xt, s, gas);
  }

  lemma {:induction false} ThreadIsPure(w: World, a: int, s: State, gas: nat)
    requires Builtins(w) && 0 <= s.tr0 < |s.rs|
    ensures Same(EnterThread(w, false, a, s, gas), PureThread(w, a, s.ds, gas), Popped(s),
                 Short(w, |s.rs|, 3 * gas + 2))
    decreases gas, 2
  {
    hide Builtins, Loop, PureLoop;
    if w.rcap - |s.rs| >= 1 {
      var base := s.rs + [s.tr0];
      LoopIsPure(w, a, s.ds, base, [], gas);
      assert base + [] == base;
      assert base[..|base| - 1] == s.rs;
    }
  }

  /** Loop outcome r is p, with base the part of the return stack below the thread. */
  predicate SameLoop(r: Outcome, p: Result, base: seq<int>, short: bool) {
    || (short && Overflowed(r))
    || match p
       case Gives(ds, frame, gas) => r.Done? && r.gas == gas && r.s == State(r.s.ip, ds, base + frame, |base|)
       case Fails(code, ds) => r == Throw(code, ds)
       case Unfinished => r.Spent?
       case Broken => r.Fault?
       case Strays => true
  }

  lemma {:induction false} LoopIsPure(w: World, ip: int, ds: seq<int>, base: seq<int>, frame: seq<int>, gas: nat)
    requires Builtins(w)
    ensures SameLoop(Loop(w, false, 1, State(ip, ds, base + frame, |base|), gas), PureLoop(w, ip, ds, frame, gas), base,
                     Short(w, |base + frame|, 3 * gas + 1))
    decreases gas, 1
  {
    hide Builtins, Execute, PureExecute, LocalStep;
    var s := State(ip, ds, base + frame, |base|);
    if Readable(w, ip) && w.mem[ip] in w.tokens && gas != 0 && w.mem[ip] != Xt(EXIT) {
      var xt := w.mem[ip];
      var token := w.tokens[xt];
      if token.Native? && (IsFrameWord(token.b) || IsInline(token.b)) {
        LocalIsPure(w, xt, token.b, ip, ds, base, frame, gas);
        var st := LocalStep(w, token.b, ip, ds, frame);
        if st.Next? {
          LocalGrowth(w, token.b, ip, ds, frame);
          LoopIsPure(w, st.s.ip, st.s.ds, base, st.s.rs, gas - 1);
        }
      } else {
        ExecuteIsPure(w, xt, s, gas);
        var r := PureExecute(w, xt, ds, gas);
        if r.Gives? {
          assert base + frame + r.frame == base + frame;
          LoopIsPure(w, ip + 1, r.ds, base, frame, r.gas);
        }
      }
    } else if Readable(w, ip) && w.mem[ip] in w.tokens && gas == 0 {
      SpentAtOnce(w, w.mem[ip], s);
    }
  }

  lemma SpentAtOnce(w: World, xt: int, s: State)
    ensures Execute(w, false, xt, s, 0) == Spent(s)
  {
  }

  /** A frame or inline word of the thread, on the whole return stack. */
  lemma LocalIsPure(w: World, xt: int, b: Builtin, ip: int, ds: seq<int>, base: seq<int>, frame: seq<int>, gas: nat)
    requires 0 < gas && ip != 0 && xt in w.tokens && w.tokens[xt] == Native(b) && (IsFrameWord(b) || IsInline(b))
    ensures var r := Execute(w, false, xt, State(ip, ds, base + frame, |base|), gas);
      || (Overflowed(r) && Short(w, |base + frame|, 3))
      || match LocalStep(w, b, ip, ds, frame)
         case Next(s) => r == Done(State(s.ip, s.ds, base + s.rs, |base|), gas - 1)
         case Raise(code, ds') => r == Throw(code, ds')
         case Bad => r.Fault?
  {
    hide NativeStep;
    var s := State(ip, ds, base + frame, |base|);
    if w.rcap - |s.rs| >= 1 {
      var t := s.(rs := s.rs + [ip + 1]);
      assert t.rs == base + (frame + [ip + 1]);
      assert Execute(w, false, xt, s, gas) == RunCode(w, false, xt, t, gas - 1);
      StepIsLocal(w, b, ip, ds, base, frame);
    }
  }

  /** What st says of the frame alone, said of the whole return stack. */
  ghost predicate Lifted(whole: Step, local: Step, base: seq<int>, short: bool) {
    || (short && whole.Raise? && whole.code == E_RSTKOVERFLOW)
    || match local
       case Next(s) => whole == Next(State(s.ip, s.ds, base + s.rs, |base|))
       case Raise(code, ds) => whole == local
       case Bad => whole.Bad?
  }

  lemma StepIsLocal(w: World, b: Builtin, ip: int, ds: seq<int>, base: seq<int>, frame: seq<int>)
    requires IsFrameWord(b) || IsInline(b)
    ensures Lifted(NativeStep(w, b, State(ip, ds, base + (frame + [ip + 1]), |base|)),
                   LocalStep(w, b, ip, ds, frame), base, Short(w, |base + frame|, 3))
  {
    hide FrameStep, InlineStep, DataStep, Lifted;
    if IsFrameWord(b) {
      FrameIsLocal(w, b, ip, ds, base, frame);
    } else {
      InlineIsLocal(w, b, ip, ds, base, frame);
    }
  }

  lemma LocalGrowth(w: World, b: Builtin, ip: int, ds: seq<int>, frame: seq<int>)
    requires IsFrameWord(b) || IsInline(b)
    ensures var st := LocalStep(w, b, ip, ds, frame); st.Next? ==> |st.s.rs| <= |frame| + 2
  {
    hide FrameStep, InlineStep, DataStep;
    var s := State(ip, ds, frame + [ip + 1], 0);
    if IsFrameWord(b) {
      FrameGrowth(Alone(w, frame), b, s);
    } else {
      InlineGrowth(Alone(w, frame), b, s);
    }
  }

  lemma FrameGrowth(w: World, b: Builtin, s: State)
    requires IsFrameWord(b)
    ensures var st := FrameStep(w, b, s); st.Next? ==> |st.s.rs| <= |s.rs| + 1
  {
  }

  lemma InlineGrowth(w: World, b: Builtin, s: State)
    requires IsInline(b)
    ensures var st := InlineStep(w, b, s); st.Next? ==> |st.s.rs| <= |s.rs|
  {
    hide StringCells;
  }

  lemma InlineIsLocal(w: World, b: Builtin, ip: int, ds: seq<int>, base: seq<int>, frame: seq<int>)
    requires IsInline(b)
    ensures Lifted(InlineStep(w, b, State(ip, ds, base + (frame + [ip + 1]), |base|)),
                   InlineStep(Alone(w, frame), b, State(ip, ds, frame + [ip + 1], 0)), base,
                   Short(w, |base + frame|, 3))
  {
    hide StringCells;
    var local, whole := frame + [ip + 1], base + (frame + [ip + 1]);
    assert whole[|whole| - 1] == ip + 1 && whole[..|whole| - 1] == base + frame;
    assert local[..|local| - 1] == frame;
  }

  lemma FrameIsLocal(w: World, b: Builtin, ip: int, ds: seq<int>, base: seq<int>, frame: seq<int>)
    requires IsFrameWord(b)
    ensures Lifted(FrameStep(w, b, State(ip, ds, base + (frame + [ip + 1]), |base|)),
                   FrameStep(Alone(w, frame), b, State(ip, ds, frame + [ip + 1], 0)), base,
                   Short(w, |base + frame|, 3))
  {
    hide FrameStep, Lifted;
    if b in {J, R_FETCH, TWO_R_FETCH} {
      FetchIsLocal(w, b, ip, ds, base, frame);
    } else if b == R_FROM {
      RFromIsLocal(w, ip, ds, base, frame);
    } else if b == TWO_R_FROM {
      TwoRFromIsLocal(w, ip, ds, base, frame);
    } else if b == UNLOOP {
      UnloopIsLocal(w, ip, ds, base, frame);
    } else {
      PutIsLocal(w, b, ip, ds, base, frame);
    }
  }

  /** The cells that a fetching word copies from below its return address. */
  function Fetched(b: Builtin, rs: seq<int>): seq<int>
    requires b == J || b == R_FETCH || b == TWO_R_FETCH
    requires RNeed(b) <= |rs|
  {
    var n := |rs|;
    if b == J then [rs[n - 4]] else if b == R_FETCH then [rs[n - 2]] else [rs[n - 3], rs[n - 2]]
  }

  lemma FetchedAgrees(b: Builtin, base: seq<int>, local: seq<int>)
    requires b == J || b == R_FETCH || b == TWO_R_FETCH
    ensures RNeed(b) <= |local| ==> Fetched(b, base + local) == Fetched(b, local)
  {
  }

  lemma FetchStep(w: World, b: Builtin, s: State)
    requires 0 <= s.tr0 && (b == J || b == R_FETCH || b == TWO_R_FETCH)
    ensures var n := |s.rs|;
      FrameStep(w, b, s) ==
        if w.rcap - n < 0 then Raise(E_RSTKOVERFLOW, s.ds)
        else if n - s.tr0 < RNeed(b) then Raise(E_RSTKUNDERFLOW, s.ds)
        else if w.dcap - |s.ds| < (if b == TWO_R_FETCH then 2 else 1) then Raise(E_STKOVERFLOW, s.ds)
        else Next(State(s.rs[n - 1], s.ds + Fetched(b, s.rs), s.rs[..n - 1], s.tr0))
  {
  }

  lemma FetchIsLocal(w: World, b: Builtin, ip: int, ds: seq<int>, base: seq<int>, frame: seq<int>)
    requires b == J || b == R_FETCH || b == TWO_R_FETCH
    ensures Lifted(FrameStep(w, b, State(ip, ds, base + (frame + [ip + 1]), |base|)),
                   FrameStep(Alone(w, frame), b, State(ip, ds, frame + [ip + 1], 0)), base,
                   Short(w, |base + frame|, 3))
  {
    hide FrameStep, Fetched;
    var local, whole := frame + [ip + 1], base + (frame + [ip + 1]);
    FetchedAgrees(b, base, local);
    FetchStep(w, b, State(ip, ds, whole, |base|));
    FetchStep(Alone(w, frame), b, State(ip, ds, local, 0));
    assert whole[|whole| - 1] == ip + 1 && local[|frame|] == ip + 1;
    assert whole[..|whole| - 1] == base + frame && local[..|frame|] == frame;
  }

  lemma RFromStep(w: World, s: State)
    requires 0 <= s.tr0
    ensures var n := |s.rs|;
      FrameStep(w, R_FROM, s) ==
        if w.rcap - n < 0 then Raise(E_RSTKOVERFLOW, s.ds)
        else if n - s.tr0 < 2 then Raise(E_RSTKUNDERFLOW, s.ds)
        else if w.dcap - |s.ds| < 1 then Raise(E_STKOVERFLOW, s.ds)
        else Next(State(s.rs[n - 1], s.ds + [s.rs[n - 2]], s.rs[..n - 2], s.tr0))
  {
    var n := |s.rs|;
    if n >= 2 {
      assert s.rs[..n - 1][..n - 2] == s.rs[..n - 2];
    }
  }

  lemma RFromIsLocal(w: World, ip: int, ds: seq<int>, base: seq<int>, frame: seq<int>)
    ensures Lifted(FrameStep(w, R_FROM, State(ip, ds, base + (frame + [ip + 1]), |base|)),
                   FrameStep(Alone(w, frame), R_FROM, State(ip, ds, frame + [ip + 1], 0)), base,
                   Short(w, |base + frame|, 3))
  {
    hide FrameStep;
    var local, whole := frame + [ip + 1], base + (frame + [ip + 1]);
    var n, k := |whole|, |frame|;
    RFromStep(w, State(ip, ds, whole, |base|));
    RFromStep(Alone(w, frame), State(ip, ds, local, 0));
    assert whole[n - 1] == ip + 1 && local[k] == ip + 1;
    if k >= 1 {
      assert whole[n - 2] == frame[k - 1] && local[k - 1] == frame[k - 1];
      assert whole[..n - 2] == base + frame[..k - 1] && local[..k - 1] == frame[..k - 1];
    }
  }

  lemma TwoRFromStep(w: World, s: State)
    requires 0 <= s.tr0
    ensures var n := |s.rs|;
      FrameStep(w, TWO_R_FROM, s) ==
        if w.rcap - n < 0 then Raise(E_RSTKOVERFLOW, s.ds)
        else if n - s.tr0 < 3 then Raise(E_RSTKUNDERFLOW, s.ds)
        else if w.dcap - |s.ds| < 2 then Raise(E_STKOVERFLOW, s.ds)
        else Next(State(s.rs[n - 1], s.ds + [s.rs[n - 3], s.rs[n - 2]], s.rs[..n - 3], s.tr0))
  {
    var n := |s.rs|;
    if n >= 3 {
      assert s.rs[..n - 1][..n - 3] == s.rs[..n - 3];
    }
  }

  lemma TwoRFromIsLocal(w: World, ip: int, ds: seq<int>, base: seq<int>, frame: seq<int>)
    ensures Lifted(FrameStep(w, TWO_R_FROM, State(ip, ds, base + (frame + [ip + 1]), |base|)),
                   FrameStep(Alone(w, frame), TWO_R_FROM, State(ip, ds, frame + [ip + 1], 0)), base,
                   Short(w, |base + frame|, 3))
  {
    hide FrameStep;
    var local, whole := frame + [ip + 1], base + (frame + [ip + 1]);
    var n, k := |whole|, |frame|;
    TwoRFromStep(w, State(ip, ds, whole, |base|));
    TwoRFromStep(Alone(w, frame), State(ip, ds, local, 0));
    assert whole[n - 1] == ip + 1 && local[k] == ip + 1;
    if k >= 2 {
      assert whole[n - 2] == frame[k - 1] == local[k - 1] && whole[n - 3] == frame[k - 2] == local[k - 2];
      assert whole[..n - 3] == base + frame[..k - 2] && local[..k - 2] == frame[..k - 2];
    }
  }

  lemma UnloopIsLocal(w: World, ip: int, ds: seq<int>, base: seq<int>, frame: seq<int>)
    ensures Lifted(FrameStep(w, UNLOOP, State(ip, ds, base + (frame + [ip + 1]), |base|)),
                   FrameStep(Alone(w, frame), UNLOOP, State(ip, ds, frame + [ip + 1], 0)), base,
                   Short(w, |base + frame|, 3))
  {
    var local, whole := frame + [ip + 1], base + (frame + [ip + 1]);
    var n, k := |whole|, |frame|;
    assert whole[n - 1] == ip + 1 && whole[..n - 1] == base + frame;
    assert local[..k] == frame;
    if k >= 2 {
      assert (base + frame)[..n - 3] == base + frame[..k - 2];
    }
  }

  lemma PutIsLocal(w: World, b: Builtin, ip: int, ds: seq<int>, base: seq<int>, frame: seq<int>)
    requires b == TO_R || b == TWO_TO_R
    ensures Lifted(FrameStep(w, b, State(ip, ds, base + (frame + [ip + 1]), |base|)),
                   FrameStep(Alone(w, frame), b, State(ip, ds, frame + [ip + 1], 0)), base,
                   Short(w, |base + frame|, 3))
  {
    var local, whole := frame + [ip + 1], base + (frame + [ip + 1]);
    var n, k := |whole|, |frame|;
    assert whole[n - 1] == ip + 1 && whole[..n - 1] == base + frame;
    assert local[..k] == frame;
    if b == TO_R && |ds| > 0 {
      assert base + frame + [ds[|ds| - 1]] == base + (frame + [ds[|ds| - 1]]);
    }
    if b == TWO_TO_R && |ds| > 1 {
      assert base + frame + [ds[|ds| - 2], ds[|ds| - 1]] == base + (frame + [ds[|ds| - 2], ds[|ds| - 1]]);
    }
  }

  // ----- interpreting and compiling -----

  /** A word of straight-line source text, once looked up: a number, or a word that is neither immediate
      nor reads on in the text. */
  datatype Item = Number(n: int) | Named(xt: int)

  /** e4__evaluate_interpret on one word after the other.  A number is charged like the literal it would be
      compiled to. */
  function Interpret(w: World, items: seq<Item>, s: State, gas: nat): Outcome
    decreases |items|
  {
    if items == [] then Done(s, gas)
    else match items[0]
      case Number(n) =>
        if gas == 0 then Spent(s)
        else if w.dcap - |s.ds| < 1 then Throw(E_STKOVERFLOW, s.ds)
        else Interpret(w, items[1..], s.(ds := s.ds + [n]), gas - 1)
      case Named(xt) =>
        var r := Execute(w, true, xt, s, gas);
        if r.Done? then Interpret(w, items[1..], r.s, r.gas) else r
  }

  /** The same words compiled. */
  function ItemCells(items: seq<Item>): seq<int> {
    if items == [] then []
    else (match items[0] case Number(n) => [Xt(LIT_CELL), n] case Named(xt) => [xt]) + ItemCells(items[1..])
  }

  function PureItems(w: World, items: seq<Item>, ds: seq<int>, gas: nat): (r: Result)
    ensures r.Gives? ==> r.frame == []
    decreases |items|
  {
    if items == [] then Gives(ds, [], gas)
    else match items[0]
      case Number(n) =>
        if gas == 0 then Unfinished
        else if w.dcap - |ds| < 1 then Fails(E_STKOVERFLOW, ds)
        else PureItems(w, items[1..], ds + [n], gas - 1)
      case Named(xt) =>
        if xt == Xt(EXIT) then Strays
        else
          var r := PureExecute(w, xt, ds, gas);
          if r.Gives? then PureItems(w, items[1..], r.ds, r.gas) else r
  }

  predicate Known(w: World, items: seq<Item>) {
    forall i :: 0 <= i < |items| && items[i].Named? ==> items[i].xt in w.tokens
  }

  /** No item works on the return stack of its caller: >R, R> and their like stand only inside words. */
  predicate KeepsOff(w: World, items: seq<Item>, ds: seq<int>, gas: nat) {
    !PureItems(w, items, ds, gas).Strays?
  }

  /** SameLoop without regard to where interpretation is. */
  predicate SameData(r: Outcome, p: Result, s: State, short: bool) {
    || (short && Overflowed(r))
    || match p
       case Gives(ds, _, gas) => r.Done? && r.gas == gas && r.s == s.(ip := r.s.ip, ds := ds)
       case Fails(code, ds) => r == Throw(code, ds)
       case Unfinished => r.Spent?
       case Broken => r.Fault?
       case Strays => true
  }

  lemma {:induction false} InterpretsPurely(w: World, items: seq<Item>, s: State, gas: nat)
    requires Builtins(w) && 0 <= s.tr0 <= |s.rs|
    ensures SameData(Interpret(w, items, s, gas), PureItems(w, items, s.ds, gas), s, Short(w, |s.rs|, 3 * gas))
    decreases |items|
  {
    hide Builtins, Execute, PureExecute;
    if items == [] {
    } else {
      match items[0]
      case Number(n) =>
        if gas != 0 {
          InterpretsPurely(w, items[1..], s.(ds := s.ds + [n]), gas - 1);
        }
      case Named(xt) =>
        ExecuteFlattens(w, xt, s, gas);
        ExecuteIsPure(w, xt, s, gas);
        var p := PureExecute(w, xt, s.ds, gas);
        assert s.rs + [] == s.rs;
        if p.Gives? {
          InterpretsPurely(w, items[1..], Resumed(s).(ds := p.ds), p.gas);
        }
    }
  }

  /** What the compiled items, and EXIT behind them, give in a thread. */
  function Ended(p: Result): Result {
    if !p.Gives? then p
    else if p.gas == 0 then Unfinished
    else Gives(p.ds, p.frame, p.gas - 1)
  }

  lemma {:induction false} CompiledRunsPurely(w: World, items: seq<Item>, a: int, ds: seq<int>, gas: nat)
    requires Builtins(w) && Known(w, items) && Holds(w.mem, a, ItemCells(items) + [Xt(EXIT)])
    requires KeepsOff(w, items, ds, gas)
    ensures PureLoop(w, a, ds, [], gas) == Ended(PureItems(w, items, ds, gas))
    decreases |items|
  {
    hide Builtins, PureLoop, PureExecute, Holds;
    var cells := ItemCells(items) + [Xt(EXIT)];
    C.HoldsCell(w.mem, a, cells, 0);
    if items == [] {
      ExitEnds(w, a, ds, gas);
    } else {
      var rest := ItemCells(items[1..]) + [Xt(EXIT)];
      match items[0]
      case Number(n) =>
        assert cells == [Xt(LIT_CELL), n] + rest;
        C.HoldsSplit(w.mem, a, [Xt(LIT_CELL), n], rest);
        C.HoldsCell(w.mem, a, [Xt(LIT_CELL), n], 1);
        NumberSteps(w, a, n, ds, gas);
        if gas != 0 && w.dcap - |ds| >= 1 {
          CompiledRunsPurely(w, items[1..], a + 2, ds + [n], gas - 1);
        }
      case Named(xt) =>
        assert cells == [xt] + rest;
        C.HoldsSplit(w.mem, a, [xt], rest);
        NamedSteps(w, a, xt, ds, gas);
        var r := PureExecute(w, xt, ds, gas);
        if r.Gives? {
          CompiledRunsPurely(w, items[1..], a + 1, r.ds, r.gas);
        }
    }
  }

  lemma ExitEnds(w: World, a: int, ds: seq<int>, gas: nat)
    requires Builtins(w) && Readable(w, a) && w.mem[a] == Xt(EXIT)
    ensures PureLoop(w, a, ds, [], gas) == if gas == 0 then Unfinished else Gives(ds, [], gas - 1)
  {
    assert w.tokens[Xt(EXIT)] == Native(EXIT);
  }

  lemma LiteralIsLocal(w: World, a: int, n: int, ds: seq<int>)
    requires Readable(w, a + 1) && w.mem[a + 1] == n
    ensures LocalStep(w, LIT_CELL, a, ds, []) ==
      if w.dcap - |ds| < 1 then Raise(E_STKOVERFLOW, ds) else Next(State(a + 2, ds + [n], [], 0))
  {
    hide NativeStep;
    C.InlineIsNative(Alone(w, []), LIT_CELL, State(a, ds, [a + 1], 0));
    LiteralStep(Alone(w, []), State(a, ds, [a + 1], 0), a + 1);
    assert [] + [a + 1] == [a + 1];
  }

  lemma LiteralStep(w: World, s: State, a: int)
    requires s.rs == [a] && s.tr0 == 0 && Readable(w, a)
    ensures InlineStep(w, LIT_CELL, s) ==
      if w.dcap - |s.ds| < 1 then Raise(E_STKOVERFLOW, s.ds)
      else Next(State(a + 1, s.ds + [w.mem[a]], [], 0))
  {
    hide StringCells;
  }

  lemma NumberSteps(w: World, a: int, n: int, ds: seq<int>, gas: nat)
    requires Builtins(w) && Readable(w, a) && w.mem[a] == Xt(LIT_CELL) && Readable(w, a + 1) && w.mem[a + 1] == n
    ensures PureLoop(w, a, ds, [], gas) ==
      if gas == 0 then Unfinished
      else if w.dcap - |ds| < 1 then Fails(E_STKOVERFLOW, ds)
      else PureLoop(w, a + 2, ds + [n], [], gas - 1)
  {
    assert w.tokens[Xt(LIT_CELL)] == Native(LIT_CELL);
    assert Xt(LIT_CELL) in w.tokens;
    LiteralIsLocal(w, a, n, ds);
    hide Builtins, LocalStep;
  }

  lemma NamedSteps(w: World, a: int, xt: int, ds: seq<int>, gas: nat)
    requires Readable(w, a) && w.mem[a] == xt && xt in w.tokens && xt != Xt(EXIT)
    requires !PureExecute(w, xt, ds, gas).Strays?
    ensures PureLoop(w, a, ds, [], gas) ==
      var r := PureExecute(w, xt, ds, gas);
      if r.Gives? then PureLoop(w, a + 1, r.ds, [], r.gas) else r
  {
    hide LocalStep, NativeStep;
    if gas != 0 {
      assert PureExecute(w, xt, ds, gas) == PureCode(w, xt, ds, gas - 1);
    }
  }

  /** For words already looked up: executing one after the other, and running a definition that holds their
      cells, give the same data stack or the same error, unless the return stack is short and one of the
      two overflows it.  The definition takes one call more to enter and one to leave.  Evaluating.dfy goes
      on from here to the text itself. */
  lemma InterpretIsCompileAndRun(w: World, items: seq<Item>, colon: int, s: State, t: State, gas: nat)
    requires Builtins(w) && Known(w, items)
    requires colon in w.tokens && w.tokens[colon].Threaded?
    requires Holds(w.mem, colon + 2, ItemCells(items) + [Xt(EXIT)])
    requires 0 <= s.tr0 <= |s.rs| && 0 <= t.tr0 <= |t.rs| && s.ds == t.ds
    requires KeepsOff(w, items, s.ds, gas)
    ensures var i, r := Interpret(w, items, s, gas), Execute(w, true, colon, t, gas + 1);
      || RanShort(w, s, gas, i) || RanShort(w, t, gas + 1, r)
      || match i
         case Done(s', g) =>
           && s'.rs == s.rs && s'.tr0 == s.tr0
           && (if g == 0 then r.Spent? else r == Done(Resumed(t).(ds := s'.ds), g - 1))
         case Throw(_, _) => r == i
         case Spent(_) => r.Spent?
         case Fault => r.Fault?
  {
    hide Interpret, PureItems, PureLoop, Execute, Builtins, Known, Holds;
    InterpretsPurely(w, items, s, gas);
    CompiledRunsPurely(w, items, colon + 2, s.ds, gas);
    ExecuteFlattens(w, colon, t, gas + 1);
    ExecuteIsPure(w, colon, t, gas + 1);
    ColonIsThread(w, colon, t.ds, gas);
    assert t.rs + [] == t.rs;
  }

  lemma ColonIsThread(w: World, colon: int, ds: seq<int>, gas: nat)
    requires colon in w.tokens && w.tokens[colon].Threaded?
    ensures PureExecute(w, colon, ds, gas + 1) == PureThread(w, colon + 2, ds, gas)
  {
    hide PureThread;
  }
}
