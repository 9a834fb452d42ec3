/** CATCH as a word of the machine.  The interpreter of the Machine module, in its recursive form, is given
    the cells of the return-stack array above the pointer, since a caught throw moves the pointer back up,
    and CATCH.  Without CATCH it does what Machine does; with it, no word changes a cell below the pointer of
    its caller, so a caught throw finds the return address, and every frame below it, as they were. */
module Catching {
  import opened Words
  import opened Machine
  import opened Frames
  import X = Exceptions

  const CATCH_XT: int := BUILTIN_XT + 2 * 182

  /** A state, and what the rest of the return-stack array holds. */
  datatype Full = Full(s: State, above: seq<int>)

  function Cells(p: Full): seq<int> {
    p.s.rs + p.above
  }

  /** From p to state s: pushing overwrites cells, popping leaves them. */
  function Moved(p: Full, s: State): (q: Full)
    ensures q.s == s
  {
    Full(s, if |s.rs| <= |Cells(p)| then Cells(p)[|s.rs|..] else [])
  }

  /** Like Machine.Outcome; a throw also says what is in the return-stack array and what gas is left. */
  datatype Result =
    | Back(p: Full, gas: nat)
    | Thrown(code: int, ds: seq<int>, cells: seq<int>, gas: nat)
    | Out(p: Full)
    | Stuck

  /** What a data cell above the pointer holds when a catch goes on with so much gas.  Nothing is known of
      it: everything holds for every such function. */
  type Leftover = (nat, nat) -> int

  /** The data stack moved back to depth n. */
  function Restacked(junk: Leftover, ds: seq<int>, n: nat, gas: nat): (r: seq<int>)
    ensures |r| == n && forall i :: 0 <= i < n && i < |ds| ==> r[i] == ds[i]
  {
    seq(n, i requires 0 <= i < n => if i < |ds| then ds[i] else junk(gas, i))
  }

  function Lift(p: Full, st: Step, gas: nat): Result {
    match st
    case Next(s) => Back(Moved(p, s), gas)
    case Raise(code, ds) => Thrown(code, ds, Cells(p), gas)
    case Bad => Stuck
  }

  function LiftRet(r: Result): (r': Result)
    ensures r'.Back? ==> r.Back? && r'.gas == r.gas
    ensures r'.Thrown? ==> (r.Thrown? || r.Back?) && r'.gas == r.gas
  {
    if r.Back? then Lift(r.p, Ret(r.p.s), r.gas) else r
  }

  /** e4__execute; armed says that a catch is running. */
  function Call(w: World, junk: Leftover, armed: bool, xt: int, p: Full, gas: nat): (r: Result)
    ensures r.Back? || r.Thrown? ==> r.gas < gas
    decreases gas, 0
  {
    if gas == 0 then Out(p)
    else if w.rcap - |p.s.rs| < 1 then Thrown(E_RSTKOVERFLOW, p.s.ds, Cells(p), gas - 1)
    else
      var q := Moved(p, p.s.(rs := p.s.rs + [if p.s.ip != 0 then p.s.ip + 1 else 0]));
      var r := Code(w, junk, armed, xt, q, gas - 1);
      if r.Back? && p.s.ip == 0 then r.(p := r.p.(s := r.p.s.(ip := 0))) else r
  }

  function Code(w: World, junk: Leftover, armed: bool, xt: int, p: Full, gas: nat): (r: Result)
    ensures r.Back? || r.Thrown? ==> r.gas <= gas
    decreases gas, 3
  {
    var s := p.s;
    if xt == CATCH_XT then Catch(w, junk, armed, p, gas)
    else if xt !in w.tokens then Stuck
    else match w.tokens[xt]
      case Native(EXECUTE) =>
        if |s.ds| < 1 then Thrown(E_STKUNDERFLOW, s.ds, Cells(p), gas)
        else LiftRet(Call(w, junk, armed, s.ds[|s.ds| - 1], p.(s := s.(ds := s.ds[..|s.ds| - 1])), gas))
      case Native(b) => Lift(p, NativeStep(w, b, s), gas)
      case Threaded => Thread(w, junk, armed, xt + 2, p, gas)
      case Thunk(table) => Thread(w, junk, armed, table, p, gas)
      case Does(body) =>
        if w.dcap - |s.ds| < 1 then Thrown(E_STKOVERFLOW, s.ds, Cells(p), gas)
        else Thread(w, junk, armed, body, p.(s := s.(ds := s.ds + [xt + 2])), gas)
      case Defer(target) => LiftRet(Call(w, junk, armed, target, p, gas))
      case Constant(v) => Lift(p, Push(w, s, v), gas)
      case Variable => Lift(p, Push(w, s, xt + 2), gas)
  }

  /** The word CATCH.  The code goes on the stack without a check for room; QUIT and BYE are for the outermost
      catch, and QUIT leaves the data stack. */
  function Catch(w: World, junk: Leftover, armed: bool, p: Full, gas: nat): (r: Result)
    ensures r.Back? || r.Thrown? ==> r.gas <= gas
    decreases gas, 2
  {
    var s, n := p.s, |p.s.ds|;
    if n < 1 then Thrown(E_STKUNDERFLOW, s.ds, Cells(p), gas)
    else match Call(w, junk, true, s.ds[n - 1], p.(s := s.(ds := s.ds[..n - 1])), gas)
      case Back(q, g) => PushCode(w, q, 0, g)
      case Thrown(code, ds, cells, g) =>
        if armed && X.PassesInner(code) then Thrown(code, ds, cells, g)
        else if |cells| < |s.rs| then Stuck
        else
          var ds' := if code == X.E_QUIT then ds else Restacked(junk, ds, n - 1, g);
          PushCode(w, Full(State(0, ds', cells[..|s.rs|], s.tr0), cells[|s.rs|..]), code, g)
      case Out(q) => Out(q)
      case Stuck => Stuck
  }

  /** e4__stack_push(ex) and e4__execute_ret. */
  function PushCode(w: World, p: Full, code: int, gas: nat): (r: Result)
    ensures r.Back? || r.Thrown? ==> r.gas == gas
  {
    if |p.s.ds| >= w.dcap then Stuck
    else
      var q := p.(s := p.s.(ds := p.s.ds + [ToCell(code)]));
      Lift(q, Ret(q.s), gas)
  }

  /** e4__execute_threaded */
  function Thread(w: World, junk: Leftover, armed: bool, a: int, p: Full, gas: nat): (r: Result)
    ensures r.Back? || r.Thrown? ==> r.gas <= gas
    decreases gas, 2
  {
    var s := p.s;
    if w.rcap - |s.rs| < 1 then Thrown(E_RSTKOVERFLOW, s.ds, Cells(p), gas)
    else
      var r := Rounds(w, junk, armed, Moved(p, State(a, s.ds, s.rs + [s.tr0], |s.rs| + 1)), gas);
      if r.Back? then Lift(r.p, EndThread(r.p.s), r.gas) else r
  }

  function Rounds(w: World, junk: Leftover, armed: bool, p: Full, gas: nat): (r: Result)
    ensures r.Back? || r.Thrown? ==> r.gas <= gas
    decreases gas, 1
  {
    if !Readable(w, p.s.ip) then Stuck
    else
      var xt := w.mem[p.s.ip];
      if xt == Xt(EXIT) && xt in w.tokens then
        if gas == 0 then Out(p) else Back(p, gas - 1)
      else
        var r := Call(w, junk, armed, xt, p, gas);
        if r.Back? then Rounds(w, junk, armed, r.p, r.gas) else r
  }

  // ----- without CATCH it is the machine -----

  predicate Agrees(r: Result, o: Outcome) {
    match o
    case Done(s, g) => r.Back? && r.p.s == s && r.gas == g
    case Throw(code, ds) => r.Thrown? && r.code == code && r.ds == ds
    case Spent(s) => r.Out? && r.p.s == s
    case Fault => true
  }

  lemma {:induction false} CallAgrees(w: World, junk: Leftover, armed: bool, xt: int, p: Full, gas: nat)
    requires CATCH_XT !in w.tokens
    ensures Agrees(Call(w, junk, armed, xt, p, gas), Execute(w, false, xt, p.s, gas))
    decreases gas, 0
  {
    hide Code, RunCode;
    if gas != 0 && w.rcap - |p.s.rs| >= 1 {
      var q := Moved(p, p.s.(rs := p.s.rs + [if p.s.ip != 0 then p.s.ip + 1 else 0]));
      CodeAgrees(w, junk, armed, xt, q, gas - 1);
    }
  }

  lemma {:induction false} CodeAgrees(w: World, junk: Leftover, armed: bool, xt: int, p: Full, gas: nat)
    requires CATCH_XT !in w.tokens
    ensures Agrees(Code(w, junk, armed, xt, p, gas), RunCode(w, false, xt, p.s, gas))
    decreases gas, 3
  {
    hide NativeStep, EnterThread, Thread, Execute, Call, Ret;
    var s := p.s;
    if xt in w.tokens {
      match w.tokens[xt]
      case Native(b) =>
        if b == EXECUTE && |s.ds| > 0 {
          CallAgrees(w, junk, armed, s.ds[|s.ds| - 1], p.(s := s.(ds := s.ds[..|s.ds| - 1])), gas);
        }
      case Threaded => ThreadAgrees(w, junk, armed, xt + 2, p, gas);
      case Thunk(table) => ThreadAgrees(w, junk, armed, table, p, gas);
      case Does(body) => ThreadAgrees(w, junk, armed, body, p.(s := s.(ds := s.ds + [xt + 2])), gas);
      case Defer(target) => CallAgrees(w, junk, armed, target, p, gas);
      case Constant(_) =>
      case Variable =>
    }
  }

  lemma {:induction false} ThreadAgrees(w: World, junk: Leftover, armed: bool, a: int, p: Full, gas: nat)
    requires CATCH_XT !in w.tokens
    ensures Agrees(Thread(w, junk, armed, a, p, gas), EnterThread(w, false, a, p.s, gas))
    decreases gas, 2
  {
    hide Loop, Rounds;
    var s := p.s;
    RoundsAgree(w, junk, armed, Moved(p, State(a, s.ds, s.rs + [s.tr0], |s.rs| + 1)), gas);
  }

  lemma {:induction false} RoundsAgree(w: World, junk: Leftover, armed: bool, p: Full, gas: nat)
    requires CATCH_XT !in w.tokens
    ensures Agrees(Rounds(w, junk, armed, p, gas), Loop(w, false, 1, p.s, gas))
    decreases gas, 1
  {
    hide Call, Execute;
    if Readable(w, p.s.ip) && w.mem[p.s.ip] in w.tokens && w.mem[p.s.ip] != Xt(EXIT) {
      var xt := w.mem[p.s.ip];
      CallAgrees(w, junk, armed, xt, p, gas);
      var r := Call(w, junk, armed, xt, p, gas);
      if r.Back? {
        RoundsAgree(w, junk, armed, r.p, r.gas);
      }
    }
  }

  // ----- frames, throws included -----

  ghost predicate Sound(w: World, p: Full) {
    Framed(w, p.s) && |Cells(p)| == w.rcap
  }

  /** The n cells at the bottom of the array are the same. */
  predicate SameBelow(c: seq<int>, d: seq<int>, n: int) {
    0 <= n <= |c| == |d| && c[..n] == d[..n]
  }

  /** However it ends, r has not changed the n cells at the bottom, and a word that comes back is in the frame
      that it was called in. */
  ghost predicate Keeps(w: World, p: Full, r: Result, n: int) {
    match r
    case Back(q, _) => Sound(w, q) && q.s.tr0 == p.s.tr0 && SameBelow(Cells(q), Cells(p), n)
    case Thrown(_, _, cells, _) => SameBelow(cells, Cells(p), n)
    case Out(q) => Sound(w, q) && SameBelow(Cells(q), Cells(p), n)
    case Stuck => true
  }

  lemma MovedCells(p: Full, s: State, n: nat)
    requires |s.rs| <= |Cells(p)| && n <= |Cells(p)|
    requires forall i :: 0 <= i < n && i < |s.rs| ==> s.rs[i] == Cells(p)[i]
    ensures SameBelow(Cells(Moved(p, s)), Cells(p), n)
  {
  }

  /** Popping a return address changes no cell. */
  lemma RetStays(w: World, p: Full, gas: nat, n: int)
    requires Sound(w, p) && 0 <= n <= |Cells(p)|
    ensures Keeps(w, p, Lift(p, Ret(p.s), gas), n)
  {
    RetKeeps(w, p.s);
    if Ret(p.s).Next? {
      MovedCells(p, Ret(p.s).s, n);
    }
  }

  /** A word written in C writes no cell below its own return address. */
  lemma NativeAbove(w: World, b: Builtin, s: State)
    requires s.rs != []
    ensures var st := NativeStep(w, b, s);
      st.Next? ==> forall i :: 0 <= i < |s.rs| - 1 && i < |st.s.rs| ==> st.s.rs[i] == s.rs[i]
  {
    hide FrameStep, InlineStep, Effect;
    if IsFrameWord(b) {
      FrameAbove(w, b, s);
    } else if IsInline(b) {
      InlineAbove(w, b, s);
    }
  }

  lemma FrameAbove(w: World, b: Builtin, s: State)
    requires s.rs != [] && IsFrameWord(b)
    ensures var st := FrameStep(w, b, s);
      st.Next? ==> forall i :: 0 <= i < |s.rs| - 1 && i < |st.s.rs| ==> st.s.rs[i] == s.rs[i]
  {
  }

  lemma InlineAbove(w: World, b: Builtin, s: State)
    requires s.rs != [] && IsInline(b)
    ensures var st := InlineStep(w, b, s);
      st.Next? ==> forall i :: 0 <= i < |s.rs| - 1 && i < |st.s.rs| ==> st.s.rs[i] == s.rs[i]
  {
    hide StringCells;
  }

  lemma NativeStays(w: World, b: Builtin, p: Full, gas: nat)
    requires Sound(w, p) && p.s.tr0 < |p.s.rs|
    ensures Keeps(w, p, Lift(p, NativeStep(w, b, p.s), gas), |p.s.rs| - 1)
  {
    hide NativeStep;
    NativeKeeps(w, b, p.s);
    NativeAbove(w, b, p.s);
    var st := NativeStep(w, b, p.s);
    if st.Next? {
      MovedCells(p, st.s, |p.s.rs| - 1);
    }
  }

  /** Calling pushes above what is kept. */
  lemma Pushes(w: World, p: Full, v: int)
    requires Sound(w, p) && |p.s.rs| < w.rcap
    ensures var q := Moved(p, p.s.(rs := p.s.rs + [v]));
      Sound(w, q) && SameBelow(Cells(q), Cells(p), |p.s.rs|)
  {
    var rs := p.s.rs + [v];
    assert rs[..p.s.tr0] == p.s.rs[..p.s.tr0];
    ChainPrefix(p.s.rs, rs, p.s.tr0);
    MovedCells(p, p.s.(rs := rs), |p.s.rs|);
  }

  /** Whatever a word does, throwing included, every cell below the pointer of its caller stays. */
  lemma {:induction false} CallStays(w: World, junk: Leftover, armed: bool, xt: int, p: Full, gas: nat)
    requires Sound(w, p)
    ensures Keeps(w, p, Call(w, junk, armed, xt, p, gas), |p.s.rs|)
    decreases gas, 0
  {
    hide Code, Framed;
    if gas != 0 && w.rcap - |p.s.rs| >= 1 {
      var v := if p.s.ip != 0 then p.s.ip + 1 else 0;
      var q := Moved(p, p.s.(rs := p.s.rs + [v]));
      PLength(w, p);
      Pushes(w, p, v);
      CodeStays(w, junk, armed, xt, q, gas - 1);
      KeptFrom(w, p, q, Code(w, junk, armed, xt, q, gas - 1), |p.s.rs|);
    }
  }

  lemma KeptFrom(w: World, p: Full, q: Full, r: Result, n: int)
    requires Keeps(w, q, r, n) && SameBelow(Cells(q), Cells(p), n) && q.s.tr0 == p.s.tr0
    ensures Keeps(w, p, r, n)
    ensures r.Back? ==> Sound(w, r.p.(s := r.p.s.(ip := 0)))
  {
    hide Chain;
  }

  /** What was popped or pushed on the data stack before does not matter. */
  lemma WithDs(w: World, p: Full, ds: seq<int>, r: Result, n: int)
    requires Sound(w, p)
    ensures var q := p.(s := p.s.(ds := ds)); Sound(w, q) && (Keeps(w, q, r, n) <==> Keeps(w, p, r, n))
  {
    hide Chain;
  }

  lemma {:induction false} CodeStays(w: World, junk: Leftover, armed: bool, xt: int, p: Full, gas: nat)
    requires Sound(w, p) && p.s.tr0 < |p.s.rs|
    ensures Keeps(w, p, Code(w, junk, armed, xt, p, gas), |p.s.rs| - 1)
    decreases gas, 3
  {
    hide NativeStep, Ret, Call, Catch, Thread, Framed, Cells, Moved;
    var s, n := p.s, |p.s.rs| - 1;
    PLength(w, p);
    if xt == CATCH_XT {
      CatchStays(w, junk, armed, p, gas);
    } else if xt in w.tokens {
      match w.tokens[xt]
      case Native(b) =>
        if b != EXECUTE {
          NativeStays(w, b, p, gas);
        } else if |s.ds| > 0 {
          RetCallStays(w, junk, armed, s.ds[|s.ds| - 1], p, s.ds[..|s.ds| - 1], gas);
        }
      case Threaded => ThreadStays(w, junk, armed, xt + 2, p, s.ds, gas);
      case Thunk(table) => ThreadStays(w, junk, armed, table, p, s.ds, gas);
      case Does(body) => ThreadStays(w, junk, armed, body, p, s.ds + [xt + 2], gas);
      case Defer(target) => RetCallStays(w, junk, armed, target, p, s.ds, gas);
      case Constant(v) => PushStays(w, p, v, gas);
      case Variable => PushStays(w, p, xt + 2, gas);
    }
  }

  lemma PLength(w: World, p: Full)
    requires Sound(w, p)
    ensures 0 <= p.s.tr0 <= |p.s.rs| <= |Cells(p)|
    ensures SameBelow(Cells(p), Cells(p), |p.s.rs|) && (p.s.rs != [] ==> SameBelow(Cells(p), Cells(p), |p.s.rs| - 1))
  {
  }

  lemma PushStays(w: World, p: Full, v: int, gas: nat)
    requires Sound(w, p) && p.s.tr0 < |p.s.rs|
    ensures Keeps(w, p, Lift(p, Push(w, p.s, v), gas), |p.s.rs| - 1)
  {
    var n, ds := |p.s.rs| - 1, p.s.ds + [v];
    var q := p.(s := p.s.(ds := ds));
    var r := Lift(q, Ret(q.s), gas);
    WithDs(w, p, ds, r, n);
    RetStays(w, q, gas, n);
  }

  lemma {:induction false} RetCallStays(w: World, junk: Leftover, armed: bool, xt: int, p: Full, ds: seq<int>, gas: nat)
    requires Sound(w, p) && p.s.tr0 < |p.s.rs|
    ensures Keeps(w, p, LiftRet(Call(w, junk, armed, xt, p.(s := p.s.(ds := ds)), gas)), |p.s.rs| - 1)
    decreases gas, 1
  {
    hide Call, Framed, Ret;
    PLength(w, p);
    var q, n := p.(s := p.s.(ds := ds)), |p.s.rs| - 1;
    WithDs(w, p, ds, Stuck, n);
    CallStays(w, junk, armed, xt, q, gas);
    var r := Call(w, junk, armed, xt, q, gas);
    Fewer(w, q, r, n + 1, n);
    if r.Back? {
      RetStays(w, r.p, r.gas, n);
      KeptOn(w, q, r.p, Lift(r.p, Ret(r.p.s), r.gas), n);
    }
    WithDs(w, p, ds, LiftRet(r), n);
  }

  lemma Fewer(w: World, p: Full, r: Result, m: int, n: int)
    requires Keeps(w, p, r, m) && 0 <= n <= m
    ensures Keeps(w, p, r, n)
  {
    hide Framed;
    forall c: seq<int>, d: seq<int> | SameBelow(c, d, m)
      ensures SameBelow(c, d, n)
    {
      assert c[..n] == c[..m][..n] && d[..n] == d[..m][..n];
    }
  }

  lemma KeptOn(w: World, p: Full, q: Full, r: Result, n: int)
    requires SameBelow(Cells(q), Cells(p), n) && q.s.tr0 == p.s.tr0 && Keeps(w, q, r, n)
    ensures Keeps(w, p, r, n)
  {
    hide Framed;
  }

  lemma {:induction false} CatchStays(w: World, junk: Leftover, armed: bool, p: Full, gas: nat)
    requires Sound(w, p) && p.s.tr0 < |p.s.rs|
    ensures Keeps(w, p, Catch(w, junk, armed, p, gas), |p.s.rs| - 1)
    decreases gas, 2
  {
    hide Call, Framed, PushCode;
    PLength(w, p);
    var s, n := p.s, |p.s.rs| - 1;
    if |s.ds| > 0 {
      var ds := s.ds[..|s.ds| - 1];
      var q := p.(s := s.(ds := ds));
      WithDs(w, p, ds, Stuck, n);
      CallStays(w, junk, true, s.ds[|s.ds| - 1], q, gas);
      var r := Call(w, junk, true, s.ds[|s.ds| - 1], q, gas);
      Fewer(w, q, r, n + 1, n);
      WithDs(w, p, ds, r, n);
      if r.Back? {
        PushCodeStays(w, p, r.p, 0, r.gas);
      } else if r.Thrown? && !(armed && X.PassesInner(r.code)) {
        var ds' := if r.code == X.E_QUIT then r.ds else Restacked(junk, r.ds, |ds|, r.gas);
        var t := Full(State(0, ds', r.cells[..|s.rs|], s.tr0), r.cells[|s.rs|..]);
        Rewound(w, p, r.cells, ds');
        PushCodeStays(w, p, t, r.code, r.gas);
      }
    }
  }

  /** The pointer moved back up to where it was: the cells below it are those of before. */
  lemma Rewound(w: World, p: Full, cells: seq<int>, ds: seq<int>)
    requires Sound(w, p) && SameBelow(cells, Cells(p), |p.s.rs|)
    ensures var n := |p.s.rs|;
      var t := Full(State(0, ds, cells[..n], p.s.tr0), cells[n..]);
      Sound(w, t) && t.s.rs == p.s.rs && SameBelow(Cells(t), Cells(p), n)
  {
    var n := |p.s.rs|;
    assert Cells(p)[..n] == p.s.rs;
    assert cells[..n] + cells[n..] == cells;
  }

  lemma PushCodeStays(w: World, p: Full, t: Full, code: int, gas: nat)
    requires Sound(w, p) && Sound(w, t) && p.s.tr0 < |p.s.rs| && t.s.tr0 == p.s.tr0
    requires SameBelow(Cells(t), Cells(p), |p.s.rs| - 1)
    ensures Keeps(w, p, PushCode(w, t, code, gas), |p.s.rs| - 1)
  {
    hide Framed, Ret;
    var n, ds := |p.s.rs| - 1, t.s.ds + [ToCell(code)];
    var q := t.(s := t.s.(ds := ds));
    WithDs(w, t, ds, Stuck, n);
    RetStays(w, q, gas, n);
    KeptOn(w, p, q, Lift(q, Ret(q.s), gas), n);
  }

  lemma {:induction false} ThreadStays(w: World, junk: Leftover, armed: bool, a: int, p: Full, ds: seq<int>, gas: nat)
    requires Sound(w, p) && p.s.tr0 < |p.s.rs|
    ensures Keeps(w, p, Thread(w, junk, armed, a, p.(s := p.s.(ds := ds)), gas), |p.s.rs| - 1)
    decreases gas, 2
  {
    hide Rounds, Framed, EndThread, Moved, SameBelow;
    PLength(w, p);
    var n := |p.s.rs|;
    if w.rcap - n >= 1 {
      var q0 := p.(s := p.s.(ds := ds));
      var q := Moved(q0, State(a, ds, p.s.rs + [p.s.tr0], n + 1));
      Opens(w, p, q0, a, ds);
      RoundsStay(w, junk, armed, q, gas);
      var r := Rounds(w, junk, armed, q, gas);
      Closes(w, p, q, r, n);
    }
  }

  /** The frame of a thread is opened above all that is kept. */
  lemma Opens(w: World, p: Full, q0: Full, a: int, ds: seq<int>)
    requires Sound(w, p) && p.s.tr0 < |p.s.rs| < w.rcap && q0 == p.(s := p.s.(ds := ds))
    ensures var n := |p.s.rs|;
      var q := Moved(q0, State(a, ds, p.s.rs + [p.s.tr0], n + 1));
      Sound(w, q) && SameBelow(Cells(q), Cells(p), n) && Cells(q)[..n + 1] == p.s.rs + [p.s.tr0]
  {
    var n := |p.s.rs|;
    var s := State(a, ds, p.s.rs + [p.s.tr0], n + 1);
    assert s.rs[..p.s.tr0] == p.s.rs[..p.s.tr0];
    ChainPrefix(p.s.rs, s.rs, p.s.tr0);
    MovedCells(q0, s, n);
  }

  /** And closed on exactly what was there. */
  lemma Closes(w: World, p: Full, q: Full, r: Result, n: nat)
    requires Sound(w, p) && n == |p.s.rs| && p.s.tr0 < n < |Cells(q)|
    requires SameBelow(Cells(q), Cells(p), n) && Cells(q)[..n + 1] == p.s.rs + [p.s.tr0] && q.s.tr0 == n + 1
    requires Keeps(w, q, r, n + 1)
    ensures Keeps(w, p, if r.Back? then Lift(r.p, EndThread(r.p.s), r.gas) else r, n - 1)
  {
    hide Framed, EndThread;
    PLength(w, p);
    Fewer(w, q, r, n + 1, n - 1);
    if r.Back? {
      ThreadReturns(w, p, r.p, n);
      var st := EndThread(r.p.s);
      if st.Next? {
        MovedCells(r.p, st.s, n - 1);
      }
    }
  }

  lemma ThreadReturns(w: World, p: Full, q: Full, n: nat)
    requires Sound(w, p) && Sound(w, q) && n == |p.s.rs| && p.s.tr0 < n < |Cells(q)|
    requires Cells(q)[..n + 1] == p.s.rs + [p.s.tr0] && q.s.tr0 == n + 1
    ensures var st := EndThread(q.s);
      && !st.Bad?
      && (st.Next? ==>
            && Framed(w, st.s) && st.s.tr0 == p.s.tr0 && st.s.rs == p.s.rs[..n - 1]
            && forall i :: 0 <= i < n - 1 ==> st.s.rs[i] == Cells(q)[i])
  {
    if |q.s.rs| == n + 1 {
      assert q.s.rs == Cells(q)[..n + 1];
      assert q.s.rs[n] == p.s.tr0 && q.s.rs[..n] == p.s.rs;
      assert p.s.rs[..n - 1][..p.s.tr0] == p.s.rs[..p.s.tr0];
      ChainPrefix(p.s.rs, p.s.rs[..n - 1], p.s.tr0);
      forall i | 0 <= i < n - 1
        ensures p.s.rs[..n - 1][i] == Cells(q)[i]
      {
        assert Cells(q)[..n + 1][i] == (p.s.rs + [p.s.tr0])[i];
      }
    }
  }

  lemma {:induction false} RoundsStay(w: World, junk: Leftover, armed: bool, p: Full, gas: nat)
    requires Sound(w, p)
    ensures Keeps(w, p, Rounds(w, junk, armed, p, gas), p.s.tr0)
    decreases gas, 1
  {
    hide Call, Framed;
    PLength(w, p);
    assert SameBelow(Cells(p), Cells(p), p.s.tr0);
    if Readable(w, p.s.ip) && !(w.mem[p.s.ip] == Xt(EXIT) && w.mem[p.s.ip] in w.tokens) {
      var xt := w.mem[p.s.ip];
      CallStays(w, junk, armed, xt, p, gas);
      var r := Call(w, junk, armed, xt, p, gas);
      Fewer(w, p, r, |p.s.rs|, p.s.tr0);
      if r.Back? {
        RoundsStay(w, junk, armed, r.p, r.gas);
        KeptOn(w, p, r.p, Rounds(w, junk, armed, r.p, r.gas), p.s.tr0);
      }
    }
  }

  // ----- the catch law -----

  /** A thread that comes back has restored the return stack of its caller. */
  lemma ThreadComesBack(w: World, junk: Leftover, armed: bool, xt: int, p: Full, gas: nat)
    requires Sound(w, p) && p.s.tr0 < |p.s.rs| && IsThread(w, xt) && xt != CATCH_XT
    ensures var r, n := Code(w, junk, armed, xt, p, gas), |p.s.rs|;
      r.Back? ==> r.p.s.rs == p.s.rs[..n - 1] && r.p.s.ip == p.s.rs[n - 1] && r.p.s.tr0 == p.s.tr0
  {
    hide Rounds, Framed, EndThread;
    PLength(w, p);
    var n := |p.s.rs|;
    var a := match w.tokens[xt] case Threaded => xt + 2 case Thunk(table) => table case Does(body) => body case _ => 0;
    var ds := if w.tokens[xt].Does? then p.s.ds + [xt + 2] else p.s.ds;
    if w.rcap - n >= 1 {
      var q0 := p.(s := p.s.(ds := ds));
      var q := Moved(q0, State(a, ds, p.s.rs + [p.s.tr0], n + 1));
      Opens(w, p, q0, a, ds);
      RoundsStay(w, junk, armed, q, gas);
      var r := Rounds(w, junk, armed, q, gas);
      if r.Back? {
        ThreadReturns(w, p, r.p, n);
        EndThreadIp(r.p.s, p.s.rs, p.s.tr0, Cells(r.p));
      }
    }
  }

  lemma EndThreadIp(s: State, rs: seq<int>, tr0: int, cells: seq<int>)
    requires rs != [] && |rs| + 1 <= |cells| && cells[..|rs| + 1] == rs + [tr0] && s.tr0 == |rs| + 1
    requires |s.rs| <= |cells| && s.rs == cells[..|s.rs|]
    ensures EndThread(s).Next? ==> EndThread(s).s.ip == rs[|rs| - 1]
  {
  }

  /** The call of CATCH, its argument off the stack. */
  function Entered(p: Full): Full
    requires p.s.ds != []
  {
    Moved(p, p.s.(rs := p.s.rs + [if p.s.ip != 0 then p.s.ip + 1 else 0], ds := p.s.ds[..|p.s.ds| - 1]))
  }

  /** Back at the cell after CATCH, with the frame of its caller and this data stack. */
  predicate Resumes(r: Result, p: Full, ds: seq<int>, gas: nat) {
    && r.Back? && r.gas == gas
    && r.p.s == p.s.(ip := if p.s.ip != 0 then p.s.ip + 1 else 0, ds := ds)
    && SameBelow(Cells(r.p), Cells(p), |p.s.rs|)
  }

  /** The catch law.  After anything at all that the caught word and the words it calls may do, nested
      catches included: a throw resumes behind CATCH, in the frame of its caller and with every frame below it
      as it was, the data stack as deep as it was before the call of the word, but for the code on top; a
      thread that comes back resumes at the same place with zero on top.  QUIT (-56) and BYE (-257) go on to the
      outermost catch, which leaves the data stack to QUIT. */
  lemma CatchLaw(w: World, junk: Leftover, armed: bool, p: Full, gas: nat)
    requires Sound(w, p) && 0 < |p.s.ds| <= w.dcap && |p.s.rs| < w.rcap && 0 < gas
    ensures var xt, n := p.s.ds[|p.s.ds| - 1], |p.s.ds| - 1;
      var r := Call(w, junk, armed, CATCH_XT, p, gas);
      match Call(w, junk, true, xt, Entered(p), gas - 1)
      case Thrown(code, ds, cells, g) =>
        if armed && (code == -56 || code == -257) then r == Thrown(code, ds, cells, g)
        else if code != -56 then Resumes(r, p, Restacked(junk, ds, n, g) + [ToCell(code)], g)
        else if |ds| < w.dcap then Resumes(r, p, ds + [ToCell(code)], g)
        else r.Stuck?
      case Back(t, g) =>
        IsThread(w, xt) && xt != CATCH_XT ==>
          if |t.s.ds| < w.dcap then Resumes(r, p, t.s.ds + [ToCell(0)], g) else r.Stuck?
      case Out(t) => r == Out(t)
      case Stuck => r.Stuck?
  {
    hide Call, Framed, PushCode, SameBelow, Moved, Restacked;
    var xt, n := p.s.ds[|p.s.ds| - 1], |p.s.ds| - 1;
    var v, e := if p.s.ip != 0 then p.s.ip + 1 else 0, Entered(p);
    CatchIsCalled(w, junk, armed, p, gas);
    PLength(w, p);
    Pushes(w, p, v);
    WithDs(w, Moved(p, p.s.(rs := p.s.rs + [v])), p.s.ds[..n], Stuck, 0);
    CallStays(w, junk, true, xt, e, gas - 1);
    match Call(w, junk, true, xt, e, gas - 1)
    case Thrown(code, ds, cells, g) =>
      if !(armed && X.PassesInner(code)) {
        var ds' := if code == X.E_QUIT then ds else Restacked(junk, ds, n, g);
        Rewound(w, e, cells, ds');
        Below(cells, Cells(e), Cells(p), |p.s.rs|);
        Returns(w, p, Full(State(0, ds', cells[..|e.s.rs|], e.s.tr0), cells[|e.s.rs|..]), v, code, g);
      }
    case Back(t, g) =>
      if IsThread(w, xt) && xt != CATCH_XT {
        ThreadCallReturns(w, junk, true, xt, e, gas - 1);
        Below(Cells(t), Cells(e), Cells(p), |p.s.rs|);
        Returns(w, p, t, v, 0, g);
      }
    case Out(_) =>
    case Stuck =>
  }

  lemma Below(c: seq<int>, d: seq<int>, e: seq<int>, n: int)
    requires SameBelow(c, d, n + 1) && SameBelow(d, e, n) && 0 <= n
    ensures SameBelow(c, e, n)
  {
    assert c[..n] == c[..n + 1][..n] == d[..n + 1][..n] == d[..n];
  }

  lemma CatchIsCalled(w: World, junk: Leftover, armed: bool, p: Full, gas: nat)
    requires 0 < |p.s.ds| && |p.s.rs| < w.rcap && 0 < gas
    ensures var q := Moved(p, p.s.(rs := p.s.rs + [if p.s.ip != 0 then p.s.ip + 1 else 0]));
      && Entered(p) == q.(s := q.s.(ds := q.s.ds[..|q.s.ds| - 1]))
      && var r := Catch(w, junk, armed, q, gas - 1);
         Call(w, junk, armed, CATCH_XT, p, gas) ==
           if r.Back? && p.s.ip == 0 then r.(p := r.p.(s := r.p.s.(ip := 0))) else r
  {
    hide Catch;
  }

  lemma Returns(w: World, p: Full, t: Full, v: int, code: int, gas: nat)
    requires t.s.rs == p.s.rs + [v] && t.s.tr0 == p.s.tr0 && 0 <= p.s.tr0 <= |p.s.rs|
    requires SameBelow(Cells(t), Cells(p), |p.s.rs|)
    ensures var r := PushCode(w, t, code, gas);
      if |t.s.ds| < w.dcap then
        && r.Back? && r.gas == gas && r.p.s == State(v, t.s.ds + [ToCell(code)], p.s.rs, p.s.tr0)
        && SameBelow(Cells(r.p), Cells(p), |p.s.rs|)
      else r.Stuck?
  {
    if |t.s.ds| < w.dcap {
      var ds := t.s.ds + [ToCell(code)];
      var q := t.(s := t.s.(ds := ds));
      assert t.s.rs[..|p.s.rs|] == p.s.rs;
      assert Ret(q.s) == Next(State(v, ds, p.s.rs, p.s.tr0));
      MovedCells(q, Ret(q.s).s, |p.s.rs|);
    }
  }

  lemma ThreadCallReturns(w: World, junk: Leftover, armed: bool, xt: int, p: Full, gas: nat)
    requires Sound(w, p) && IsThread(w, xt) && xt != CATCH_XT
    ensures var r := Call(w, junk, armed, xt, p, gas);
      r.Back? ==> r.p.s.rs == p.s.rs && r.p.s.tr0 == p.s.tr0
  {
    hide Code, Framed;
    if gas != 0 && w.rcap - |p.s.rs| >= 1 {
      var v := if p.s.ip != 0 then p.s.ip + 1 else 0;
      var q := Moved(p, p.s.(rs := p.s.rs + [v]));
      PLength(w, p);
      Pushes(w, p, v);
      ThreadComesBack(w, junk, armed, xt, q, gas - 1);
      assert q.s.rs[..|q.s.rs| - 1] == p.s.rs;
    }
  }
}
