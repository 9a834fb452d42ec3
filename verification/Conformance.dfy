/** Where the compiled LEAVE is the LEAVE of Forth 2012, section 6.1.1760, which leaves the innermost DO
    loop: exactly in the programs that have no CASE between a LEAVE and its loop.  And what becomes of a
    number or word that happens to be the address of SENTINEL. */
module Conformance {
  import opened Words
  import opened Machine
  import opened Structured
  import opened Compiling
  import opened Emission

  /** The code that the standard asks for: LEAVE passes through CASE. */
  function StdCode(p: Stmt, leave: Target): (cells: seq<int>)
    ensures |cells| == Len(p)
  {
    match p
    case Skip => []
    case Word(xt) => [xt]
    case Lit(n) => [Xt(LIT_CELL), n]
    case Leave => [Xt(BRANCH), Hole(leave, 1)]
    case Exit => [Xt(EXIT)]
    case Seq(q, r) => StdCode(q, leave) + StdCode(r, Shift(leave, Len(q)))
    case If(q) => IfCells(StdCode(q, Shift(leave, 2)))
    case IfElse(q, r) => IfElseCells(StdCode(q, Shift(leave, 2)), StdCode(r, Shift(leave, Len(q) + 4)))
    case Until(q) => UntilCells(StdCode(q, leave))
    case While(q, r) => WhileCells(StdCode(q, leave), StdCode(r, Shift(leave, Len(q) + 2)))
    case Again(q) => AgainCells(StdCode(q, leave))
    case Do(query, plain, q) => DoCells(query, plain, StdCode(q, At(LoopExit(plain, q))))
    case Case(arms) => StdArms(arms, leave, At(ArmsLen(arms)))
  }

  function StdArms(arms: Arms, leave: Target, end: Target): (cells: seq<int>)
    ensures |cells| == ArmsLen(arms)
  {
    match arms
    case Default(q) => StdCode(q, leave) + [Xt(DROP)]
    case Of(q, r, rest) =>
      var m, n := Len(q), Len(r);
      OfCells(StdCode(q, leave), StdCode(r, Shift(leave, m + 5)), Hole(end, m + n + 6),
        StdArms(rest, Shift(leave, m + n + 7), Shift(end, m + n + 7)))
  }

  /** A LEAVE that no DO loop inside p encloses. */
  predicate HasLeave(p: Stmt) {
    match p
    case Leave => true
    case Seq(q, r) => HasLeave(q) || HasLeave(r)
    case If(q) => HasLeave(q)
    case IfElse(q, r) => HasLeave(q) || HasLeave(r)
    case Until(q) => HasLeave(q)
    case While(q, r) => HasLeave(q) || HasLeave(r)
    case Again(q) => HasLeave(q)
    case Case(arms) => ArmsHaveLeave(arms)
    case _ => false
  }

  predicate ArmsHaveLeave(arms: Arms) {
    match arms
    case Default(q) => HasLeave(q)
    case Of(q, r, rest) => HasLeave(q) || HasLeave(r) || ArmsHaveLeave(rest)
  }

  /** Somewhere a CASE stands between a LEAVE and its loop. */
  predicate Captured(p: Stmt) {
    match p
    case Seq(q, r) => Captured(q) || Captured(r)
    case If(q) => Captured(q)
    case IfElse(q, r) => Captured(q) || Captured(r)
    case Until(q) => Captured(q)
    case While(q, r) => Captured(q) || Captured(r)
    case Again(q) => Captured(q)
    case Do(_, _, q) => Captured(q)
    case Case(arms) => ArmsHaveLeave(arms) || ArmsCaptured(arms)
    case _ => false
  }

  predicate ArmsCaptured(arms: Arms) {
    match arms
    case Default(q) => Captured(q)
    case Of(q, r, rest) => Captured(q) || Captured(r) || ArmsCaptured(rest)
  }

  lemma {:induction false} SameCode(p: Stmt, t: Target, u: Target)
    requires !Captured(p) && (t == u || !HasLeave(p))
    ensures Code(p, t) == StdCode(p, u)
    decreases p
  {
    hide IfCells, IfElseCells, UntilCells, WhileCells, AgainCells, DoCells, OfCells, Xt, Off;
    match p
    case Seq(q, r) => SameCode(q, t, u); SameCode(r, Shift(t, Len(q)), Shift(u, Len(q)));
    case If(q) => SameCode(q, Shift(t, 2), Shift(u, 2));
    case IfElse(q, r) =>
      SameCode(q, Shift(t, 2), Shift(u, 2));
      SameCode(r, Shift(t, Len(q) + 4), Shift(u, Len(q) + 4));
    case Until(q) => SameCode(q, t, u);
    case While(q, r) => SameCode(q, t, u); SameCode(r, Shift(t, Len(q) + 2), Shift(u, Len(q) + 2));
    case Again(q) => SameCode(q, t, u);
    case Do(_, plain, q) => SameCode(q, At(LoopExit(plain, q)), At(LoopExit(plain, q)));
    case Case(arms) => SameArms(arms, u, At(ArmsLen(arms)));
    case _ =>
  }

  lemma {:induction false} SameArms(arms: Arms, u: Target, end: Target)
    requires !ArmsCaptured(arms) && !ArmsHaveLeave(arms)
    ensures ArmsCode(arms, end) == StdArms(arms, u, end)
    decreases arms
  {
    hide OfCells, Xt, Off, Hole, Len, HasLeave, Captured, Code, StdCode;
    match arms
    case Default(q) => SameCode(q, end, u);
    case Of(q, r, rest) =>
      var m, n := Len(q), Len(r);
      SameCode(q, end, u);
      SameCode(r, Shift(end, m + 5), Shift(u, m + 5));
      SameArms(rest, Shift(u, m + n + 7), Shift(end, m + n + 7));
  }

  // ----- one constructor at a time -----

  lemma SeqCode(q: Stmt, r: Stmt, t: Target)
    ensures var p, v := Seq(q, r), Shift(t, Len(q));
      && Len(p) == Len(q) + Len(r)
      && Code(p, t) == Code(q, t) + Code(r, v) && StdCode(p, t) == StdCode(q, t) + StdCode(r, v)
      && Raw(p) == Raw(q) + Raw(r)
  {
  }

  lemma IfCode(q: Stmt, t: Target)
    ensures var p, u := If(q), Shift(t, 2);
      && Len(p) == Len(q) + 2
      && Code(p, t) == IfCells(Code(q, u)) && StdCode(p, t) == IfCells(StdCode(q, u))
      && Raw(p) == IfCells(Raw(q))
  {
    hide IfCells;
  }

  lemma IfElseCode(q: Stmt, r: Stmt, t: Target)
    ensures var p, u, v := IfElse(q, r), Shift(t, 2), Shift(t, Len(q) + 4);
      && Len(p) == Len(q) + Len(r) + 4
      && Code(p, t) == IfElseCells(Code(q, u), Code(r, v)) && StdCode(p, t) == IfElseCells(StdCode(q, u), StdCode(r, v))
      && Raw(p) == IfElseCells(Raw(q), Raw(r))
  {
    hide IfElseCells;
  }

  lemma UntilCode(q: Stmt, t: Target)
    ensures var p := Until(q);
      && Len(p) == Len(q) + 2
      && Code(p, t) == UntilCells(Code(q, t)) && StdCode(p, t) == UntilCells(StdCode(q, t))
      && Raw(p) == UntilCells(Raw(q))
  {
    hide UntilCells;
  }

  lemma WhileCode(q: Stmt, r: Stmt, t: Target)
    ensures var p, v := While(q, r), Shift(t, Len(q) + 2);
      && Len(p) == Len(q) + Len(r) + 4
      && Code(p, t) == WhileCells(Code(q, t), Code(r, v)) && StdCode(p, t) == WhileCells(StdCode(q, t), StdCode(r, v))
      && Raw(p) == WhileCells(Raw(q), Raw(r))
  {
    hide WhileCells;
  }

  lemma AgainCode(q: Stmt, t: Target)
    ensures var p := Again(q);
      && Len(p) == Len(q) + 2
      && Code(p, t) == AgainCells(Code(q, t)) && StdCode(p, t) == AgainCells(StdCode(q, t))
      && Raw(p) == AgainCells(Raw(q))
  {
    hide AgainCells;
  }

  lemma DoCode(query: bool, plain: bool, q: Stmt, t: Target)
    ensures var p, u := Do(query, plain, q), At(LoopExit(plain, q));
      && Len(p) == |DoPrefix(query)| + Len(q) + |Increment(plain)| + 10
      && Code(p, t) == DoCells(query, plain, Code(q, u)) && StdCode(p, t) == DoCells(query, plain, StdCode(q, u))
      && Raw(p) == RawDo(query, plain, Raw(q))
  {
    hide DoCells, RawDo, DoPrefix, Increment;
  }

  lemma CaseCode(arms: Arms, t: Target)
    ensures var p, u := Case(arms), At(ArmsLen(arms));
      && Len(p) == ArmsLen(arms)
      && Code(p, t) == ArmsCode(arms, u) && StdCode(p, t) == StdArms(arms, t, u)
      && Raw(p) == Patch(RawArms(arms), ArmsLen(arms))
  {
    hide Patch;
  }

  // ----- the parts can be read off the whole -----

  lemma IfParts(x: seq<int>, y: seq<int>)
    requires |x| == |y| && IfCells(x) == IfCells(y)
    ensures x == y
  {
    assert IfCells(x)[2..] == x && IfCells(y)[2..] == y;
  }

  lemma ConcatParts(x: seq<int>, y: seq<int>, x': seq<int>, y': seq<int>)
    requires |x| == |x'| && x + y == x' + y'
    ensures x == x' && y == y'
  {
    assert (x + y)[..|x|] == x && (x' + y')[..|x|] == x';
    assert (x + y)[|x|..] == y && (x' + y')[|x|..] == y';
  }

  lemma IfElseParts(x: seq<int>, y: seq<int>, x': seq<int>, y': seq<int>)
    requires |x| == |x'| && |y| == |y'| && IfElseCells(x, y) == IfElseCells(x', y')
    ensures x == x' && y == y'
  {
    hide Xt, Off;
    var head, hop := [Xt(BRANCH0), Off(|x| + 3)], [Xt(BRANCH), Off(|y| + 1)];
    ConcatParts(head, x + (hop + y), head, x' + (hop + y'));
    ConcatParts(x, hop + y, x', hop + y');
    ConcatParts(hop, y, hop, y');
  }

  lemma WhileParts(x: seq<int>, y: seq<int>, x': seq<int>, y': seq<int>)
    requires |x| == |x'| && |y| == |y'| && WhileCells(x, y) == WhileCells(x', y')
    ensures x == x' && y == y'
  {
    hide Xt, Off;
    var head, tail := [Xt(BRANCH0), Off(|y| + 3)], [Xt(BRANCH), Off(0 - |x| - |y| - 3)];
    ConcatParts(x, head + (y + tail), x', head + (y' + tail));
    ConcatParts(head, y + tail, head, y' + tail);
    ConcatParts(y, tail, y', tail);
  }

  lemma DoParts(query: bool, plain: bool, x: seq<int>, y: seq<int>)
    requires |x| == |y| && DoCells(query, plain, x) == DoCells(query, plain, y)
    ensures x == y
  {
    hide Xt, Off, DoPrefix, Increment;
    var e := Off(|x| + |Increment(plain)| + 7);
    ConcatParts(DoPrefix(query), LoopCells(plain, x, e) + [Xt(UNLOOP)],
                DoPrefix(query), LoopCells(plain, y, e) + [Xt(UNLOOP)]);
    ConcatParts(LoopCells(plain, x, e), [Xt(UNLOOP)], LoopCells(plain, y, e), [Xt(UNLOOP)]);
    assert LoopCells(plain, x, e)[3..3 + |x|] == x && LoopCells(plain, y, e)[3..3 + |x|] == y;
  }

  lemma OfParts(x: seq<int>, y: seq<int>, z: seq<int>, x': seq<int>, y': seq<int>, z': seq<int>, e: int)
    requires |x| == |x'| && |y| == |y'| && OfCells(x, y, e, z) == OfCells(x', y', e, z')
    ensures x == x' && y == y' && z == z'
  {
    hide Xt, Off;
    var head, hop := [Xt(OVER), Xt(EQUALS), Xt(BRANCH0), Off(|y| + 4), Xt(DROP)], [Xt(BRANCH), e];
    ConcatParts(x, head + (y + (hop + z)), x', head + (y' + (hop + z')));
    ConcatParts(head, y + (hop + z), head, y' + (hop + z'));
    ConcatParts(y, hop + z, y', hop + z');
    ConcatParts(hop, z, hop, z');
  }

  // ----- a captured LEAVE shows -----

  lemma SeqFacts(q: Stmt, r: Stmt)
    ensures var p := Seq(q, r);
      && Len(p) == Len(q) + Len(r)
      && Captured(p) == (Captured(q) || Captured(r)) && HasLeave(p) == (HasLeave(q) || HasLeave(r))
  {
  }

  lemma IfElseFacts(q: Stmt, r: Stmt)
    ensures var p := IfElse(q, r);
      && Len(p) == Len(q) + Len(r) + 4
      && Captured(p) == (Captured(q) || Captured(r)) && HasLeave(p) == (HasLeave(q) || HasLeave(r))
  {
  }

  lemma WhileFacts(q: Stmt, r: Stmt)
    ensures var p := While(q, r);
      && Len(p) == Len(q) + Len(r) + 4
      && Captured(p) == (Captured(q) || Captured(r)) && HasLeave(p) == (HasLeave(q) || HasLeave(r))
  {
  }

  lemma OffDiffers(j: int, k: int)
    requires 0 <= j < k < MODULUS
    ensures Off(j) != Off(k)
  {
    ModIs(j, MODULUS, 0, j);
    ModIs(k, MODULUS, 0, k);
  }

  /** With the LEAVE target closer than the standard's, or a LEAVE captured inside, some cell differs. */
  lemma {:induction false} CodeDiffers(p: Stmt, d: int, e: int)
    requires Len(p) <= d <= e < MODULUS && Len(p) < e
    requires Captured(p) || (HasLeave(p) && d < e)
    ensures Code(p, At(d)) != StdCode(p, At(e))
    decreases p, 2
  {
    hide Code, StdCode, Captured, HasLeave, Len;
    if p.Until? || p.While? || p.Again? || p.Do? {
      LoopDiffers(p, d, e);
    } else if p.Seq? || p.IfElse? {
      PairDiffers(p, d, e);
    } else {
      PlainDiffers(p, d, e);
    }
  }

  lemma {:induction false} PlainDiffers(p: Stmt, d: int, e: int)
    requires !(p.Until? || p.While? || p.Again? || p.Do? || p.Seq? || p.IfElse?)
    requires Len(p) <= d <= e < MODULUS && Len(p) < e
    requires Captured(p) || (HasLeave(p) && d < e)
    ensures Code(p, At(d)) != StdCode(p, At(e))
    decreases p, 1
  {
    hide IfCells, Xt, Off, Hole, ArmsCode, StdArms, ArmsHaveLeave, ArmsCaptured;
    match p
    case Leave => LeaveDiffers(d, e);
    case If(q) => IfDiffers(q, d - 2, e - 2);
    case Case(arms) => ArmsDiffer(arms, ArmsLen(arms), e, At(ArmsLen(arms)));
    case _ =>
  }

  lemma {:induction false} PairDiffers(p: Stmt, d: int, e: int)
    requires p.Seq? || p.IfElse?
    requires Len(p) <= d <= e < MODULUS && Len(p) < e
    requires Captured(p) || (HasLeave(p) && d < e)
    ensures Code(p, At(d)) != StdCode(p, At(e))
    decreases p, 1
  {
    hide Code, StdCode, IfElseCells, Xt, Off, Hole, Captured, HasLeave, Len;
    match p
    case Seq(q, r) =>
      SeqCode(q, r, At(d));
      SeqCode(q, r, At(e));
      SeqDiffers(q, r, d, e);
    case IfElse(q, r) =>
      IfElseCode(q, r, At(d));
      IfElseCode(q, r, At(e));
      IfElseDiffers(q, r, d, e);
  }

  lemma {:induction false} LoopDiffers(p: Stmt, d: int, e: int)
    requires p.Until? || p.While? || p.Again? || p.Do?
    requires Len(p) <= d <= e < MODULUS && Len(p) < e
    requires Captured(p) || (HasLeave(p) && d < e)
    ensures Code(p, At(d)) != StdCode(p, At(e))
    decreases p, 1
  {
    hide UntilCells, WhileCells, AgainCells, DoCells, Xt, Off, Hole;
    match p
    case Until(q) => BackDiffers(q, d, e);
    case While(q, r) => WhileDiffers(q, r, d, e);
    case Again(q) => BackDiffers(q, d, e);
    case Do(query, plain, q) => DoDiffers(query, plain, q);
  }

  lemma {:induction false} IfDiffers(q: Stmt, d: int, e: int)
    requires Len(q) <= d <= e < MODULUS && Len(q) < e && (Captured(q) || (HasLeave(q) && d < e))
    ensures IfCells(Code(q, At(d))) != IfCells(StdCode(q, At(e)))
    decreases q, 3
  {
    hide IfCells, Code, StdCode;
    CodeDiffers(q, d, e);
    if IfCells(Code(q, At(d))) == IfCells(StdCode(q, At(e))) {
      IfParts(Code(q, At(d)), StdCode(q, At(e)));
    }
  }

  lemma {:induction false} BackDiffers(q: Stmt, d: int, e: int)
    requires Len(q) <= d <= e < MODULUS && Len(q) < e && (Captured(q) || (HasLeave(q) && d < e))
    ensures UntilCells(Code(q, At(d))) != UntilCells(StdCode(q, At(e)))
    ensures AgainCells(Code(q, At(d))) != AgainCells(StdCode(q, At(e)))
    decreases q, 3
  {
    hide UntilCells, AgainCells, Code, StdCode;
    CodeDiffers(q, d, e);
    if UntilCells(Code(q, At(d))) == UntilCells(StdCode(q, At(e))) {
      UntilParts(Code(q, At(d)), StdCode(q, At(e)));
    }
    if AgainCells(Code(q, At(d))) == AgainCells(StdCode(q, At(e))) {
      AgainParts(Code(q, At(d)), StdCode(q, At(e)));
    }
  }

  lemma {:induction false} DoDiffers(query: bool, plain: bool, q: Stmt)
    requires LoopExit(plain, q) < MODULUS && Captured(q)
    ensures var t := At(LoopExit(plain, q));
      DoCells(query, plain, Code(q, t)) != DoCells(query, plain, StdCode(q, t))
    decreases q, 3
  {
    hide DoCells, Code, StdCode, Increment;
    var x := LoopExit(plain, q);
    CodeDiffers(q, x, x);
    if DoCells(query, plain, Code(q, At(x))) == DoCells(query, plain, StdCode(q, At(x))) {
      DoParts(query, plain, Code(q, At(x)), StdCode(q, At(x)));
    }
  }

  lemma {:induction false} IfElseDiffers(q: Stmt, r: Stmt, d: int, e: int)
    requires var p := IfElse(q, r); Len(p) <= d <= e < MODULUS && Len(p) < e && (Captured(p) || (HasLeave(p) && d < e))
    ensures var k := Len(q) + 4;
      IfElseCells(Code(q, At(d - 2)), Code(r, At(d - k))) != IfElseCells(StdCode(q, At(e - 2)), StdCode(r, At(e - k)))
    decreases IfElse(q, r), 0
  {
    IfElseFacts(q, r);
    hide IfElseCells, Code, StdCode, Len, HasLeave, Captured;
    var k := Len(q) + 4;
    if IfElseCells(Code(q, At(d - 2)), Code(r, At(d - k))) ==
       IfElseCells(StdCode(q, At(e - 2)), StdCode(r, At(e - k))) {
      IfElseParts(Code(q, At(d - 2)), Code(r, At(d - k)), StdCode(q, At(e - 2)), StdCode(r, At(e - k)));
      if Captured(q) || (HasLeave(q) && d < e) {
        CodeDiffers(q, d - 2, e - 2);
      } else {
        CodeDiffers(r, d - k, e - k);
      }
    }
  }

  lemma {:induction false} WhileDiffers(q: Stmt, r: Stmt, d: int, e: int)
    requires var p := While(q, r); Len(p) <= d <= e < MODULUS && Len(p) < e && (Captured(p) || (HasLeave(p) && d < e))
    ensures var k := Len(q) + 2;
      WhileCells(Code(q, At(d)), Code(r, At(d - k))) != WhileCells(StdCode(q, At(e)), StdCode(r, At(e - k)))
    decreases While(q, r), 0
  {
    WhileFacts(q, r);
    hide WhileCells, Code, StdCode, Len, HasLeave, Captured;
    var k := Len(q) + 2;
    if WhileCells(Code(q, At(d)), Code(r, At(d - k))) == WhileCells(StdCode(q, At(e)), StdCode(r, At(e - k))) {
      WhileParts(Code(q, At(d)), Code(r, At(d - k)), StdCode(q, At(e)), StdCode(r, At(e - k)));
      if Captured(q) || (HasLeave(q) && d < e) {
        CodeDiffers(q, d, e);
      } else {
        CodeDiffers(r, d - k, e - k);
      }
    }
  }

  lemma {:induction false} SeqDiffers(q: Stmt, r: Stmt, d: int, e: int)
    requires var p := Seq(q, r); Len(p) <= d <= e < MODULUS && Len(p) < e && (Captured(p) || (HasLeave(p) && d < e))
    ensures var k := Len(q);
      Code(q, At(d)) + Code(r, At(d - k)) != StdCode(q, At(e)) + StdCode(r, At(e - k))
    decreases Seq(q, r), 0
  {
    SeqFacts(q, r);
    hide Code, StdCode, Len, HasLeave, Captured;
    var k := Len(q);
    if Code(q, At(d)) + Code(r, At(d - k)) == StdCode(q, At(e)) + StdCode(r, At(e - k)) {
      ConcatParts(Code(q, At(d)), Code(r, At(d - k)), StdCode(q, At(e)), StdCode(r, At(e - k)));
      if Captured(q) || (HasLeave(q) && d < e) {
        CodeDiffers(q, d, e);
      } else {
        CodeDiffers(r, d - k, e - k);
      }
    }
  }

  lemma UntilParts(x: seq<int>, y: seq<int>)
    requires |x| == |y| && UntilCells(x) == UntilCells(y)
    ensures x == y
  {
    ConcatParts(x, [Xt(BRANCH0), Off(0 - |x| - 1)], y, [Xt(BRANCH0), Off(0 - |y| - 1)]);
  }

  lemma AgainParts(x: seq<int>, y: seq<int>)
    requires |x| == |y| && AgainCells(x) == AgainCells(y)
    ensures x == y
  {
    ConcatParts(x, [Xt(BRANCH), Off(0 - |x| - 1)], y, [Xt(BRANCH), Off(0 - |y| - 1)]);
  }

  lemma LeaveDiffers(d: int, e: int)
    requires 2 <= d < e < MODULUS
    ensures Code(Leave, At(d)) != StdCode(Leave, At(e))
  {
    OffDiffers(d - 1, e - 1);
    assert Code(Leave, At(d))[1] == Off(d - 1) && StdCode(Leave, At(e))[1] == Off(e - 1);
  }

  lemma {:induction false} ArmsDiffer(arms: Arms, d: int, e: int, end: Target)
    requires ArmsLen(arms) <= d < e < MODULUS && end == At(d)
    requires ArmsHaveLeave(arms) || ArmsCaptured(arms)
    ensures ArmsCode(arms, At(d)) != StdArms(arms, At(e), end)
    decreases arms, 0
  {
    hide OfCells, Xt, Off;
    if ArmsCode(arms, At(d)) == StdArms(arms, At(e), end) {
      match arms
      case Default(q) =>
        ConcatParts(Code(q, At(d)), [Xt(DROP)], StdCode(q, At(e)), [Xt(DROP)]);
        CodeDiffers(q, d, e);
      case Of(q, r, rest) =>
        var m, n := Len(q), Len(r);
        var h := m + n + 7;
        OfParts(Code(q, At(d)), Code(r, At(d - (m + 5))), ArmsCode(rest, At(d - h)),
          StdCode(q, At(e)), StdCode(r, At(e - (m + 5))), StdArms(rest, At(e - h), Shift(end, h)),
          Hole(end, m + n + 6));
        if HasLeave(q) || Captured(q) {
          CodeDiffers(q, d, e);
        } else if HasLeave(r) || Captured(r) {
          CodeDiffers(r, d - (m + 5), e - (m + 5));
        } else {
          ArmsDiffer(rest, d - h, e - h, Shift(end, h));
        }
    }
  }

  // ----- what the scans for placeholders do to data -----

  /** Some placeholder value of the second is another cell in the first. */
  predicate Loses(x: seq<int>, y: seq<int>) {
    |x| == |y| && exists i :: 0 <= i < |x| && x[i] != Xt(SENTINEL) && y[i] == Xt(SENTINEL)
  }

  lemma CleanLoses(x: seq<int>, y: seq<int>)
    requires Clean(x) && !Clean(y) && |x| == |y|
    ensures Loses(x, y)
  {
    var i :| 0 <= i < |y| && y[i] == Xt(SENTINEL);
    assert x[i] != Xt(SENTINEL);
  }

  lemma LosesConcat(x: seq<int>, y: seq<int>, x': seq<int>, y': seq<int>)
    requires |x| == |x'| && |y| == |y'|
    ensures Loses(x, x') || Loses(y, y') ==> Loses(x + y, x' + y')
  {
    hide Xt;
    var c, c' := x + y, x' + y';
    if Loses(x, x') {
      var i :| 0 <= i < |x| && x[i] != Xt(SENTINEL) && x'[i] == Xt(SENTINEL);
      assert c[i] == x[i] && c'[i] == x'[i];
    } else if Loses(y, y') {
      var i :| 0 <= i < |y| && y[i] != Xt(SENTINEL) && y'[i] == Xt(SENTINEL);
      assert c[|x| + i] == y[i] && c'[|x| + i] == y'[i];
    }
  }

  lemma LosesInOne(x: seq<int>, y: seq<int>)
    requires Loses(x, y)
    ensures Loses(IfCells(x), IfCells(y)) && Loses(UntilCells(x), UntilCells(y)) && Loses(AgainCells(x), AgainCells(y))
  {
    assert |x| == |y|;
    hide Loses, Xt, Off;
    var head, again := [Xt(BRANCH0), Off(|x| + 1)], [Xt(BRANCH), Off(0 - |x| - 1)];
    var until := [Xt(BRANCH0), Off(0 - |x| - 1)];
    LosesConcat(head, x, head, y);
    LosesConcat(x, until, y, until);
    LosesConcat(x, again, y, again);
  }

  lemma LosesInTwo(x: seq<int>, y: seq<int>, x': seq<int>, y': seq<int>)
    requires |x| == |x'| && |y| == |y'|
    ensures Loses(x, x') || Loses(y, y') ==>
      Loses(IfElseCells(x, y), IfElseCells(x', y')) && Loses(WhileCells(x, y), WhileCells(x', y'))
  {
    hide Loses, Xt, Off;
    var head, hop := [Xt(BRANCH0), Off(|x| + 3)], [Xt(BRANCH), Off(|y| + 1)];
    LosesConcat(hop, y, hop, y');
    LosesConcat(x, hop + y, x', hop + y');
    LosesConcat(head, x + (hop + y), head, x' + (hop + y'));
    var test, tail := [Xt(BRANCH0), Off(|y| + 3)], [Xt(BRANCH), Off(0 - |x| - |y| - 3)];
    LosesConcat(y, tail, y', tail);
    LosesConcat(test, y + tail, test, y' + tail);
    LosesConcat(x, test + (y + tail), x', test + (y' + tail));
  }

  lemma {:induction false} RawLosesCode(p: Stmt, n: int, t: Target)
    requires Clashes(p, false) && Clear(n) && Len(p) <= n
    ensures Loses(Raw(p), Code(p, t))
    decreases p, 1
  {
    hide Raw, Code, StdCode, Len, Clear, Loses;
    if p.If? || p.Until? || p.Again? {
      RawLosesCodeOne(p, n, t);
    } else if p.Seq? || p.IfElse? || p.While? {
      RawLosesCodeTwo(p, n, t);
    } else {
      RawLosesCodeSwept(p, n, t);
    }
  }

  lemma {:induction false} RawLosesCodeOne(p: Stmt, n: int, t: Target)
    requires p.If? || p.Until? || p.Again?
    requires Clashes(p, false) && Clear(n) && Len(p) <= n
    ensures Loses(Raw(p), Code(p, t))
    decreases p, 0
  {
    hide Raw, Code, StdCode, Len, Clear, Loses, IfCells, UntilCells, AgainCells;
    match p
    case If(q) =>
      IfCode(q, t);
      RawLosesCode(q, n, Shift(t, 2));
      LosesInOne(Raw(q), Code(q, Shift(t, 2)));
    case Until(q) =>
      UntilCode(q, t);
      RawLosesCode(q, n, t);
      LosesInOne(Raw(q), Code(q, t));
    case Again(q) =>
      AgainCode(q, t);
      RawLosesCode(q, n, t);
      LosesInOne(Raw(q), Code(q, t));
  }

  lemma {:induction false} RawLosesCodeTwo(p: Stmt, n: int, t: Target)
    requires p.Seq? || p.IfElse? || p.While?
    requires Clashes(p, false) && Clear(n) && Len(p) <= n
    ensures Loses(Raw(p), Code(p, t))
    decreases p, 0
  {
    hide Raw, Code, StdCode, Len, Clear, Loses, IfElseCells, WhileCells;
    match p
    case Seq(q, r) =>
      SeqCode(q, r, t);
      var v := Shift(t, Len(q));
      LosesConcat(Raw(q), Raw(r), Code(q, t), Code(r, v));
      if Clashes(q, false) { RawLosesCode(q, n, t); } else { RawLosesCode(r, n, v); }
    case IfElse(q, r) =>
      IfElseCode(q, r, t);
      var u, v := Shift(t, 2), Shift(t, Len(q) + 4);
      LosesInTwo(Raw(q), Raw(r), Code(q, u), Code(r, v));
      if Clashes(q, false) { RawLosesCode(q, n, u); } else { RawLosesCode(r, n, v); }
    case While(q, r) =>
      WhileCode(q, r, t);
      var v := Shift(t, Len(q) + 2);
      LosesInTwo(Raw(q), Raw(r), Code(q, t), Code(r, v));
      if Clashes(q, false) { RawLosesCode(q, n, t); } else { RawLosesCode(r, n, v); }
  }

  lemma {:induction false} RawLosesCodeSwept(p: Stmt, n: int, t: Target)
    requires !(p.If? || p.Until? || p.Again? || p.Seq? || p.IfElse? || p.While?)
    requires Clashes(p, false) && Clear(n) && Len(p) <= n
    ensures Loses(Raw(p), Code(p, t))
    decreases p, 0
  {
    hide Raw, Code, StdCode, Len, Clear, Loses, Clean, Patch, RawDo, DoCells, DoPrefix, Increment;
    match p
    case Do(query, plain, q) =>
      DoCode(query, plain, q, t);
      var u := At(LoopExit(plain, q));
      DirtyCode(q, u);
      DirtyInDo(query, plain, Code(q, u));
      RawDoClean(query, plain, Raw(q), n);
      CleanLoses(Raw(p), Code(p, t));
    case Case(arms) =>
      CaseCode(arms, t);
      DirtyArms(arms, At(ArmsLen(arms)));
      SweptClean(RawArms(arms), n);
      CleanLoses(Raw(p), Code(p, t));
  }

  /** The standard's code keeps the data as well. */
  lemma {:induction false} DirtyStd(p: Stmt, t: Target)
    requires Clashes(p, true)
    ensures !Clean(StdCode(p, t))
    decreases p
  {
    hide Xt, Off, Len, Hole, Clean, IfCells, IfElseCells, UntilCells, WhileCells, AgainCells, DoCells;
    match p
    case Word(xt) => DirtyData(xt);
    case Lit(n) => DirtyData(n);
    case Seq(q, r) =>
      var v := Shift(t, Len(q));
      DirtyConcat(StdCode(q, t), StdCode(r, v));
      if Clashes(q, true) { DirtyStd(q, t); } else { DirtyStd(r, v); }
    case If(q) =>
      DirtyInOne(StdCode(q, Shift(t, 2)));
      DirtyStd(q, Shift(t, 2));
    case IfElse(q, r) =>
      var u, v := Shift(t, 2), Shift(t, Len(q) + 4);
      DirtyInTwo(StdCode(q, u), StdCode(r, v));
      if Clashes(q, true) { DirtyStd(q, u); } else { DirtyStd(r, v); }
    case Until(q) =>
      DirtyInOne(StdCode(q, t));
      DirtyStd(q, t);
    case While(q, r) =>
      var v := Shift(t, Len(q) + 2);
      DirtyInTwo(StdCode(q, t), StdCode(r, v));
      if Clashes(q, true) { DirtyStd(q, t); } else { DirtyStd(r, v); }
    case Again(q) =>
      DirtyInOne(StdCode(q, t));
      DirtyStd(q, t);
    case Do(query, plain, q) =>
      var u := At(LoopExit(plain, q));
      DirtyInDo(query, plain, StdCode(q, u));
      DirtyStd(q, u);
    case Case(arms) => DirtyStdArms(arms, t, At(ArmsLen(arms)));
  }

  lemma {:induction false} DirtyStdArms(arms: Arms, t: Target, end: Target)
    requires ArmsClash(arms)
    ensures !Clean(StdArms(arms, t, end))
    decreases arms
  {
    hide Xt, Off, Len, Hole, StdCode, Clashes, Clean, OfCells;
    match arms
    case Default(q) =>
      DirtyConcat(StdCode(q, t), [Xt(DROP)]);
      DirtyStd(q, t);
    case Of(q, r, rest) =>
      var m, n := Len(q), Len(r);
      var u, v := Shift(t, m + 5), Shift(t, m + n + 7);
      DirtyInOf(StdCode(q, t), StdCode(r, u), Hole(end, m + n + 6), StdArms(rest, v, Shift(end, m + n + 7)));
      if Clashes(q, true) {
        DirtyStd(q, t);
      } else if Clashes(r, true) {
        DirtyStd(r, u);
      } else {
        DirtyStdArms(rest, v, Shift(end, m + n + 7));
      }
  }

  lemma {:induction false} RawLosesStd(p: Stmt, n: int, t: Target)
    requires Clashes(p, false) && Clear(n) && Len(p) <= n
    ensures Loses(Raw(p), StdCode(p, t))
    decreases p, 1
  {
    hide Raw, Code, StdCode, Len, Clear, Loses;
    if p.If? || p.Until? || p.Again? {
      RawLosesStdOne(p, n, t);
    } else if p.Seq? || p.IfElse? || p.While? {
      RawLosesStdTwo(p, n, t);
    } else {
      RawLosesStdSwept(p, n, t);
    }
  }

  lemma {:induction false} RawLosesStdOne(p: Stmt, n: int, t: Target)
    requires p.If? || p.Until? || p.Again?
    requires Clashes(p, false) && Clear(n) && Len(p) <= n
    ensures Loses(Raw(p), StdCode(p, t))
    decreases p, 0
  {
    hide Raw, Code, StdCode, Len, Clear, Loses, IfCells, UntilCells, AgainCells;
    match p
    case If(q) =>
      IfCode(q, t);
      RawLosesStd(q, n, Shift(t, 2));
      LosesInOne(Raw(q), StdCode(q, Shift(t, 2)));
    case Until(q) =>
      UntilCode(q, t);
      RawLosesStd(q, n, t);
      LosesInOne(Raw(q), StdCode(q, t));
    case Again(q) =>
      AgainCode(q, t);
      RawLosesStd(q, n, t);
      LosesInOne(Raw(q), StdCode(q, t));
  }

  lemma {:induction false} RawLosesStdTwo(p: Stmt, n: int, t: Target)
    requires p.Seq? || p.IfElse? || p.While?
    requires Clashes(p, false) && Clear(n) && Len(p) <= n
    ensures Loses(Raw(p), StdCode(p, t))
    decreases p, 0
  {
    hide Raw, Code, StdCode, Len, Clear, Loses, IfElseCells, WhileCells;
    match p
    case Seq(q, r) =>
      SeqCode(q, r, t);
      var v := Shift(t, Len(q));
      LosesConcat(Raw(q), Raw(r), StdCode(q, t), StdCode(r, v));
      if Clashes(q, false) { RawLosesStd(q, n, t); } else { RawLosesStd(r, n, v); }
    case IfElse(q, r) =>
      IfElseCode(q, r, t);
      var u, v := Shift(t, 2), Shift(t, Len(q) + 4);
      LosesInTwo(Raw(q), Raw(r), StdCode(q, u), StdCode(r, v));
      if Clashes(q, false) { RawLosesStd(q, n, u); } else { RawLosesStd(r, n, v); }
    case While(q, r) =>
      WhileCode(q, r, t);
      var v := Shift(t, Len(q) + 2);
      LosesInTwo(Raw(q), Raw(r), StdCode(q, t), StdCode(r, v));
      if Clashes(q, false) { RawLosesStd(q, n, t); } else { RawLosesStd(r, n, v); }
  }

  lemma {:induction false} RawLosesStdSwept(p: Stmt, n: int, t: Target)
    requires !(p.If? || p.Until? || p.Again? || p.Seq? || p.IfElse? || p.While?)
    requires Clashes(p, false) && Clear(n) && Len(p) <= n
    ensures Loses(Raw(p), StdCode(p, t))
    decreases p, 0
  {
    hide Raw, Code, StdCode, Len, Clear, Loses, Clean, Patch, RawDo, DoCells, DoPrefix, Increment;
    match p
    case Do(query, plain, q) =>
      DoCode(query, plain, q, t);
      var u := At(LoopExit(plain, q));
      DirtyStd(q, u);
      DirtyInDo(query, plain, StdCode(q, u));
      RawDoClean(query, plain, Raw(q), n);
      CleanLoses(Raw(p), StdCode(p, t));
    case Case(arms) =>
      CaseCode(arms, t);
      DirtyStdArms(arms, t, At(ArmsLen(arms)));
      SweptClean(RawArms(arms), n);
      CleanLoses(Raw(p), StdCode(p, t));
  }

  /** A program compiles to its intended code if and only if no number or word in a DO loop or a CASE is
      the address of SENTINEL: the scans for placeholders cannot tell data from code. */
  lemma DataSurvives(dcap: nat, k: Draft, p: Stmt)
    requires HasRoom(k, Len(p)) && Clear(Len(p)) && |k.ds| + Depth(p) <= dcap
    ensures Compile(dcap, k, Text(p)) == Ok(Grown(k, Code(p, Pending), k.ds)) <==> !Clashes(p, false)
  {
    hide Compile, Grown, Code, Raw, Clear;
    Emits(dcap, k, p);
    if Clashes(p, false) {
      RawLosesCode(p, Len(p), Pending);
      GrownDiffers(k, Raw(p), Code(p, Pending), k.ds);
    } else {
      RawIsCode(p, Len(p));
    }
  }

  /** A program whose LEAVEs are all in DO loops compiles to the code of the standard if and only if no
      CASE stands between a LEAVE and its loop and no data in a loop or a CASE is taken for a
      placeholder. */
  lemma LeaveConforms(dcap: nat, k: Draft, p: Stmt)
    requires WellNested(p) && !HasLeave(p)
    requires HasRoom(k, Len(p)) && Clear(Len(p)) && |k.ds| + Depth(p) <= dcap
    requires Len(p) + 1 < MODULUS
    ensures Compile(dcap, k, Text(p)) == Ok(Grown(k, StdCode(p, Pending), k.ds)) <==>
      !Captured(p) && !Clashes(p, false)
  {
    hide Compile, Grown, Code, StdCode, Raw, Clear, Text, Depth, Len, WellNested, HasLeave, Captured, Clashes;
    Emits(dcap, k, p);
    if Clashes(p, false) {
      RawLosesStd(p, Len(p), Pending);
      GrownDiffers(k, Raw(p), StdCode(p, Pending), k.ds);
    } else if Captured(p) {
      RawIsCode(p, Len(p));
      NoLeave(p, Pending, At(Len(p) + 1));
      StdNoLeave(p, Pending, At(Len(p) + 1));
      CodeDiffers(p, Len(p) + 1, Len(p) + 1);
      GrownDiffers(k, Code(p, Pending), StdCode(p, Pending), k.ds);
    } else {
      RawIsCode(p, Len(p));
      SameCode(p, Pending, Pending);
    }
  }

  /** The shortest case: DO CASE LEAVE ENDCASE LOOP leaves the CASE only. */
  lemma LeaveInCase(dcap: nat, k: Draft)
    requires HasRoom(k, 20) && Clear(20) && 21 < MODULUS && |k.ds| + 3 <= dcap
    ensures var p := Do(false, true, Case(Default(Leave)));
      Compile(dcap, k, Text(p)) != Ok(Grown(k, StdCode(p, Pending), k.ds))
  {
    hide Compile, Grown, Clear;
    var p := Do(false, true, Case(Default(Leave)));
    assert Len(p) == 20 && Depth(p) == 3;
    assert Captured(p) && !HasLeave(p) && WellNested(p);
    LeaveConforms(dcap, k, p);
  }

  lemma GrownDiffers(k: Draft, x: seq<int>, y: seq<int>, ds: seq<int>)
    requires |x| == |y| && HasRoom(k, |x|) && x != y
    ensures Grown(k, x, ds) != Grown(k, y, ds)
  {
    var i :| 0 <= i < |x| && x[i] != y[i];
    assert Write(k.mem, k.here, x)[k.here + i] == x[i] && Write(k.mem, k.here, y)[k.here + i] == y[i];
  }

  lemma {:induction false} StdNoLeave(p: Stmt, t: Target, u: Target)
    requires !HasLeave(p)
    ensures StdCode(p, t) == StdCode(p, u)
    decreases p
  {
    hide IfCells, IfElseCells, UntilCells, WhileCells, AgainCells, DoCells, OfCells, Xt, Off;
    match p
    case Seq(q, r) => StdNoLeave(q, t, u); StdNoLeave(r, Shift(t, Len(q)), Shift(u, Len(q)));
    case If(q) => StdNoLeave(q, Shift(t, 2), Shift(u, 2));
    case IfElse(q, r) =>
      StdNoLeave(q, Shift(t, 2), Shift(u, 2));
      StdNoLeave(r, Shift(t, Len(q) + 4), Shift(u, Len(q) + 4));
    case Until(q) => StdNoLeave(q, t, u);
    case While(q, r) => StdNoLeave(q, t, u); StdNoLeave(r, Shift(t, Len(q) + 2), Shift(u, Len(q) + 2));
    case Again(q) => StdNoLeave(q, t, u);
    case Case(arms) => StdArmsNoLeave(arms, t, u, At(ArmsLen(arms)));
    case _ =>
  }

  lemma {:induction false} StdArmsNoLeave(arms: Arms, t: Target, u: Target, end: Target)
    requires !ArmsHaveLeave(arms)
    ensures StdArms(arms, t, end) == StdArms(arms, u, end)
    decreases arms
  {
    hide OfCells, Xt, Off, Hole, Len, HasLeave, StdCode;
    match arms
    case Default(q) => StdNoLeave(q, t, u);
    case Of(q, r, rest) =>
      var m, n := Len(q), Len(r);
      StdNoLeave(q, t, u);
      StdNoLeave(r, Shift(t, m + 5), Shift(u, m + 5));
      StdArmsNoLeave(rest, Shift(t, m + n + 7), Shift(u, m + n + 7), Shift(end, m + n + 7));
  }

  /** The shortest case: the number between DO and +LOOP. */
  lemma LiteralInLoop(dcap: nat, k: Draft, n: int)
    requires HasRoom(k, 17) && |k.ds| + 1 <= dcap && Clear(17)
    ensures var r := Compile(dcap, k, [WDo, Number(n), WPlusLoop]);
      && r.Ok? && k.here + 17 == r.k.here <= |r.k.mem|
      && (r.k.mem[k.here + 9] == n <==> n != Xt(SENTINEL))
  {
    var p := Do(false, false, Lit(n));
    assert Text(p) == [WDo, Number(n), WPlusLoop];
    assert Len(p) == 17 && Depth(p) == 1;
    Emits(dcap, k, p);
    var loop := LoopCells(false, [Xt(LIT_CELL), n], Xt(SENTINEL));
    assert Raw(p)[9] == Patch(loop, 11)[4];
    PatchesFifth(loop, n);
    LaysOut(k, Raw(p), 9);
  }

  lemma PatchesFifth(y: seq<int>, n: int)
    requires |y| == 11 && y[4] == n && Clear(17)
    ensures Patch(y, |y|)[4] == n <==> n != Xt(SENTINEL)
  {
    OffClear(7, 17);
  }

  lemma LaysOut(k: Draft, cells: seq<int>, i: nat)
    requires HasRoom(k, |cells|) && i < |cells|
    ensures var g := Grown(k, cells, k.ds);
      g.here == k.here + |cells| <= |g.mem| && g.mem[k.here + i] == cells[i]
  {
  }
}
