/** What the control-structure words have written once a well-nested definition is complete. */
module Emission {
  import opened Words
  import opened Machine
  import opened Structured
  import opened Compiling

  // ----- writing cells at HERE -----

  function Write(mem: seq<int>, a: int, cells: seq<int>): seq<int>
    requires 0 <= a && a + |cells| <= |mem|
  {
    mem[..a] + cells + mem[a + |cells|..]
  }

  predicate HasRoom(k: Draft, n: int) {
    0 <= k.here && k.here + n <= |k.mem|
  }

  /** The draft k with some more cells at HERE, and another data stack. */
  function Grown(k: Draft, cells: seq<int>, ds: seq<int>): Draft
    requires HasRoom(k, |cells|)
  {
    Draft(Write(k.mem, k.here, cells), k.here + |cells|, ds)
  }

  lemma GrownTwice(k: Draft, x: seq<int>, y: seq<int>, ds: seq<int>, ds': seq<int>)
    requires HasRoom(k, |x| + |y|)
    ensures HasRoom(Grown(k, x, ds), |y|)
    ensures Grown(Grown(k, x, ds), y, ds') == Grown(k, x + y, ds')
  {
    var m := Write(k.mem, k.here, x);
    assert m[..k.here + |x|] == k.mem[..k.here] + x;
    assert m[k.here + |x| + |y|..] == k.mem[k.here + |x| + |y|..];
  }

  lemma GrownNone(k: Draft, ds: seq<int>)
    requires HasRoom(k, 0)
    ensures Grown(k, [], ds) == k.(ds := ds)
  {
  }

  lemma CellGrows(k: Draft, cell: int)
    requires HasRoom(k, 1)
    ensures Cell(k, cell) == Ok(Grown(k, [cell], k.ds))
  {
    assert k.mem[k.here := cell] == Write(k.mem, k.here, [cell]);
  }

  lemma {:induction false} CellsGrow(k: Draft, cells: seq<int>)
    requires HasRoom(k, |cells|)
    ensures Cells(k, cells) == Ok(Grown(k, cells, k.ds))
    decreases |cells|
  {
    if cells == [] {
      GrownNone(k, k.ds);
    } else {
      CellGrows(k, cells[0]);
      GrownTwice(k, [cells[0]], cells[1..], k.ds, k.ds);
      CellsGrow(Grown(k, [cells[0]], k.ds), cells[1..]);
      assert [cells[0]] + cells[1..] == cells;
    }
  }

  /** Leaving a cell for later keeps whatever is in it. */
  lemma MarkGrows(k: Draft)
    requires HasRoom(k, 1)
    ensures Mark(k) == Grown(k, [k.mem[k.here]], k.ds + [k.here])
  {
    assert Write(k.mem, k.here, [k.mem[k.here]]) == k.mem;
  }

  lemma ResolveGrown(k: Draft, cells: seq<int>, i: nat, ds: seq<int>)
    requires HasRoom(k, |cells|) && i < |cells|
    ensures Resolve(Grown(k, cells, ds), k.here + i) ==
      Ok(Grown(k, cells[i := Off(|cells| - i)], ds))
  {
    var g := Grown(k, cells, ds);
    assert g.here - (k.here + i) == |cells| - i;
    assert g.mem[k.here + i := Off(|cells| - i)] == Write(k.mem, k.here, cells[i := Off(|cells| - i)]);
  }

  /** Placeholders replaced by branches to d cells past the start. */
  function Patch(cells: seq<int>, d: int): (r: seq<int>)
    ensures |r| == |cells|
  {
    seq(|cells|, i requires 0 <= i < |cells| =>
      if cells[i] == Xt(SENTINEL) then Off(d - i) else cells[i])
  }

  lemma SweepGrown(k: Draft, x: seq<int>, y: seq<int>, ds: seq<int>)
    requires HasRoom(k, |x| + |y|)
    ensures SweepFrom(Grown(k, x + y, ds), k.here + |x|) == Ok(Grown(k, x + Patch(y, |y|), ds))
  {
    var g := Grown(k, x + y, ds);
    var ref := k.here + |x|;
    var m := Sweep(g.mem, ref, g.here);
    var e := Write(k.mem, k.here, x + Patch(y, |y|));
    forall i | 0 <= i < |m|
      ensures m[i] == e[i]
    {
      if ref <= i < g.here {
        assert g.mem[i] == y[i - ref];
        assert e[i] == Patch(y, |y|)[i - ref];
      }
    }
    assert m == e;
  }

  lemma PatchConcat(x: seq<int>, y: seq<int>, d: int)
    ensures Patch(x + y, d) == Patch(x, d) + Patch(y, d - |x|)
  {
  }

  predicate Clean(cells: seq<int>) {
    Xt(SENTINEL) !in cells
  }

  lemma PatchClean(cells: seq<int>, d: int)
    requires Clean(cells)
    ensures Patch(cells, d) == cells
  {
  }

  // ----- placeholders in the code of a statement -----

  lemma OffClear(k: int, n: int)
    requires Clear(n) && -n <= k <= n
    ensures Off(k) != Xt(SENTINEL)
  {
    if k < 0 {
      ModIs(k, MODULUS, -1, k + MODULUS);
    } else {
      ModIs(k, MODULUS, 0, k);
    }
  }

  lemma OnlySentinel(b: Builtin)
    ensures Xt(b) == Xt(SENTINEL) ==> b == SENTINEL
    ensures Xt(b) > 1
  {
  }

  /** Builtins that the control-structure words compile. */
  lemma BuiltinsAreClean()
    ensures Clean(DoPrefix(false)) && Clean(DoPrefix(true)) && Clean(Increment(false)) && Clean(Increment(true))
    ensures Clean([Xt(R_FROM), Xt(R_FETCH), Xt(LOOP_INC), Xt(TO_R), Xt(BRANCH)])
    ensures Clean([Xt(INVERT), Xt(BRANCH0)]) && Clean([Xt(UNLOOP)]) && Clean([Xt(DROP)])
    ensures Clean([Xt(OVER), Xt(EQUALS)]) && Clean([Xt(BRANCH)]) && Clean([Xt(BRANCH0)])
    ensures Clean([Xt(EXIT)]) && Clean([Xt(LIT_CELL)])
  {
    forall b: Builtin {
      OnlySentinel(b);
    }
  }

  /** A branch, once it has its displacement. */
  lemma BranchClean(b: Builtin, k: int, n: int)
    requires b in {BRANCH, BRANCH0} && Clear(n) && -n <= k <= n
    ensures Clean([Xt(b), Off(k)])
  {
    OffClear(k, n);
    OnlySentinel(b);
  }

  lemma IfPatch(yes: seq<int>, d: int, n: int)
    requires Clear(n) && |yes| + 1 <= n
    ensures Patch(IfCells(yes), d) == IfCells(Patch(yes, d - 2))
    ensures Clean(yes) ==> Clean(IfCells(yes))
  {
    hide Xt, Off, Patch, Clear;
    var head := [Xt(BRANCH0), Off(|yes| + 1)];
    BranchClean(BRANCH0, |yes| + 1, n);
    PatchClean(head, d);
    PatchConcat(head, yes, d);
  }

  lemma IfElsePatch(yes: seq<int>, no: seq<int>, d: int, n: int)
    requires Clear(n) && |yes| + 3 <= n && |no| + 1 <= n
    ensures Patch(IfElseCells(yes, no), d) == IfElseCells(Patch(yes, d - 2), Patch(no, d - |yes| - 4))
    ensures Clean(yes) && Clean(no) ==> Clean(IfElseCells(yes, no))
  {
    hide Xt, Off, Patch, Clear;
    var head, hop := [Xt(BRANCH0), Off(|yes| + 3)], [Xt(BRANCH), Off(|no| + 1)];
    BranchClean(BRANCH0, |yes| + 3, n);
    BranchClean(BRANCH, |no| + 1, n);
    PatchClean(head, d);
    PatchClean(hop, d - 2 - |yes|);
    PatchConcat(head, yes + (hop + no), d);
    PatchConcat(yes, hop + no, d - 2);
    PatchConcat(hop, no, d - 2 - |yes|);
  }

  lemma BackPatch(body: seq<int>, b: Builtin, k: int, d: int, n: int)
    requires b in {BRANCH, BRANCH0} && Clear(n) && -n <= k <= n
    ensures Patch(body + [Xt(b), Off(k)], d) == Patch(body, d) + [Xt(b), Off(k)]
    ensures Clean(body) ==> Clean(body + [Xt(b), Off(k)])
  {
    hide Xt, Off, Patch, Clear;
    BranchClean(b, k, n);
    PatchConcat(body, [Xt(b), Off(k)], d);
    PatchClean([Xt(b), Off(k)], d - |body|);
  }

  lemma WhilePatch(test: seq<int>, body: seq<int>, d: int, n: int)
    requires Clear(n) && |test| + |body| + 3 <= n
    ensures Patch(WhileCells(test, body), d) == WhileCells(Patch(test, d), Patch(body, d - |test| - 2))
    ensures Clean(test) && Clean(body) ==> Clean(WhileCells(test, body))
  {
    hide Xt, Off, Patch, Clear;
    var k := 0 - |test| - |body| - 3;
    var head, tail := [Xt(BRANCH0), Off(|body| + 3)], [Xt(BRANCH), Off(k)];
    BranchClean(BRANCH0, |body| + 3, n);
    PatchClean(head, d - |test|);
    PatchConcat(test, head + (body + tail), d);
    PatchConcat(head, body + tail, d - |test|);
    BackPatch(body, BRANCH, k, d - |test| - 2, n);
  }

  /** +LOOP closes the loop: the sweep finds the exit of the loop head and the LEAVEs of the body. */
  lemma LoopPatch(plain: bool, body: seq<int>, n: int)
    requires Clear(n)
    requires |body| + |Increment(plain)| + 8 <= n
    ensures var m := |body| + |Increment(plain)|;
      Patch(LoopCells(plain, body, Xt(SENTINEL)), m + 9) == LoopCells(plain, Patch(body, m + 6), Off(m + 7))
  {
    hide Clear, Off, Xt, Patch, Clean, Increment;
    var m := |body| + |Increment(plain)|;
    var words := [Xt(R_FROM), Xt(R_FETCH), Xt(LOOP_INC), Xt(TO_R)];
    var back := [Xt(BRANCH), Off(0 - m - 8)];
    var head, head' := [Xt(INVERT), Xt(BRANCH0), Xt(SENTINEL)], [Xt(INVERT), Xt(BRANCH0), Off(m + 7)];
    BuiltinsAreClean();
    StepWordsClean();
    BranchClean(BRANCH, 0 - m - 8, n);
    CleanConcat(words, back);
    CleanConcat(Increment(plain), words + back);
    assert Increment(plain) + [Xt(R_FROM), Xt(R_FETCH), Xt(LOOP_INC), Xt(TO_R), Xt(BRANCH), Off(0 - m - 8)]
        == Increment(plain) + (words + back);
    LoopPatchParts(head, head', body, Increment(plain) + (words + back), m);
  }

  lemma StepWordsClean()
    ensures Clean([Xt(R_FROM), Xt(R_FETCH), Xt(LOOP_INC), Xt(TO_R)])
  {
    forall b: Builtin {
      OnlySentinel(b);
    }
  }

  lemma LoopPatchParts(head: seq<int>, head': seq<int>, body: seq<int>, tail: seq<int>, m: int)
    requires head == [Xt(INVERT), Xt(BRANCH0), Xt(SENTINEL)] && head' == [Xt(INVERT), Xt(BRANCH0), Off(m + 7)]
    requires Clean(tail)
    ensures Patch(head + (body + tail), m + 9) == head' + (Patch(body, m + 6) + tail)
  {
    OnlySentinel(INVERT);
    OnlySentinel(BRANCH0);
    assert Patch(head, m + 9) == head';
    PatchClean(tail, m + 6 - |body|);
    PatchConcat(head, body + tail, m + 9);
    PatchConcat(body, tail, m + 6);
  }

  lemma CleanConcat(x: seq<int>, y: seq<int>)
    requires Clean(x) && Clean(y)
    ensures Clean(x + y)
  {
  }

  lemma DoClean(query: bool, plain: bool, body: seq<int>, n: int)
    requires Clear(n) && Clean(body)
    requires |body| + |Increment(plain)| + 8 <= n
    ensures Clean(DoCells(query, plain, body))
  {
    var m := |body| + |Increment(plain)|;
    var words, back := [Xt(R_FROM), Xt(R_FETCH), Xt(LOOP_INC), Xt(TO_R)], [Xt(BRANCH), Off(0 - m - 8)];
    var test := [Xt(BRANCH0), Off(m + 7)];
    BuiltinsAreClean();
    BranchClean(BRANCH, 0 - m - 8, n);
    BranchClean(BRANCH0, m + 7, n);
    assert Clean([Xt(INVERT)]) by { OnlySentinel(INVERT); }
    assert Clean(words) by {
      hide DoPrefix, Increment;
      assert words + [Xt(BRANCH)] == [Xt(R_FROM), Xt(R_FETCH), Xt(LOOP_INC), Xt(TO_R), Xt(BRANCH)];
    }
    hide Clear, Clean, Xt, Off, DoPrefix, Increment;
    CleanConcat([Xt(INVERT)], test);
    CleanConcat(words, back);
    CleanConcat(Increment(plain), words + back);
    CleanConcat(body, Increment(plain) + (words + back));
    CleanConcat([Xt(INVERT)] + test, body + (Increment(plain) + (words + back)));
    CleanConcat([Xt(INVERT)] + test + (body + (Increment(plain) + (words + back))), [Xt(UNLOOP)]);
    assert words + back == [Xt(R_FROM), Xt(R_FETCH), Xt(LOOP_INC), Xt(TO_R), Xt(BRANCH), Off(0 - m - 8)];
    assert [Xt(INVERT)] + test == [Xt(INVERT), Xt(BRANCH0), Off(m + 7)];
    CleanConcat(DoPrefix(query), LoopCells(plain, body, Off(m + 7)) + [Xt(UNLOOP)]);
  }

  lemma PatchFour(a: seq<int>, b: seq<int>, c: seq<int>, e: seq<int>, f: seq<int>, d: int)
    ensures Patch(a + (b + (c + (e + f))), d) ==
      Patch(a, d) + (Patch(b, d - |a|) + (Patch(c, d - |a| - |b|) +
      (Patch(e, d - |a| - |b| - |c|) + Patch(f, d - |a| - |b| - |c| - |e|))))
  {
    hide Patch;
    PatchConcat(a, b + (c + (e + f)), d);
    PatchConcat(b, c + (e + f), d - |a|);
    PatchConcat(c, e + f, d - |a| - |b|);
    PatchConcat(e, f, d - |a| - |b| - |c|);
  }

  lemma HopPatch(d: int)
    ensures Patch([Xt(BRANCH), Xt(SENTINEL)], d) == [Xt(BRANCH), Off(d - 1)]
  {
    OnlySentinel(BRANCH);
  }

  lemma OfPatch(test: seq<int>, body: seq<int>, rest: seq<int>, d: int, n: int)
    requires Clear(n) && |body| + 4 <= n
    ensures var h := |test| + |body| + 6;
      Patch(OfCells(test, body, Hole(Pending, h), rest), d) ==
        OfCells(Patch(test, d), Patch(body, d - |test| - 5), Hole(At(d), h), Patch(rest, d - h - 1))
  {
    hide Clear, Off, Clean, Patch, Xt;
    var h := |test| + |body| + 6;
    var head := [Xt(OVER), Xt(EQUALS)] + [Xt(BRANCH0), Off(|body| + 4)] + [Xt(DROP)];
    ClauseHeadClean(|body| + 4, n);
    PatchClean(head, d - |test|);
    HopPatch(d - h + 1);
    PatchFour(test, head, body, [Xt(BRANCH), Xt(SENTINEL)], rest, d);
    OfFront(test, body, Xt(SENTINEL), rest);
    OfFront(Patch(test, d), Patch(body, d - |test| - 5), Off(d - h), Patch(rest, d - h - 1));
  }

  lemma ClauseHeadClean(k: int, n: int)
    requires Clear(n) && -n <= k <= n
    ensures Clean([Xt(OVER), Xt(EQUALS)] + [Xt(BRANCH0), Off(k)] + [Xt(DROP)])
  {
    OffClear(k, n);
    OnlySentinel(OVER);
    OnlySentinel(EQUALS);
    OnlySentinel(BRANCH0);
    OnlySentinel(DROP);
  }

  lemma OfClean(test: seq<int>, body: seq<int>, k: int, rest: seq<int>, n: int)
    requires Clear(n) && |body| + 4 <= n && -n <= k <= n
    requires Clean(test) && Clean(body) && Clean(rest)
    ensures Clean(OfCells(test, body, Off(k), rest))
  {
    hide Clear, Off;
    var head := [Xt(OVER), Xt(EQUALS)] + [Xt(BRANCH0), Off(|body| + 4)] + [Xt(DROP)];
    ClauseHeadClean(|body| + 4, n);
    BranchClean(BRANCH, k, n);
    hide Clean, Xt;
    CleanConcat([Xt(BRANCH), Off(k)], rest);
    CleanConcat(body, [Xt(BRANCH), Off(k)] + rest);
    CleanConcat(head, body + ([Xt(BRANCH), Off(k)] + rest));
    CleanConcat(test, head + (body + ([Xt(BRANCH), Off(k)] + rest)));
    OfFront(test, body, Off(k), rest);
  }

  lemma OfFront(test: seq<int>, body: seq<int>, e: int, rest: seq<int>)
    ensures OfCells(test, body, e, rest) ==
      test + ([Xt(OVER), Xt(EQUALS)] + [Xt(BRANCH0), Off(|body| + 4)] + [Xt(DROP)] + (body + ([Xt(BRANCH), e] + rest)))
  {
    hide Xt, Off;
  }

  /** Where no LEAVE reaches outside, the target makes no difference. */
  lemma {:induction false} NoLeave(p: Stmt, t: Target, u: Target)
    requires WellNested(p)
    ensures Code(p, t) == Code(p, u)
    decreases p
  {
    hide IfCells, IfElseCells, UntilCells, WhileCells, AgainCells, DoCells, OfCells, Xt, Off;
    match p
    case Seq(q, r) => NoLeave(q, t, u); NoLeave(r, Shift(t, Len(q)), Shift(u, Len(q)));
    case If(q) => NoLeave(q, Shift(t, 2), Shift(u, 2));
    case IfElse(q, r) =>
      NoLeave(q, Shift(t, 2), Shift(u, 2));
      NoLeave(r, Shift(t, Len(q) + 4), Shift(u, Len(q) + 4));
    case Until(q) => NoLeave(q, t, u);
    case While(q, r) => NoLeave(q, t, u); NoLeave(r, Shift(t, Len(q) + 2), Shift(u, Len(q) + 2));
    case Again(q) => NoLeave(q, t, u);
    case _ =>
  }

  /** A sweep that starts anywhere before the statement and ends d cells behind its start turns the code
      with placeholders into the code with targets, and leaves no placeholder. */
  lemma {:induction false} Patched(p: Stmt, d: int, n: int)
    requires !Clashes(p, true) && Clear(n) && Len(p) <= d <= n
    ensures Patch(Code(p, Pending), d) == Code(p, At(d)) && Clean(Code(p, At(d)))
    decreases p, 1
  {
    hide IfCells, IfElseCells, UntilCells, WhileCells, AgainCells, DoCells, Patch, Off, Xt, Clear, DoPrefix, Increment;
    hide Clean, LoopExit, Len, Clashes;
    match p
    case Seq(q, r) => SeqPatched(q, r, d, n);
    case If(q) => IfPatched(q, d, n);
    case IfElse(q, r) => IfElsePatched(q, r, d, n);
    case Until(q) => UntilPatched(q, d, n);
    case While(q, r) => WhilePatched(q, r, d, n);
    case Again(q) => AgainPatched(q, d, n);
    case Do(query, plain, q) => DoPatched(query, plain, q, d, n);
    case _ => SimplePatched(p, d, n);
  }

  lemma {:induction false} SimplePatched(p: Stmt, d: int, n: int)
    requires p.Skip? || p.Word? || p.Lit? || p.Leave? || p.Exit? || p.Case?
    requires !Clashes(p, true) && Clear(n) && Len(p) <= d <= n
    ensures Patch(Code(p, Pending), d) == Code(p, At(d)) && Clean(Code(p, At(d)))
    decreases p, 0
  {
    hide Patch, Off, Xt, Clear, Clean;
    match p
    case Leave => LeavePatched(d, n);
    case Case(arms) =>
      ArmsPatched(arms, ArmsLen(arms), n);
      PatchClean(Code(p, Pending), d);
    case Word(xt) => DataPatched(xt, d);
    case Lit(x) => DataPatched(x, d);
    case _ => ExitPatched(d);
  }

  lemma ExitPatched(d: int)
    ensures Clean([Xt(EXIT)]) && Patch([Xt(EXIT)], d) == [Xt(EXIT)]
    ensures Clean([]) && Patch([], d) == []
  {
    OnlySentinel(EXIT);
    PatchClean([Xt(EXIT)], d);
    PatchClean([], d);
  }

  lemma {:induction false} SeqPatched(q: Stmt, r: Stmt, d: int, n: int)
    requires !Clashes(Seq(q, r), true) && Clear(n) && Len(Seq(q, r)) <= d <= n
    ensures var t := At(d - Len(q));
      && Patch(Code(q, Pending) + Code(r, Pending), d) == Code(q, At(d)) + Code(r, t)
      && Clean(Code(q, At(d)) + Code(r, t))
    decreases Seq(q, r), 0
  {
    hide Patch, Clean, Clear, Code;
    Patched(q, d, n);
    Patched(r, d - Len(q), n);
    PatchConcat(Code(q, Pending), Code(r, Pending), d);
    CleanConcat(Code(q, At(d)), Code(r, At(d - Len(q))));
  }

  lemma {:induction false} IfPatched(q: Stmt, d: int, n: int)
    requires !Clashes(If(q), true) && Clear(n) && Len(If(q)) <= d <= n
    ensures Patch(IfCells(Code(q, Pending)), d) == IfCells(Code(q, At(d - 2))) && Clean(IfCells(Code(q, At(d - 2))))
    decreases q, 2
  {
    hide Patch, Off, Xt, Clear, Code, IfCells;
    Patched(q, d - 2, n);
    IfPatch(Code(q, Pending), d, n);
    IfPatch(Code(q, At(d - 2)), d, n);
  }

  lemma {:induction false} DoPatched(query: bool, plain: bool, q: Stmt, d: int, n: int)
    requires !Clashes(Do(query, plain, q), true) && Clear(n) && Len(Do(query, plain, q)) <= d <= n
    ensures var cells := DoCells(query, plain, Code(q, At(LoopExit(plain, q))));
      Patch(cells, d) == cells && Clean(cells)
    decreases q, 2
  {
    hide Patch, Off, Xt, Clear, Code, DoCells, Clean, Increment, DoPrefix;
    var x := LoopExit(plain, q);
    Patched(q, x, n);
    DoClean(query, plain, Code(q, At(x)), n);
    PatchClean(DoCells(query, plain, Code(q, At(x))), d);
  }

  lemma DataPatched(x: int, d: int)
    requires x != Xt(SENTINEL)
    ensures Clean([x]) && Patch([x], d) == [x]
    ensures Clean([Xt(LIT_CELL), x]) && Patch([Xt(LIT_CELL), x], d) == [Xt(LIT_CELL), x]
  {
    OnlySentinel(LIT_CELL);
    PatchClean([x], d);
    PatchClean([Xt(LIT_CELL), x], d);
  }

  lemma {:induction false} IfElsePatched(q: Stmt, r: Stmt, d: int, n: int)
    requires !Clashes(IfElse(q, r), true) && Clear(n) && Len(IfElse(q, r)) <= d <= n
    ensures var t := At(d - (Len(q) + 4));
      && Patch(IfElseCells(Code(q, Pending), Code(r, Pending)), d) == IfElseCells(Code(q, At(d - 2)), Code(r, t))
      && Clean(IfElseCells(Code(q, At(d - 2)), Code(r, t)))
    decreases IfElse(q, r), 0
  {
    hide Patch, Off, Xt, Clear, Code, IfElseCells;
    Patched(q, d - 2, n);
    Patched(r, d - Len(q) - 4, n);
    IfElsePatch(Code(q, Pending), Code(r, Pending), d, n);
    IfElsePatch(Code(q, At(d - 2)), Code(r, At(d - (Len(q) + 4))), d, n);
  }

  lemma {:induction false} WhilePatched(q: Stmt, r: Stmt, d: int, n: int)
    requires !Clashes(While(q, r), true) && Clear(n) && Len(While(q, r)) <= d <= n
    ensures var t := At(d - (Len(q) + 2));
      && Patch(WhileCells(Code(q, Pending), Code(r, Pending)), d) == WhileCells(Code(q, At(d)), Code(r, t))
      && Clean(WhileCells(Code(q, At(d)), Code(r, t)))
    decreases While(q, r), 0
  {
    hide Patch, Off, Xt, Clear, Code, WhileCells;
    Patched(q, d, n);
    Patched(r, d - Len(q) - 2, n);
    WhilePatch(Code(q, Pending), Code(r, Pending), d, n);
    WhilePatch(Code(q, At(d)), Code(r, At(d - (Len(q) + 2))), d, n);
  }

  lemma {:induction false} UntilPatched(q: Stmt, d: int, n: int)
    requires !Clashes(Until(q), true) && Clear(n) && Len(Until(q)) <= d <= n
    ensures Patch(UntilCells(Code(q, Pending)), d) == UntilCells(Code(q, At(d))) && Clean(UntilCells(Code(q, At(d))))
    decreases q, 2
  {
    hide Patch, Off, Xt, Clear, Code;
    Patched(q, d, n);
    BackPatch(Code(q, Pending), BRANCH0, 0 - Len(q) - 1, d, n);
    BackPatch(Code(q, At(d)), BRANCH0, 0 - Len(q) - 1, d, n);
  }

  lemma {:induction false} AgainPatched(q: Stmt, d: int, n: int)
    requires !Clashes(Again(q), true) && Clear(n) && Len(Again(q)) <= d <= n
    ensures Patch(AgainCells(Code(q, Pending)), d) == AgainCells(Code(q, At(d))) && Clean(AgainCells(Code(q, At(d))))
    decreases q, 2
  {
    hide Patch, Off, Xt, Clear, Code;
    Patched(q, d, n);
    BackPatch(Code(q, Pending), BRANCH, 0 - Len(q) - 1, d, n);
    BackPatch(Code(q, At(d)), BRANCH, 0 - Len(q) - 1, d, n);
  }

  lemma LeavePatched(d: int, n: int)
    requires Clear(n) && 2 <= d <= n
    ensures Patch([Xt(BRANCH), Xt(SENTINEL)], d) == [Xt(BRANCH), Off(d - 1)] && Clean([Xt(BRANCH), Off(d - 1)])
  {
    BranchClean(BRANCH, d - 1, n);
    OnlySentinel(BRANCH);
  }

  /** ENDCASE finds every ENDOF, and every LEAVE that no inner loop has taken. */
  lemma {:induction false} ArmsPatched(arms: Arms, d: int, n: int)
    requires !ArmsClash(arms) && Clear(n) && ArmsLen(arms) <= d <= n
    ensures Patch(ArmsCode(arms, Pending), d) == ArmsCode(arms, At(d))
    ensures Clean(ArmsCode(arms, At(d)))
    decreases arms, 3
  {
    hide OfCells, Patch, Off, Xt, Clear, Code, Clean;
    match arms
    case Default(q) =>
      Patched(q, d, n);
      DropPatch(Code(q, Pending), d);
      CleanDrop(Code(q, At(d)));
    case Of(q, r, rest) => OfPatched(q, r, rest, d, n);
  }

  lemma {:induction false} OfPatched(q: Stmt, r: Stmt, rest: Arms, d: int, n: int)
    requires !ArmsClash(Of(q, r, rest)) && Clear(n) && ArmsLen(Of(q, r, rest)) <= d <= n
    ensures var h := Len(q) + Len(r) + 6;
      var cells := OfCells(Code(q, At(d)), Code(r, At(d - (Len(q) + 5))), Hole(At(d), h),
        ArmsCode(rest, At(d - (h + 1))));
      && Patch(OfCells(Code(q, Pending), Code(r, Pending), Hole(Pending, h), ArmsCode(rest, Pending)), d) == cells
      && Clean(cells)
    decreases Of(q, r, rest), 2
  {
    hide OfCells, Patch, Off, Xt, Clear, Code, Clean, ArmsCode;
    var h := Len(q) + Len(r) + 6;
    Patched(q, d, n);
    Patched(r, d - (Len(q) + 5), n);
    ArmsPatched(rest, d - (h + 1), n);
    OfPatch(Code(q, Pending), Code(r, Pending), ArmsCode(rest, Pending), d, n);
    OfClean(Code(q, At(d)), Code(r, At(d - (Len(q) + 5))), d - h, ArmsCode(rest, At(d - (h + 1))), n);
  }

  lemma DropPatch(cells: seq<int>, d: int)
    ensures Patch(cells + [Xt(DROP)], d) == Patch(cells, d) + [Xt(DROP)]
  {
    OnlySentinel(DROP);
    PatchConcat(cells, [Xt(DROP)], d);
    PatchClean([Xt(DROP)], d - |cells|);
  }

  lemma CleanDrop(cells: seq<int>)
    requires Clean(cells)
    ensures Clean(cells + [Xt(DROP)])
  {
    OnlySentinel(DROP);
  }

  // ----- what is written -----

  /** The cells that the words write: every loop and every CASE sweeps the cells of its body, whatever
      they are. */
  function Raw(p: Stmt): (cells: seq<int>)
    ensures |cells| == Len(p)
  {
    match p
    case Skip => []
    case Word(xt) => [xt]
    case Lit(n) => [Xt(LIT_CELL), n]
    case Seq(q, r) => Raw(q) + Raw(r)
    case If(q) => IfCells(Raw(q))
    case IfElse(q, r) => IfElseCells(Raw(q), Raw(r))
    case Until(q) => UntilCells(Raw(q))
    case While(q, r) => WhileCells(Raw(q), Raw(r))
    case Again(q) => AgainCells(Raw(q))
    case Do(query, plain, q) => RawDo(query, plain, Raw(q))
    case Leave => [Xt(BRANCH), Xt(SENTINEL)]
    case Exit => [Xt(EXIT)]
    case Case(arms) => Patch(RawArms(arms), ArmsLen(arms))
  }

  function RawDo(query: bool, plain: bool, body: seq<int>): (cells: seq<int>)
    ensures |cells| == |DoPrefix(query)| + |body| + |Increment(plain)| + 10
  {
    DoPrefix(query) + (Patch(LoopCells(plain, body, Xt(SENTINEL)), |body| + |Increment(plain)| + 9) + [Xt(UNLOOP)])
  }

  function RawArms(arms: Arms): (cells: seq<int>)
    ensures |cells| == ArmsLen(arms)
  {
    match arms
    case Default(q) => Raw(q) + [Xt(DROP)]
    case Of(q, r, rest) => OfCells(Raw(q), Raw(r), Xt(SENTINEL), RawArms(rest))
  }

  /** Without a clash the cells written are the intended code. */
  lemma {:induction false} RawIsCode(p: Stmt, n: int)
    requires !Clashes(p, false) && Clear(n) && Len(p) <= n
    ensures Raw(p) == Code(p, Pending)
    decreases p
  {
    hide IfCells, IfElseCells, UntilCells, WhileCells, AgainCells, DoCells, RawDo, Patch, Off, Xt, Clear;
    match p
    case Seq(q, r) => RawIsCode(q, n); RawIsCode(r, n);
    case If(q) => RawIsCode(q, n);
    case IfElse(q, r) => RawIsCode(q, n); RawIsCode(r, n);
    case Until(q) => RawIsCode(q, n);
    case While(q, r) => RawIsCode(q, n); RawIsCode(r, n);
    case Again(q) => RawIsCode(q, n);
    case Do(query, plain, q) => RawDoIsCode(query, plain, q, n);
    case Case(arms) =>
      RawArmsIsCode(arms, n);
      ArmsPatched(arms, ArmsLen(arms), n);
    case _ =>
  }

  lemma {:induction false} RawDoIsCode(query: bool, plain: bool, q: Stmt, n: int)
    requires !Clashes(q, true) && Clear(n) && Len(Do(query, plain, q)) <= n
    ensures RawDo(query, plain, Raw(q)) == DoCells(query, plain, Code(q, At(LoopExit(plain, q))))
    decreases Do(query, plain, q), 0
  {
    hide Patch, Off, Xt, Clear, Code, Raw, Clashes, LoopCells, DoPrefix, Increment, Len, Text, Depth;
    DoFacts(query, plain, q);
    ClashesLess(q);
    RawIsCode(q, n);
    Patched(q, LoopExit(plain, q), n);
    LoopPatch(plain, Code(q, Pending), n);
  }

  lemma {:induction false} RawArmsIsCode(arms: Arms, n: int)
    requires !ArmsClash(arms) && Clear(n) && ArmsLen(arms) <= n
    ensures RawArms(arms) == ArmsCode(arms, Pending)
    decreases arms
  {
    hide OfCells, Patch, Off, Xt, Clear;
    match arms
    case Default(q) =>
      ClashesLess(q);
      RawIsCode(q, n);
    case Of(q, r, rest) =>
      ClashesLess(q);
      ClashesLess(r);
      RawIsCode(q, n);
      RawIsCode(r, n);
      RawArmsIsCode(rest, n);
  }

  lemma {:induction false} ClashesLess(p: Stmt)
    requires !Clashes(p, true)
    ensures !Clashes(p, false)
    decreases p
  {
    match p
    case Seq(q, r) => ClashesLess(q); ClashesLess(r);
    case If(q) => ClashesLess(q);
    case IfElse(q, r) => ClashesLess(q); ClashesLess(r);
    case Until(q) => ClashesLess(q);
    case While(q, r) => ClashesLess(q); ClashesLess(r);
    case Again(q) => ClashesLess(q);
    case _ =>
  }

  // ----- data that is the address of SENTINEL -----

  /** A sweep leaves no placeholder in what it covers. */
  lemma SweptClean(cells: seq<int>, n: int)
    requires Clear(n) && |cells| <= n
    ensures Clean(Patch(cells, |cells|))
  {
    hide Clear, Off;
    forall i | 0 <= i < |cells|
      ensures Patch(cells, |cells|)[i] != Xt(SENTINEL)
    {
      OffClear(|cells| - i, n);
    }
  }

  lemma RawDoClean(query: bool, plain: bool, body: seq<int>, n: int)
    requires Clear(n) && |RawDo(query, plain, body)| <= n
    ensures Clean(RawDo(query, plain, body))
  {
    hide Clear, Off, Patch, Xt, DoPrefix, Increment;
    var loop := LoopCells(plain, body, Xt(SENTINEL));
    BuiltinsAreClean();
    SweptClean(loop, n);
    hide Clean;
    CleanConcat(Patch(loop, |loop|), [Xt(UNLOOP)]);
    CleanConcat(DoPrefix(query), Patch(loop, |loop|) + [Xt(UNLOOP)]);
  }

  lemma DirtyData(n: int)
    requires n == Xt(SENTINEL)
    ensures !Clean([n]) && !Clean([Xt(LIT_CELL), n])
  {
    assert [n][0] == n && [Xt(LIT_CELL), n][1] == n;
  }

  lemma DirtyConcat(x: seq<int>, y: seq<int>)
    ensures Clean(x + y) ==> Clean(x) && Clean(y)
  {
  }

  lemma DirtyInOne(x: seq<int>)
    ensures Clean(IfCells(x)) || Clean(UntilCells(x)) || Clean(AgainCells(x)) ==> Clean(x)
  {
    hide Clean, Xt, Off;
    DirtyConcat([Xt(BRANCH0), Off(|x| + 1)], x);
    DirtyConcat(x, [Xt(BRANCH0), Off(0 - |x| - 1)]);
    DirtyConcat(x, [Xt(BRANCH), Off(0 - |x| - 1)]);
  }

  lemma DirtyInTwo(x: seq<int>, y: seq<int>)
    ensures Clean(IfElseCells(x, y)) || Clean(WhileCells(x, y)) ==> Clean(x) && Clean(y)
  {
    hide Clean, Xt, Off;
    var head, hop := [Xt(BRANCH0), Off(|x| + 3)], [Xt(BRANCH), Off(|y| + 1)];
    DirtyConcat(head, x + (hop + y));
    DirtyConcat(x, hop + y);
    DirtyConcat(hop, y);
    var test, tail := [Xt(BRANCH0), Off(|y| + 3)], [Xt(BRANCH), Off(0 - |x| - |y| - 3)];
    DirtyConcat(x, test + (y + tail));
    DirtyConcat(test, y + tail);
    DirtyConcat(y, tail);
  }

  lemma DirtyInDo(query: bool, plain: bool, x: seq<int>)
    ensures Clean(DoCells(query, plain, x)) ==> Clean(x)
  {
    hide Clean, Xt, Off, DoPrefix, Increment;
    var n := |x| + |Increment(plain)|;
    var loop := LoopCells(plain, x, Off(n + 7));
    var tail := Increment(plain) + [Xt(R_FROM), Xt(R_FETCH), Xt(LOOP_INC), Xt(TO_R), Xt(BRANCH), Off(0 - n - 8)];
    DirtyConcat(DoPrefix(query), loop + [Xt(UNLOOP)]);
    DirtyConcat(loop, [Xt(UNLOOP)]);
    DirtyConcat([Xt(INVERT), Xt(BRANCH0), Off(n + 7)], x + tail);
    DirtyConcat(x, tail);
  }

  lemma DirtyInOf(x: seq<int>, y: seq<int>, end: int, z: seq<int>)
    ensures Clean(OfCells(x, y, end, z)) ==> Clean(x) && Clean(y) && Clean(z)
  {
    hide Clean, Xt, Off;
    var head, hop := [Xt(OVER), Xt(EQUALS), Xt(BRANCH0), Off(|y| + 4), Xt(DROP)], [Xt(BRANCH), end];
    DirtyConcat(x, head + (y + (hop + z)));
    DirtyConcat(head, y + (hop + z));
    DirtyConcat(y, hop + z);
    DirtyConcat(hop, z);
  }

  /** In the intended code such data stays what it is. */
  lemma {:induction false} DirtyCode(p: Stmt, t: Target)
    requires Clashes(p, true)
    ensures !Clean(Code(p, t))
    decreases p
  {
    hide Xt, Off, Len, Hole, Clean, IfCells, IfElseCells, UntilCells, WhileCells, AgainCells, DoCells;
    match p
    case Word(xt) => DirtyData(xt);
    case Lit(n) => DirtyData(n);
    case Seq(q, r) =>
      var v := Shift(t, Len(q));
      DirtyConcat(Code(q, t), Code(r, v));
      if Clashes(q, true) { DirtyCode(q, t); } else { DirtyCode(r, v); }
    case If(q) =>
      DirtyInOne(Code(q, Shift(t, 2)));
      DirtyCode(q, Shift(t, 2));
    case IfElse(q, r) =>
      var u, v := Shift(t, 2), Shift(t, Len(q) + 4);
      DirtyInTwo(Code(q, u), Code(r, v));
      if Clashes(q, true) { DirtyCode(q, u); } else { DirtyCode(r, v); }
    case Until(q) =>
      DirtyInOne(Code(q, t));
      DirtyCode(q, t);
    case While(q, r) =>
      var v := Shift(t, Len(q) + 2);
      DirtyInTwo(Code(q, t), Code(r, v));
      if Clashes(q, true) { DirtyCode(q, t); } else { DirtyCode(r, v); }
    case Again(q) =>
      DirtyInOne(Code(q, t));
      DirtyCode(q, t);
    case Do(query, plain, q) =>
      var u := At(LoopExit(plain, q));
      DirtyInDo(query, plain, Code(q, u));
      DirtyCode(q, u);
    case Case(arms) => DirtyArms(arms, At(ArmsLen(arms)));
  }

  lemma {:induction false} DirtyArms(arms: Arms, end: Target)
    requires ArmsClash(arms)
    ensures !Clean(ArmsCode(arms, end))
    decreases arms
  {
    hide Xt, Off, Len, Hole, Code, Clashes, Clean, OfCells;
    match arms
    case Default(q) =>
      DirtyConcat(Code(q, end), [Xt(DROP)]);
      DirtyCode(q, end);
    case Of(q, r, rest) =>
      var m, n := Len(q), Len(r);
      var u, v := Shift(end, m + 5), Shift(end, m + n + 7);
      DirtyInOf(Code(q, end), Code(r, u), Hole(end, m + n + 6), ArmsCode(rest, v));
      if Clashes(q, true) {
        DirtyCode(q, end);
      } else if Clashes(r, true) {
        DirtyCode(r, u);
      } else {
        DirtyArms(rest, v);
      }
  }

  // ----- compiling a statement -----

  function Next(r: Compiled, dcap: nat, text: seq<Source>): Compiled {
    if r.Ok? then Compile(dcap, r.k, text) else r
  }

  lemma {:induction false} CompileConcat(dcap: nat, k: Draft, x: seq<Source>, y: seq<Source>)
    ensures Compile(dcap, k, x + y) == Next(Compile(dcap, k, x), dcap, y)
    decreases |x|
  {
    hide Compile1;
    if x == [] {
      assert x + y == y;
    } else {
      assert (x + y)[1..] == x[1..] + y;
      var r := Compile1(dcap, k, x[0]);
      if r.Ok? {
        CompileConcat(dcap, r.k, x[1..], y);
      }
    }
  }

  lemma CompileOne(dcap: nat, k: Draft, s: Source)
    ensures Compile(dcap, k, [s]) == Compile1(dcap, k, s)
  {
    hide Compile1;
    var r := Compile1(dcap, k, s);
    if r.Ok? {
      assert Compile(dcap, r.k, []) == r;
    }
  }

  /** The words before, the words of the statement, one word after. */
  lemma CompileAround(dcap: nat, k: Draft, s: Source, body: seq<Source>, e: Source, k1: Draft, k2: Draft)
    requires Compile1(dcap, k, s) == Ok(k1) && Compile(dcap, k1, body) == Ok(k2)
    ensures Compile(dcap, k, [s] + body + [e]) == Compile1(dcap, k2, e)
  {
    hide Compile1, Compile;
    CompileConcat(dcap, k, [s] + body, [e]);
    CompileConcat(dcap, k, [s], body);
    CompileOne(dcap, k, s);
    CompileOne(dcap, k2, e);
  }

  ghost predicate Ready(dcap: nat, k: Draft, p: Stmt) {
    HasRoom(k, Len(p)) && |k.ds| + Depth(p) <= dcap
  }

  /** Compiling a statement appends its cells and leaves the data stack as it was. */
  lemma {:induction false} Emits(dcap: nat, k: Draft, p: Stmt)
    requires Ready(dcap, k, p)
    ensures Compile(dcap, k, Text(p)) == Ok(Grown(k, Raw(p), k.ds))
    decreases p, 2
  {
    hide Compile1, Compile, Grown, Xt, Off;
    hide IfCells, IfElseCells, UntilCells, WhileCells, AgainCells, DoCells;
    match p
    case Skip => GrownNone(k, k.ds); NoText(dcap, k);
    case Word(xt) => CompileOne(dcap, k, Ordinary(xt)); OrdinaryEmits(dcap, k, xt);
    case Lit(x) => CompileOne(dcap, k, Number(x)); NumberEmits(dcap, k, x);
    case Seq(q, r) =>
      Emits(dcap, k, q);
      GrownTwice(k, Raw(q), Raw(r), k.ds, k.ds);
      CompileConcat(dcap, k, Text(q), Text(r));
      GrownRoom(k, Raw(q), k.ds);
      Emits(dcap, Grown(k, Raw(q), k.ds), r);
    case If(q) => IfEmits(dcap, k, q);
    case IfElse(q, r) => IfElseEmits(dcap, k, q, r);
    case Until(q) => BeginEmits(dcap, k, q, WUntil);
    case While(q, r) => WhileEmits(dcap, k, q, r);
    case Again(q) => BeginEmits(dcap, k, q, WAgain);
    case Do(query, plain, q) => DoEmits(dcap, k, query, plain, q);
    case Leave => CompileOne(dcap, k, WLeave); LeaveEmits(dcap, k);
    case Exit => CompileOne(dcap, k, Ordinary(Xt(EXIT))); OrdinaryEmits(dcap, k, Xt(EXIT));
    case Case(arms) => CaseEmits(dcap, k, arms);
  }

  lemma GrownRoom(k: Draft, cells: seq<int>, ds: seq<int>)
    requires HasRoom(k, |cells|)
    ensures var g := Grown(k, cells, ds);
      g.here == k.here + |cells| && |g.mem| == |k.mem| && g.ds == ds
  {
  }

  lemma NoText(dcap: nat, k: Draft)
    ensures Compile(dcap, k, []) == Ok(k)
  {
  }

  lemma OrdinaryEmits(dcap: nat, k: Draft, xt: int)
    requires HasRoom(k, 1)
    ensures Compile1(dcap, k, Ordinary(xt)) == Ok(Grown(k, [xt], k.ds))
  {
    CellGrows(k, xt);
  }

  lemma NumberEmits(dcap: nat, k: Draft, x: int)
    requires HasRoom(k, 2)
    ensures Compile1(dcap, k, Number(x)) == Ok(Grown(k, [Xt(LIT_CELL), x], k.ds))
  {
    CellsGrow(k, [Xt(LIT_CELL), x]);
  }

  lemma LeaveEmits(dcap: nat, k: Draft)
    requires HasRoom(k, 2)
    ensures Compile1(dcap, k, WLeave) == Ok(Grown(k, [Xt(BRANCH), Xt(SENTINEL)], k.ds))
  {
    CellsGrow(k, [Xt(BRANCH), Xt(SENTINEL)]);
  }

  lemma MarkGrown(k: Draft, cells: seq<int>, ds: seq<int>)
    requires HasRoom(k, |cells| + 1)
    ensures exists junk :: Mark(Grown(k, cells, ds)) == Grown(k, cells + [junk], ds + [k.here + |cells|])
  {
    var g := Grown(k, cells, ds);
    MarkGrows(g);
    var junk := g.mem[g.here];
    GrownTwice(k, cells, [junk], ds, ds + [g.here]);
  }

  lemma CellGrown(k: Draft, cells: seq<int>, ds: seq<int>, more: seq<int>)
    requires HasRoom(k, |cells| + |more|)
    ensures Cells(Grown(k, cells, ds), more) == Ok(Grown(k, cells + more, ds))
    ensures |more| == 1 ==> Cell(Grown(k, cells, ds), more[0]) == Ok(Grown(k, cells + more, ds))
  {
    GrownTwice(k, cells, more, ds, ds);
    CellsGrow(Grown(k, cells, ds), more);
    if |more| == 1 {
      CellGrows(Grown(k, cells, ds), more[0]);
      assert [more[0]] == more;
    }
  }

  lemma PopGrown(k: Draft, cells: seq<int>, ds: seq<int>, v: int)
    requires HasRoom(k, |cells|)
    ensures var g := Grown(k, cells, ds + [v]);
      g.ds != [] && Top(g.ds) == v && Pop(g) == Grown(k, cells, ds)
  {
  }

  /** IF leaves one cell to be filled in, with whatever is in memory there. */
  lemma IfGrows(dcap: nat, k: Draft) returns (junk: int)
    requires HasRoom(k, 2) && |k.ds| < dcap
    ensures Compile1(dcap, k, WIf) == Ok(Grown(k, [Xt(BRANCH0), junk], k.ds + [k.here + 1]))
  {
    CellGrows(k, Xt(BRANCH0));
    MarkGrown(k, [Xt(BRANCH0)], k.ds);
    junk :| Mark(Grown(k, [Xt(BRANCH0)], k.ds)) == Grown(k, [Xt(BRANCH0)] + [junk], k.ds + [k.here + 1]);
    assert [Xt(BRANCH0)] + [junk] == [Xt(BRANCH0), junk];
  }

  lemma {:induction false} IfEmits(dcap: nat, k: Draft, q: Stmt)
    requires Ready(dcap, k, If(q))
    ensures Compile(dcap, k, Text(If(q))) == Ok(Grown(k, IfCells(Raw(q)), k.ds))
    decreases q, 3
  {
    hide Compile, Compile1, Grown, Xt, Off, Raw, Text, Len, Depth;
    IfFacts(q);
    var junk := IfGrows(dcap, k);
    var ds := k.ds + [k.here + 1];
    var k1 := Grown(k, [Xt(BRANCH0), junk], ds);
    var code := Raw(q);
    GrownRoom(k, [Xt(BRANCH0), junk], ds);
    Emits(dcap, k1, q);
    GrownTwice(k, [Xt(BRANCH0), junk], code, ds, ds);
    var k2 := Grown(k, [Xt(BRANCH0), junk] + code, ds);
    CompileAround(dcap, k, WIf, Text(q), WThen, k1, k2);
    ThenGrown(dcap, k, [Xt(BRANCH0), junk] + code, 1, k.ds);
    assert ([Xt(BRANCH0), junk] + code)[1 := Off(|code| + 1)] == IfCells(code);
  }

  lemma IfFacts(q: Stmt)
    ensures var p := If(q);
      Len(p) == 2 + Len(q) && Depth(p) == 1 + Depth(q) && Text(p) == [WIf] + Text(q) + [WThen]
  {
  }

  lemma ThenGrown(dcap: nat, k: Draft, cells: seq<int>, i: nat, ds: seq<int>)
    requires HasRoom(k, |cells|) && i < |cells|
    ensures Compile1(dcap, Grown(k, cells, ds + [k.here + i]), WThen) == Ok(Grown(k, cells[i := Off(|cells| - i)], ds))
  {
    var g := Grown(k, cells, ds + [k.here + i]);
    assert Pop(g) == Grown(k, cells, ds);
    ResolveGrown(k, cells, i, ds);
  }

  /** ELSE fills in the cell of IF and leaves another one. */
  lemma ElseGrown(dcap: nat, k: Draft, cells: seq<int>, i: nat, ds: seq<int>) returns (junk: int)
    requires HasRoom(k, |cells| + 2) && i < |cells|
    ensures Compile1(dcap, Grown(k, cells, ds + [k.here + i]), WElse) ==
      Ok(Grown(k, cells[i := Off(|cells| + 2 - i)] + [Xt(BRANCH), junk], ds + [k.here + |cells| + 1]))
  {
    var g := Grown(k, cells, ds + [k.here + i]);
    assert Pop(g) == Grown(k, cells, ds);
    CellGrown(k, cells, ds, [Xt(BRANCH)]);
    MarkGrown(k, cells + [Xt(BRANCH)], ds);
    var ds' := ds + [k.here + |cells| + 1];
    junk :| Mark(Grown(k, cells + [Xt(BRANCH)], ds)) == Grown(k, cells + [Xt(BRANCH)] + [junk], ds');
    var c := cells + [Xt(BRANCH)] + [junk];
    ResolveGrown(k, c, i, ds');
    assert c[i := Off(|cells| + 2 - i)] == cells[i := Off(|cells| + 2 - i)] + [Xt(BRANCH), junk];
  }

  /** A compiled prefix, a statement, one word after it. */
  lemma CompileOn(dcap: nat, k: Draft, x: seq<Source>, y: seq<Source>, e: Source, k1: Draft, k2: Draft)
    requires Compile(dcap, k, x) == Ok(k1) && Compile(dcap, k1, y) == Ok(k2)
    ensures Compile(dcap, k, x + y + [e]) == Compile1(dcap, k2, e)
  {
    hide Compile1, Compile;
    CompileConcat(dcap, k, x + y, [e]);
    CompileConcat(dcap, k, x, y);
    CompileOne(dcap, k2, e);
  }

  lemma {:induction false} GrownEmits(dcap: nat, k: Draft, cells: seq<int>, ds: seq<int>, p: Stmt)
    requires HasRoom(k, |cells| + Len(p)) && |ds| + Depth(p) <= dcap
    ensures Compile(dcap, Grown(k, cells, ds), Text(p)) == Ok(Grown(k, cells + Raw(p), ds))
    decreases p, 3
  {
    hide Compile, Grown, Raw, Text, Len, Depth;
    GrownRoom(k, cells, ds);
    Emits(dcap, Grown(k, cells, ds), p);
    GrownTwice(k, cells, Raw(p), ds, ds);
  }

  /** IF, a statement, ELSE. */
  lemma {:induction false} IfHalf(dcap: nat, k: Draft, q: Stmt) returns (junk: int)
    requires HasRoom(k, Len(q) + 4) && |k.ds| + 1 + Depth(q) <= dcap
    ensures var yes := Raw(q);
      Compile(dcap, k, [WIf] + Text(q) + [WElse]) ==
        Ok(Grown(k, [Xt(BRANCH0), Off(|yes| + 3)] + yes + [Xt(BRANCH), junk], k.ds + [k.here + |yes| + 3]))
    decreases q, 4
  {
    hide Compile, Compile1, Grown, Xt, Off, Raw, Text, Len, Depth;
    var yes := Raw(q);
    var junk0 := IfGrows(dcap, k);
    var ds := k.ds + [k.here + 1];
    var c1 := [Xt(BRANCH0), junk0];
    GrownEmits(dcap, k, c1, ds, q);
    CompileAround(dcap, k, WIf, Text(q), WElse, Grown(k, c1, ds), Grown(k, c1 + yes, ds));
    junk := ElseGrown(dcap, k, c1 + yes, 1, k.ds);
    assert (c1 + yes)[1 := Off(|yes| + 3)] == [Xt(BRANCH0), Off(|yes| + 3)] + yes;
  }

  lemma {:induction false} IfElseEmits(dcap: nat, k: Draft, q: Stmt, r: Stmt)
    requires Ready(dcap, k, IfElse(q, r))
    ensures Compile(dcap, k, Text(IfElse(q, r))) == Ok(Grown(k, IfElseCells(Raw(q), Raw(r)), k.ds))
    decreases IfElse(q, r), 1
  {
    hide Compile, Compile1, Grown, Xt, Off, Raw, IfElseCells, Text, Len, Depth;
    IfElseFacts(q, r);
    var yes, no := Raw(q), Raw(r);
    var junk := IfHalf(dcap, k, q);
    var c2 := [Xt(BRANCH0), Off(|yes| + 3)] + yes + [Xt(BRANCH), junk];
    var ds' := k.ds + [k.here + |yes| + 3];
    GrownEmits(dcap, k, c2, ds', r);
    CompileOn(dcap, k, [WIf] + Text(q) + [WElse], Text(r), WThen, Grown(k, c2, ds'), Grown(k, c2 + no, ds'));
    ThenGrown(dcap, k, c2 + no, |yes| + 3, k.ds);
    IfElseShape(yes, no, junk);
  }

  lemma MaxIs(a: nat, b: nat)
    ensures Max(a, b) >= a && Max(a, b) >= b
  {
  }

  lemma IfElseFacts(q: Stmt, r: Stmt)
    ensures var p := IfElse(q, r);
      && Len(p) == 4 + Len(q) + Len(r) && Depth(p) >= 1 + Depth(q) && Depth(p) >= 1 + Depth(r)
      && Text(p) == [WIf] + Text(q) + [WElse] + Text(r) + [WThen]
  {
    hide Max;
    assert Depth(IfElse(q, r)) == 1 + Max(Depth(q), Depth(r));
    MaxIs(Depth(q), Depth(r));
  }

  lemma IfElseShape(yes: seq<int>, no: seq<int>, junk: int)
    ensures var c := [Xt(BRANCH0), Off(|yes| + 3)] + yes + [Xt(BRANCH), junk] + no;
      c[|yes| + 3 := Off(|c| - (|yes| + 3))] == IfElseCells(yes, no)
  {
    hide Xt, Off;
    assert |[Xt(BRANCH0), Off(|yes| + 3)] + yes + [Xt(BRANCH), junk] + no| - (|yes| + 3) == |no| + 1;
  }

  lemma BeginGrows(dcap: nat, k: Draft)
    requires HasRoom(k, 0) && |k.ds| < dcap
    ensures Compile1(dcap, k, WBegin) == Ok(Grown(k, [], k.ds + [k.here]))
  {
    GrownNone(k, k.ds + [k.here]);
  }

  lemma CaseGrows(dcap: nat, k: Draft)
    requires HasRoom(k, 0) && |k.ds| + 2 <= dcap
    ensures Compile1(dcap, k, WCase) == Ok(Grown(k, [], k.ds + [k.here] + [CASE_XT]))
  {
    assert k.ds + [k.here, CASE_XT] == k.ds + [k.here] + [CASE_XT];
    GrownNone(k, k.ds + [k.here, CASE_XT]);
  }

  lemma BackGrown(b: Builtin, k: Draft, cells: seq<int>, i: int, ds: seq<int>)
    requires HasRoom(k, |cells| + 2)
    ensures Back(b, Grown(k, cells, ds + [k.here + i])) == Ok(Grown(k, cells + [Xt(b), Off(i - |cells| - 1)], ds))
  {
    var g := Grown(k, cells, ds + [k.here + i]);
    assert Pop(g) == Grown(k, cells, ds);
    CellGrown(k, cells, ds, [Xt(b)]);
    CellGrown(k, cells + [Xt(b)], ds, [Off(i - |cells| - 1)]);
    assert cells + [Xt(b)] + [Off(i - |cells| - 1)] == cells + [Xt(b), Off(i - |cells| - 1)];
  }

  lemma {:induction false} BeginEmits(dcap: nat, k: Draft, q: Stmt, e: Source)
    requires e in {WUntil, WAgain}
    requires HasRoom(k, Len(q) + 2) && |k.ds| + 1 + Depth(q) <= dcap
    ensures Compile(dcap, k, [WBegin] + Text(q) + [e]) ==
      Ok(Grown(k, if e == WUntil then UntilCells(Raw(q)) else AgainCells(Raw(q)), k.ds))
    decreases q, 4
  {
    hide Compile, Grown, Xt, Off, Raw, Text, Len, Depth;
    var ds := k.ds + [k.here + 0];
    var code := Raw(q);
    GrownNone(k, ds);
    GrownEmits(dcap, k, [], ds, q);
    assert [] + code == code;
    CompileAround(dcap, k, WBegin, Text(q), e, Grown(k, [], ds), Grown(k, code, ds));
    GrownRoom(k, code, ds);
    BackGrown(if e == WUntil then BRANCH0 else BRANCH, k, code, 0, k.ds);
  }

  lemma WhileGrown(dcap: nat, k: Draft, cells: seq<int>, ds: seq<int>) returns (junk: int)
    requires HasRoom(k, |cells| + 2) && |ds| + 1 < dcap
    ensures Compile1(dcap, Grown(k, cells, ds + [k.here]), WWhile) ==
      Ok(Grown(k, cells + [Xt(BRANCH0), junk], ds + [k.here + |cells| + 1] + [k.here]))
  {
    var g := Grown(k, cells, ds + [k.here]);
    junk := IfGrows(dcap, g);
    GrownTwice(k, cells, [Xt(BRANCH0), junk], g.ds, g.ds + [g.here + 1]);
    var r := Grown(k, cells + [Xt(BRANCH0), junk], ds + [k.here] + [k.here + |cells| + 1]);
    assert Effect(SWAP, r.ds) == ds + [k.here + |cells| + 1] + [k.here];
  }

  lemma RepeatGrown(dcap: nat, k: Draft, cells: seq<int>, i: nat, ds: seq<int>)
    requires HasRoom(k, |cells| + 2) && i < |cells|
    ensures Compile1(dcap, Grown(k, cells, ds + [k.here + i] + [k.here]), WRepeat) ==
      Ok(Grown(k, cells[i := Off(|cells| + 2 - i)] + [Xt(BRANCH), Off(0 - |cells| - 1)], ds))
  {
    var back := [Xt(BRANCH), Off(0 - |cells| - 1)];
    BackGrown(BRANCH, k, cells, 0, ds + [k.here + i]);
    assert k.here + 0 == k.here;
    var g := Grown(k, cells + back, ds + [k.here + i]);
    assert Pop(g) == Grown(k, cells + back, ds);
    ResolveGrown(k, cells + back, i, ds);
    assert (cells + back)[i := Off(|cells| + 2 - i)] == cells[i := Off(|cells| + 2 - i)] + back;
  }

  /** BEGIN, a statement, WHILE. */
  lemma {:induction false} WhileHalf(dcap: nat, k: Draft, q: Stmt) returns (junk: int)
    requires HasRoom(k, Len(q) + 4) && |k.ds| + 2 <= dcap && |k.ds| + 1 + Depth(q) <= dcap
    ensures var test := Raw(q);
      Compile(dcap, k, [WBegin] + Text(q) + [WWhile]) ==
        Ok(Grown(k, test + [Xt(BRANCH0), junk], k.ds + [k.here + |test| + 1] + [k.here]))
    decreases q, 4
  {
    hide Compile, Compile1, Grown, Xt, Off, Raw, Text, Len, Depth;
    var test := Raw(q);
    var ds := k.ds + [k.here];
    BeginGrows(dcap, k);
    GrownEmits(dcap, k, [], ds, q);
    assert [] + test == test;
    CompileAround(dcap, k, WBegin, Text(q), WWhile, Grown(k, [], ds), Grown(k, test, ds));
    junk := WhileGrown(dcap, k, test, k.ds);
  }

  lemma {:induction false} WhileEmits(dcap: nat, k: Draft, q: Stmt, r: Stmt)
    requires Ready(dcap, k, While(q, r))
    ensures Compile(dcap, k, Text(While(q, r))) ==
      Ok(Grown(k, WhileCells(Raw(q), Raw(r)), k.ds))
    decreases While(q, r), 1
  {
    hide Compile, Compile1, Grown, Xt, Off, Raw, WhileCells, Text, Len, Depth;
    WhileFacts(q, r);
    var test, body := Raw(q), Raw(r);
    var junk := WhileHalf(dcap, k, q);
    var c := test + [Xt(BRANCH0), junk];
    var ds' := k.ds + [k.here + |test| + 1] + [k.here];
    GrownEmits(dcap, k, c, ds', r);
    CompileOn(dcap, k, [WBegin] + Text(q) + [WWhile], Text(r), WRepeat, Grown(k, c, ds'), Grown(k, c + body, ds'));
    RepeatGrown(dcap, k, c + body, |test| + 1, k.ds);
    WhileShape(test, body, junk);
  }

  lemma WhileFacts(q: Stmt, r: Stmt)
    ensures var p := While(q, r);
      && Len(p) == Len(q) + Len(r) + 4 && Depth(p) >= 1 + Depth(q) && Depth(p) >= 2 + Depth(r)
      && Text(p) == [WBegin] + Text(q) + [WWhile] + Text(r) + [WRepeat]
  {
  }

  lemma WhileShape(test: seq<int>, body: seq<int>, junk: int)
    ensures var c := test + [Xt(BRANCH0), junk] + body;
      c[|test| + 1 := Off(|c| + 2 - (|test| + 1))] + [Xt(BRANCH), Off(0 - |c| - 1)] == WhileCells(test, body)
  {
    hide Xt, Off;
    var c := test + [Xt(BRANCH0), junk] + body;
    assert |c| + 2 - (|test| + 1) == |body| + 3 && 0 - |c| - 1 == 0 - |test| - |body| - 3;
  }

  // ----- counted loops -----

  const HEAD: seq<int> := [Xt(INVERT), Xt(BRANCH0), Xt(SENTINEL)]
  const TAIL: seq<int> := [Xt(R_FROM), Xt(R_FETCH), Xt(LOOP_INC), Xt(TO_R), Xt(BRANCH)]

  lemma DoGrows(dcap: nat, k: Draft, query: bool)
    requires HasRoom(k, |DoPrefix(query)| + 3) && |k.ds| < dcap
    ensures Compile1(dcap, k, if query then WQuestionDo else WDo) ==
      Ok(Grown(k, DoPrefix(query) + HEAD, k.ds + [k.here + |DoPrefix(query)|]))
  {
    var pre := DoPrefix(query);
    CellsGrow(k, pre);
    var k1 := Grown(k, pre, k.ds);
    var ds := k.ds + [k1.here];
    assert k1.(ds := ds) == Grown(k, pre, ds);
    CellGrown(k, pre, ds, HEAD);
  }

  /** What +LOOP does to the cells x since DO left its reference. */
  lemma PlusLoopGrown(k: Draft, pre: seq<int>, x: seq<int>, ds: seq<int>)
    requires HasRoom(k, |pre| + |x| + 7)
    ensures var y := x + TAIL + [Off(0 - |x| - 5)];
      PlusLoopWord(Grown(k, pre + x, ds + [k.here + |pre|])) == Ok(Grown(k, pre + Patch(y, |y|) + [Xt(UNLOOP)], ds))
  {
    hide Xt, Off, Sweep, SweepFrom, Patch, Grown, Cells, Cell, Pop, Top;
    var ref := k.here + |pre|;
    var back := Off(0 - |x| - 5);
    var y := x + TAIL + [back];
    GrownRoom(k, pre + x, ds + [ref]);
    CellGrown(k, pre + x, ds + [ref], TAIL);
    PopGrown(k, pre + x + TAIL, ds, ref);
    GrownRoom(k, pre + x + TAIL, ds + [ref]);
    CellGrown(k, pre + x + TAIL, ds, [back]);
    assert pre + x + TAIL + [back] == pre + y;
    SweepGrown(k, pre, y, ds);
    CellGrown(k, pre + Patch(y, |y|), ds, [Xt(UNLOOP)]);
  }

  lemma LoopEndGrown(dcap: nat, k: Draft, plain: bool, pre: seq<int>, x: seq<int>, ds: seq<int>)
    requires HasRoom(k, |pre| + |x| + |Increment(plain)| + 7) && |ds| + (if plain then 2 else 1) <= dcap
    ensures var z := x + Increment(plain);
      var y := z + TAIL + [Off(0 - |z| - 5)];
      Compile1(dcap, Grown(k, pre + x, ds + [k.here + |pre|]), if plain then WLoop else WPlusLoop) ==
        Ok(Grown(k, pre + Patch(y, |y|) + [Xt(UNLOOP)], ds))
  {
    hide Off, Patch, PlusLoopWord, Grown, Cells, Xt;
    var z := x + Increment(plain);
    var d := ds + [k.here + |pre|];
    GrownRoom(k, pre + x, d);
    if plain {
      CellGrown(k, pre + x, d, [Xt(LIT_CELL), 1]);
      assert pre + x + [Xt(LIT_CELL), 1] == pre + z;
    } else {
      assert x == z;
    }
    PlusLoopGrown(k, pre, z, ds);
  }

  /** DO or ?DO and the body. */
  lemma {:induction false} DoHalf(dcap: nat, k: Draft, query: bool, q: Stmt)
    requires HasRoom(k, |DoPrefix(query)| + 3 + Len(q))
    requires |k.ds| + 1 + Depth(q) <= dcap
    ensures var pre := DoPrefix(query);
      Compile(dcap, k, [if query then WQuestionDo else WDo] + Text(q)) ==
        Ok(Grown(k, pre + (HEAD + Raw(q)), k.ds + [k.here + |pre|]))
    decreases q, 4
  {
    hide Compile, Compile1, Grown, Raw, DoPrefix, Text, Len, Depth, Xt;
    var pre, body := DoPrefix(query), Raw(q);
    var s := if query then WQuestionDo else WDo;
    var ds := k.ds + [k.here + |pre|];
    DoGrows(dcap, k, query);
    GrownEmits(dcap, k, pre + HEAD, ds, q);
    assert pre + HEAD + body == pre + (HEAD + body);
    CompileOne(dcap, k, s);
    CompileConcat(dcap, k, [s], Text(q));
  }

  lemma {:induction false} DoEmits(dcap: nat, k: Draft, query: bool, plain: bool, q: Stmt)
    requires Ready(dcap, k, Do(query, plain, q))
    ensures Compile(dcap, k, Text(Do(query, plain, q))) ==
      Ok(Grown(k, RawDo(query, plain, Raw(q)), k.ds))
    decreases q, 5
  {
    hide Compile, Compile1, Grown, Raw, DoPrefix, Patch, LoopCells, Len, Depth, Xt, Off, Text;
    DoFacts(query, plain, q);
    var pre, body := DoPrefix(query), Raw(q);
    var s, e := if query then WQuestionDo else WDo, if plain then WLoop else WPlusLoop;
    DoHalf(dcap, k, query, q);
    LoopCloses(dcap, k, plain, pre, q);
    var k2 := Grown(k, pre + (HEAD + body), k.ds + [k.here + |pre|]);
    CompileConcat(dcap, k, [s] + Text(q), [e]);
    CompileOne(dcap, k2, e);
  }

  /** LOOP or +LOOP after the body. */
  lemma {:induction false} LoopCloses(dcap: nat, k: Draft, plain: bool, pre: seq<int>, q: Stmt)
    requires HasRoom(k, |pre| + Len(q) + |Increment(plain)| + 10) && |k.ds| + (if plain then 2 else 1) <= dcap
    ensures var x := HEAD + Raw(q);
      var loop := Patch(LoopCells(plain, Raw(q), Xt(SENTINEL)), Len(q) + |Increment(plain)| + 9);
      Compile1(dcap, Grown(k, pre + x, k.ds + [k.here + |pre|]), if plain then WLoop else WPlusLoop) ==
        Ok(Grown(k, pre + (loop + [Xt(UNLOOP)]), k.ds))
    decreases q, 4
  {
    hide Compile1, Grown, Raw, Patch, LoopCells, Xt, Off, Len, Depth;
    var body := Raw(q);
    LoopEndGrown(dcap, k, plain, pre, HEAD + body, k.ds);
    LoopShape(plain, body);
    var loop := Patch(LoopCells(plain, Raw(q), Xt(SENTINEL)), Len(q) + |Increment(plain)| + 9);
    assert pre + loop + [Xt(UNLOOP)] == pre + (loop + [Xt(UNLOOP)]);
  }

  lemma DoFacts(query: bool, plain: bool, q: Stmt)
    ensures var p := Do(query, plain, q);
      && Depth(p) >= 1 + Depth(q) && (plain ==> Depth(p) >= 2)
      && Len(p) == |DoPrefix(query)| + Len(q) + |Increment(plain)| + 10
      && Text(p) == [if query then WQuestionDo else WDo] + Text(q) + [if plain then WLoop else WPlusLoop]
  {
  }

  lemma LoopShape(plain: bool, body: seq<int>)
    ensures var z := HEAD + body + Increment(plain);
      z + TAIL + [Off(0 - |z| - 5)] == LoopCells(plain, body, Xt(SENTINEL))
  {
    hide Xt, Off, Increment;
    var n := |body| + |Increment(plain)|;
    assert 0 - |HEAD + body + Increment(plain)| - 5 == 0 - n - 8;
  }

  // ----- CASE -----

  lemma OfGrown(dcap: nat, k: Draft, cells: seq<int>, ds: seq<int>) returns (junk: int)
    requires HasRoom(k, |cells| + 5) && |ds| + 3 <= dcap
    ensures Compile1(dcap, Grown(k, cells, ds + [CASE_XT]), WOf) ==
      Ok(Grown(k, cells + [Xt(OVER), Xt(EQUALS), Xt(BRANCH0), junk, Xt(DROP)],
               ds + [CASE_XT] + [k.here + |cells| + 3] + [OF_XT]))
  {
    var d1 := ds + [CASE_XT];
    var pick := [Xt(OVER), Xt(EQUALS), Xt(BRANCH0)];
    CellGrown(k, cells, d1, pick);
    MarkGrown(k, cells + pick, d1);
    var d2 := d1 + [k.here + |cells| + 3];
    junk :| Mark(Grown(k, cells + pick, d1)) == Grown(k, cells + pick + [junk], d2);
    CellGrown(k, cells + pick + [junk], d2, [Xt(DROP)]);
    assert cells + pick + [junk] + [Xt(DROP)] == cells + [Xt(OVER), Xt(EQUALS), Xt(BRANCH0), junk, Xt(DROP)];
  }

  lemma EndOfGrown(dcap: nat, k: Draft, cells: seq<int>, i: nat, ds: seq<int>)
    requires HasRoom(k, |cells| + 2) && i < |cells|
    ensures Compile1(dcap, Grown(k, cells, ds + [k.here + i] + [OF_XT]), WEndOf) ==
      Ok(Grown(k, cells[i := Off(|cells| + 2 - i)] + [Xt(BRANCH), Xt(SENTINEL)], ds))
  {
    var g := Grown(k, cells, ds + [k.here + i] + [OF_XT]);
    assert Pop(g) == Grown(k, cells, ds + [k.here + i]);
    assert Pop(Pop(g)) == Grown(k, cells, ds);
    var hop := [Xt(BRANCH), Xt(SENTINEL)];
    CellGrown(k, cells, ds, hop);
    ResolveGrown(k, cells + hop, i, ds);
    assert (cells + hop)[i := Off(|cells| + 2 - i)] == cells[i := Off(|cells| + 2 - i)] + hop;
  }

  /** The clauses of a CASE up to ENDCASE; ds holds the marker of CASE on top. */
  lemma {:induction false} ArmsEmit(dcap: nat, k: Draft, cells: seq<int>, ds: seq<int>, arms: Arms)
    requires HasRoom(k, |cells| + ArmsLen(arms))
    requires |ds| + 1 + ArmsDepth(arms) <= dcap
    ensures var d := ds + [CASE_XT];
      exists code :: code + [Xt(DROP)] == RawArms(arms) &&
        Compile(dcap, Grown(k, cells, d), ArmsText(arms)) == Ok(Grown(k, cells + code, d))
    decreases arms, 4
  {
    hide Compile, Compile1, Grown, Xt, Off, Raw, OfCells, Clause, Text, Len, Depth;
    var d := ds + [CASE_XT];
    match arms
    case Default(q) =>
      GrownEmits(dcap, k, cells, d, q);
      assert Raw(q) + [Xt(DROP)] == RawArms(arms);
    case Of(q, r, rest) =>
      ArmsFacts(q, r, rest);
      var test, body := Raw(q), Raw(r);
      var one := Clause(test, body);
      ClauseEmits(dcap, k, cells, ds, q, r, rest);
      ArmsEmit(dcap, k, cells + one, ds, rest);
      var code :| code + [Xt(DROP)] == RawArms(rest) &&
        Compile(dcap, Grown(k, cells + one, d), ArmsText(rest)) == Ok(Grown(k, cells + one + code, d));
      assert cells + one + code == cells + (one + code);
      OfTail(test, body, code);
  }

  lemma ArmsFacts(q: Stmt, r: Stmt, rest: Arms)
    ensures var arms := Of(q, r, rest);
      && ArmsLen(arms) == Len(q) + Len(r) + 7 + ArmsLen(rest) && ArmsDepth(arms) >= ArmsDepth(rest)
      && ArmsDepth(arms) >= Depth(q) && ArmsDepth(arms) >= 2 + Depth(r)
      && ArmsText(arms) == Text(q) + [WOf] + Text(r) + [WEndOf] + ArmsText(rest)
  {
    hide Max;
    MaxIs(Depth(q), 2 + Depth(r));
    MaxIs(Max(Depth(q), 2 + Depth(r)), ArmsDepth(rest));
  }

  /** One clause, from its test to ENDOF. */
  lemma {:induction false} ClauseEmits(dcap: nat, k: Draft, cells: seq<int>, ds: seq<int>, q: Stmt, r: Stmt,
                                       rest: Arms)
    requires HasRoom(k, |cells| + Len(q) + Len(r) + 7)
    requires |ds| + 1 + Depth(q) <= dcap && |ds| + 3 + Depth(r) <= dcap
    ensures var d, one := ds + [CASE_XT], Clause(Raw(q), Raw(r));
      Compile(dcap, Grown(k, cells, d), Text(q) + [WOf] + Text(r) + [WEndOf] + ArmsText(rest)) ==
        Compile(dcap, Grown(k, cells + one, d), ArmsText(rest))
    decreases Of(q, r, rest), 3
  {
    hide Compile, Compile1, Grown, Xt, Off, Raw, OfCells, Clause, Text, Len, Depth;
    var d, test, body := ds + [CASE_XT], Raw(q), Raw(r);
    GrownEmits(dcap, k, cells, d, q);
    var c1 := cells + test;
    var junk := OfGrown(dcap, k, c1, ds);
    var c2 := c1 + [Xt(OVER), Xt(EQUALS), Xt(BRANCH0), junk, Xt(DROP)];
    var d2 := d + [k.here + |c1| + 3] + [OF_XT];
    GrownEmits(dcap, k, c2, d2, r);
    EndOfGrown(dcap, k, c2 + body, |c1| + 3, d);
    OfShape(cells, test, body, junk);
    ClauseText(dcap, Grown(k, cells, d), Text(q), Text(r), ArmsText(rest),
      Grown(k, c1, d), Grown(k, c2, d2), Grown(k, c2 + body, d2), Grown(k, cells + Clause(test, body), d));
  }

  /** The cells of one clause, its ENDOF still open. */
  function Clause(test: seq<int>, body: seq<int>): (cells: seq<int>)
    ensures |cells| == |test| + |body| + 7
  {
    test + [Xt(OVER), Xt(EQUALS), Xt(BRANCH0), Off(|body| + 4), Xt(DROP)] + body + [Xt(BRANCH), Xt(SENTINEL)]
  }

  lemma OfShape(cells: seq<int>, test: seq<int>, body: seq<int>, junk: int)
    ensures var c1 := cells + test;
      var c := c1 + [Xt(OVER), Xt(EQUALS), Xt(BRANCH0), junk, Xt(DROP)] + body;
      c[|c1| + 3 := Off(|c| + 2 - (|c1| + 3))] + [Xt(BRANCH), Xt(SENTINEL)] == cells + Clause(test, body)
  {
    hide Xt, Off;
    var c := cells + test + [Xt(OVER), Xt(EQUALS), Xt(BRANCH0), junk, Xt(DROP)] + body;
    assert |c| + 2 - (|cells + test| + 3) == |body| + 4;
  }

  lemma OfTail(test: seq<int>, body: seq<int>, code: seq<int>)
    ensures Clause(test, body) + code + [Xt(DROP)] == OfCells(test, body, Xt(SENTINEL), code + [Xt(DROP)])
  {
    hide Xt, Off;
  }

  lemma ClauseText(dcap: nat, k: Draft, test: seq<Source>, body: seq<Source>, rest: seq<Source>,
                   k1: Draft, k2: Draft, k3: Draft, k4: Draft)
    requires Compile(dcap, k, test) == Ok(k1) && Compile1(dcap, k1, WOf) == Ok(k2)
    requires Compile(dcap, k2, body) == Ok(k3) && Compile1(dcap, k3, WEndOf) == Ok(k4)
    ensures Compile(dcap, k, test + [WOf] + body + [WEndOf] + rest) == Compile(dcap, k4, rest)
  {
    hide Compile, Compile1;
    CompileConcat(dcap, k, test + [WOf] + body + [WEndOf], rest);
    CompileConcat(dcap, k, test, [WOf]);
    CompileOne(dcap, k1, WOf);
    CompileOn(dcap, k, test + [WOf], body, WEndOf, k2, k3);
  }

  lemma EndCaseGrown(dcap: nat, k: Draft, cells: seq<int>, ds: seq<int>)
    requires HasRoom(k, |cells| + 1)
    ensures var y := cells + [Xt(DROP)];
      Compile1(dcap, Grown(k, cells, ds + [k.here] + [CASE_XT]), WEndCase) == Ok(Grown(k, Patch(y, |y|), ds))
  {
    hide Sweep, Patch;
    var g := Grown(k, cells, ds + [k.here] + [CASE_XT]);
    assert Pop(g) == Grown(k, cells, ds + [k.here]);
    assert Pop(Pop(g)) == Grown(k, cells, ds);
    CellGrown(k, cells, ds, [Xt(DROP)]);
    var y := cells + [Xt(DROP)];
    assert [] + y == y && [] + Patch(y, |y|) == Patch(y, |y|);
    SweepGrown(k, [], y, ds);
  }

  lemma {:induction false} CaseEmits(dcap: nat, k: Draft, arms: Arms)
    requires Ready(dcap, k, Case(arms))
    ensures Compile(dcap, k, Text(Case(arms))) ==
      Ok(Grown(k, Patch(RawArms(arms), ArmsLen(arms)), k.ds))
    decreases arms, 5
  {
    hide Compile, Compile1, Grown, Xt, RawArms, Patch;
    var ds := k.ds + [k.here];
    CaseGrows(dcap, k);
    ArmsEmit(dcap, k, [], ds, arms);
    var code :| code + [Xt(DROP)] == RawArms(arms) &&
      Compile(dcap, Grown(k, [], ds + [CASE_XT]), ArmsText(arms)) == Ok(Grown(k, [] + code, ds + [CASE_XT]));
    assert [] + code == code;
    CompileAround(dcap, k, WCase, ArmsText(arms), WEndCase,
      Grown(k, [], ds + [CASE_XT]), Grown(k, code, ds + [CASE_XT]));
    EndCaseGrown(dcap, k, code, k.ds);
  }
}
