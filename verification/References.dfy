/** Which texts the compiler refuses.  The control-structure words keep references on the data stack; counting
    them decides what compiles to the end, and the semicolon accepts only what has used up its own. */
module References {
  import opened Machine
  import opened Structured
  import opened Compiling

  /** How many cells of the data stack a word of the source leaves more than it found. */
  function Net(s: Source): int {
    match s
    case Ordinary(_) => 0 case Number(_) => 0 case WLeave => 0 case WElse => 0
    case WIf => 1 case WBegin => 1 case WWhile => 1 case WDo => 1 case WQuestionDo => 1
    case WThen => -1 case WUntil => -1 case WAgain => -1 case WLoop => -1 case WPlusLoop => -1
    case WRepeat => -2
    case WCase => 2 case WOf => 2 case WEndOf => -2 case WEndCase => -2
  }

  /** How many it needs to find. */
  function Needs(s: Source): nat {
    match s
    case WElse => 1 case WThen => 1 case WUntil => 1 case WAgain => 1 case WLoop => 1 case WPlusLoop => 1
    case WWhile => 1 case WOf => 1
    case WRepeat => 2 case WEndOf => 2 case WEndCase => 2
    case _ => 0
  }

  function TextNet(text: seq<Source>): int {
    if text == [] then 0 else Net(text[0]) + TextNet(text[1..])
  }

  /** No word finds fewer references than it needs, starting with d cells on the stack. */
  predicate Balanced(d: int, text: seq<Source>)
    decreases |text|
  {
    text == [] || (Needs(text[0]) <= d && Balanced(d + Net(text[0]), text[1..]))
  }

  lemma WordCounts(dcap: nat, k: Draft, s: Source)
    ensures var r := Compile1(dcap, k, s);
      r.Ok? ==> |r.k.ds| == |k.ds| + Net(s) && Needs(s) <= |k.ds|
  {
    hide Cells, Off, Xt, Sweep;
    match s
    case WWhile => WhileCounts(dcap, k);
    case WRepeat => RepeatCounts(k);
    case WUntil => BackCounts(BRANCH0, k);
    case WAgain => BackCounts(BRANCH, k);
    case WPlusLoop => PlusLoopCounts(k);
    case WLoop => LoopCounts(dcap, k);
    case WOf => OfCounts(dcap, k);
    case WEndOf => EndOfCounts(k);
    case WEndCase => EndCaseCounts(k);
    case WElse => ElseCounts(k);
    case _ =>
  }

  lemma BackCounts(b: Builtin, k: Draft)
    ensures k.ds != [] ==> var r := Back(b, k); r.Ok? ==> |r.k.ds| == |k.ds| - 1
  {
    hide Xt, Off;
  }

  lemma WhileCounts(dcap: nat, k: Draft)
    ensures var r := WhileWord(dcap, k); r.Ok? ==> |r.k.ds| == |k.ds| + 1 && 1 <= |k.ds|
  {
    hide Xt;
  }

  lemma RepeatCounts(k: Draft)
    ensures var r := RepeatWord(k); r.Ok? ==> |r.k.ds| == |k.ds| - 2 && 2 <= |k.ds|
  {
    hide Xt, Off, Back;
    BackCounts(BRANCH, k);
  }

  lemma ElseCounts(k: Draft)
    ensures var r := ElseWord(k); r.Ok? ==> |r.k.ds| == |k.ds| && 1 <= |k.ds|
  {
    hide Xt, Off;
  }

  lemma PlusLoopCounts(k: Draft)
    ensures var r := PlusLoopWord(k); r.Ok? ==> |r.k.ds| == |k.ds| - 1 && 1 <= |k.ds|
  {
    hide Xt, Off, Sweep;
  }

  lemma LoopCounts(dcap: nat, k: Draft)
    ensures var r := LoopWord(dcap, k); r.Ok? ==> |r.k.ds| == |k.ds| - 1 && 1 <= |k.ds|
  {
    hide Xt, PlusLoopWord;
    var k1 := Cells(k, [Xt(LIT_CELL), 1]);
    if k1.Ok? {
      PlusLoopCounts(k1.k);
    }
  }

  lemma OfCounts(dcap: nat, k: Draft)
    ensures var r := OfWord(dcap, k); r.Ok? ==> |r.k.ds| == |k.ds| + 2 && 1 <= |k.ds|
  {
    hide Xt;
  }

  lemma EndOfCounts(k: Draft)
    ensures var r := EndOfWord(k); r.Ok? ==> |r.k.ds| == |k.ds| - 2 && 2 <= |k.ds|
  {
    hide Xt, Off;
  }

  lemma EndCaseCounts(k: Draft)
    ensures var r := EndCaseWord(k); r.Ok? ==> |r.k.ds| == |k.ds| - 2 && 2 <= |k.ds|
  {
    hide Xt, Sweep;
  }

  /** A text that compiles to its end has found all the references that it needed, and leaves as many as it
      has opened and not closed. */
  lemma {:induction false} TextCounts(dcap: nat, k: Draft, text: seq<Source>)
    ensures var r := Compile(dcap, k, text);
      r.Ok? ==> |r.k.ds| == |k.ds| + TextNet(text) && Balanced(|k.ds|, text)
    decreases |text|
  {
    hide Compile1;
    if text == [] {
    } else {
      WordCounts(dcap, k, text[0]);
      var r := Compile1(dcap, k, text[0]);
      if r.Ok? {
        TextCounts(dcap, r.k, text[1..]);
      }
    }
  }

  /** A body that opens more than it closes, or the other way round, is cancelled by the semicolon as a
      mismatch, if it compiles that far; one that balances is given its EXIT. */
  lemma BodyBalances(dcap: nat, k: Draft, text: seq<Source>)
    ensures var r := Compile(dcap, k, text);
      r.Ok? ==>
        CompileBody(dcap, k, text) ==
        if TextNet(text) != 0 then Err(-22, true) else Cells(r.k, [Xt(EXIT), Xt(SENTINEL)])
    ensures CompileBody(dcap, k, text).Ok? ==> TextNet(text) == 0 && Balanced(|k.ds|, text)
  {
    hide Compile, Cells;
    TextCounts(dcap, k, text);
  }

  /** : x if ; */
  lemma OpenIf(dcap: nat, k: Draft)
    requires 0 <= k.here && k.here + 2 <= |k.mem| && |k.ds| < dcap
    ensures CompileBody(dcap, k, [WIf]) == Err(-22, true)
  {
    BodyBalances(dcap, k, [WIf]);
    assert [WIf][1..] == [];
  }

  // ----- refusals -----

  /** The reference or mark on top of the stack is not one that the word takes. */
  predicate Mismatched(dcap: nat, k: Draft, s: Source) {
    var d := |k.ds|;
    match s
    case WElse => d < 1 case WThen => d < 1 case WUntil => d < 1 case WAgain => d < 1 case WPlusLoop => d < 1
    case WLoop => d < 1 && 1 <= dcap
    case WRepeat => d < 2
    case WOf => d < 1 || (d + 2 <= dcap && k.ds[d - 1] != CASE_XT)
    case WEndOf => d < 2 || k.ds[d - 1] != OF_XT
    case WEndCase => d < 2 || k.ds[d - 1] != CASE_XT
    case _ => false
  }

  /** There is no room for what the word pushes. */
  predicate Overflows(dcap: nat, k: Draft, s: Source) {
    var d := |k.ds|;
    match s
    case WIf => dcap < d + 1 case WBegin => dcap < d + 1 case WWhile => dcap < d + 1 case WLoop => dcap < d + 1
    case WDo => dcap < d + 1 case WQuestionDo => dcap < d + 1
    case WCase => dcap < d + 2
    case WOf => 1 <= d && dcap < d + 2
    case _ => false
  }

  /** With memory to write in, a mismatch is cancelled and thrown, a full stack and the SWAP of WHILE on an empty
      one are thrown, and nothing else fails. */
  lemma Refusals(dcap: nat, k: Draft, s: Source)
    requires 0 <= k.here && k.here + 2 <= |k.mem|
    ensures var r := Compile1(dcap, k, s);
      && (r == Err(-22, true) <==> Mismatched(dcap, k, s))
      && (r == Err(-3, false) <==> Overflows(dcap, k, s))
      && (r == Err(-4, false) <==> s.WWhile? && k.ds == [] && 1 <= dcap)
      && (r.Err? ==> r in {Err(-22, true), Err(-3, false), Err(-4, false)})
  {
    hide Cells, Off, Xt, Sweep, PlusLoopWord, Back;
    WritingFailsNot(k);
    match s
    case WWhile => WhileRefuses(dcap, k);
    case WRepeat => RepeatRefuses(k);
    case WPlusLoop => PlusLoopRefuses(k);
    case WLoop => LoopRefuses(dcap, k);
    case WOf => OfRefuses(dcap, k);
    case WEndOf => MarksRefuse(k);
    case WEndCase => MarksRefuse(k);
    case WUntil => BackFailsNot(BRANCH0, k);
    case WAgain => BackFailsNot(BRANCH, k);
    case WDo => DoRefuses(dcap, k);
    case WQuestionDo => DoRefuses(dcap, k);
    case Number(n) => CellsFailNot(k, [Xt(LIT_CELL), n]);
    case WLeave => CellsFailNot(k, [Xt(BRANCH), Xt(SENTINEL)]);
    case _ =>
  }

  lemma WritingFailsNot(k: Draft)
    ensures forall cell: int :: !Cell(k, cell).Err?
  {
  }

  lemma {:induction false} CellsFailNot(k: Draft, cells: seq<int>)
    ensures !Cells(k, cells).Err?
    ensures 0 <= k.here && k.here + |cells| <= |k.mem| ==> Cells(k, cells).Ok?
    decreases |cells|
  {
    if cells == [] {
    } else {
      var r := Cell(k, cells[0]);
      if r.Ok? {
        CellsFailNot(r.k, cells[1..]);
      }
    }
  }

  lemma BackFailsNot(b: Builtin, k: Draft)
    ensures k.ds != [] ==> !Back(b, k).Err?
  {
    hide Xt, Off;
  }

  lemma WhileRefuses(dcap: nat, k: Draft)
    requires 0 <= k.here && k.here + 2 <= |k.mem|
    ensures var r := WhileWord(dcap, k);
      && (r == Err(-3, false) <==> dcap < |k.ds| + 1)
      && (r == Err(-4, false) <==> k.ds == [] && 1 <= dcap)
      && (r.Err? ==> r in {Err(-3, false), Err(-4, false)})
  {
    hide Xt;
  }

  lemma RepeatRefuses(k: Draft)
    ensures var r := RepeatWord(k);
      (r == Err(-22, true) <==> |k.ds| < 2) && (r.Err? ==> r == Err(-22, true))
  {
    hide Back, Off;
    BackFailsNot(BRANCH, k);
  }

  lemma PlusLoopRefuses(k: Draft)
    ensures var r := PlusLoopWord(k);
      (r == Err(-22, true) <==> |k.ds| < 1) && (r.Err? ==> r == Err(-22, true))
  {
    hide Cells, Sweep, Off, Xt;
    CellsFailNot(k, [Xt(R_FROM), Xt(R_FETCH), Xt(LOOP_INC), Xt(TO_R), Xt(BRANCH)]);
  }

  lemma LoopRefuses(dcap: nat, k: Draft)
    requires 0 <= k.here && k.here + 2 <= |k.mem|
    ensures var r := LoopWord(dcap, k);
      && (r == Err(-22, true) <==> |k.ds| < 1 && 1 <= dcap)
      && (r == Err(-3, false) <==> dcap < |k.ds| + 1)
      && (r.Err? ==> r in {Err(-22, true), Err(-3, false)})
  {
    hide PlusLoopWord, Cells, Xt;
    var cells := [Xt(LIT_CELL), 1];
    CellsFailNot(k, cells);
    var r := Cells(k, cells);
    if r.Ok? {
      PlusLoopRefuses(r.k);
    }
  }

  lemma DoRefuses(dcap: nat, k: Draft)
    ensures var r := DoWord(dcap, k); (r == Err(-3, false) <==> dcap < |k.ds| + 1) && (r.Err? ==> r == Err(-3, false))
    ensures var r := QuestionDoWord(dcap, k);
      (r == Err(-3, false) <==> dcap < |k.ds| + 1) && (r.Err? ==> r == Err(-3, false))
  {
    hide Cells, Xt;
    var a, b := [Xt(SWAP), Xt(TO_R), Xt(TO_R), Xt(LIT_CELL), 0], [Xt(TWO_DUP), Xt(TWO_TO_R), Xt(EQUALS)];
    var head := [Xt(INVERT), Xt(BRANCH0), Xt(SENTINEL)];
    CellsFailNot(k, a);
    CellsFailNot(k, b);
    if Cells(k, a).Ok? {
      var k1 := Cells(k, a).k;
      CellsFailNot(k1.(ds := k1.ds + [k1.here]), head);
    }
    if Cells(k, b).Ok? {
      var k1 := Cells(k, b).k;
      CellsFailNot(k1.(ds := k1.ds + [k1.here]), head);
    }
  }

  lemma OfRefuses(dcap: nat, k: Draft)
    ensures var r, d := OfWord(dcap, k), |k.ds|;
      && (r == Err(-22, true) <==> d < 1 || (d + 2 <= dcap && k.ds[d - 1] != CASE_XT))
      && (r == Err(-3, false) <==> 1 <= d && dcap < d + 2)
      && (r.Err? ==> r in {Err(-22, true), Err(-3, false)})
  {
    hide Cells, Xt;
    CellsFailNot(k, [Xt(OVER), Xt(EQUALS), Xt(BRANCH0)]);
  }

  lemma MarksRefuse(k: Draft)
    ensures var r, d := EndOfWord(k), |k.ds|;
      (r == Err(-22, true) <==> d < 2 || k.ds[d - 1] != OF_XT) && (r.Err? ==> r == Err(-22, true))
    ensures var r, d := EndCaseWord(k), |k.ds|;
      (r == Err(-22, true) <==> d < 2 || k.ds[d - 1] != CASE_XT) && (r.Err? ==> r == Err(-22, true))
  {
    hide Cells, Xt, Sweep, Off;
    if |k.ds| >= 2 {
      CellsFailNot(Pop(Pop(k)), [Xt(BRANCH), Xt(SENTINEL)]);
    }
  }
}
