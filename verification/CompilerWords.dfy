/** The compile-only words as they work on a task, writing at HERE and patching memory in place.  Each is
    proved to do what the function of the same name in the Compiling module says. */
module CompilerWords {
  import opened Machine
  import opened Structured
  import opened Compiling

  datatype Ending = Fine | Failed(code: int, cancelled: bool) | Outside

  class Compiler {
    const mem: array<int>
    const dcap: nat
    /** Where cancelling the definition puts HERE: its header, its token or the start of its DOES> part. */
    const origin: int
    var here: int
    var ds: seq<int>

    constructor (mem: array<int>, dcap: nat, origin: int, here: int, ds: seq<int>)
      ensures this.mem == mem && this.dcap == dcap && this.origin == origin && this.here == here && this.ds == ds
    {
      this.mem, this.dcap, this.origin, this.here, this.ds := mem, dcap, origin, here, ds;
    }

    ghost function Now(): Draft
      reads this, mem
    {
      Draft(mem[..], here, ds)
    }

    ghost predicate Agrees(r: Compiled, e: Ending)
      reads this, mem
    {
      match r
      case Ok(k) => e == Fine && Now() == k
      case Err(code, cancelled) => e == Failed(code, cancelled) && (cancelled ==> here == origin)
      case Overrun => e == Outside
    }

    /** e4__compile_cancel, as far as HERE goes, and the throw after it. */
    method Mismatch() returns (e: Ending)
      modifies this`here
      ensures e == Failed(E_CSMISMATCH, true) && here == origin
    {
      here := origin;
      e := Failed(E_CSMISMATCH, true);
    }

    // ----- writing -----

    /** e4__DEREF(a) = cell */
    method Store(a: int, cell: int) returns (e: Ending)
      modifies mem
      ensures Agrees(Compiling.Store(old(Now()), a, cell), e)
    {
      if !(0 <= a < mem.Length) {
        return Outside;
      }
      mem[a] := cell;
      e := Fine;
    }

    /** e4__compile_cell */
    method Cell(cell: int) returns (e: Ending)
      modifies this`here, mem
      ensures Agrees(Compiling.Cell(old(Now()), cell), e)
    {
      e := Store(here, cell);
      if e == Fine {
        here := here + 1;
      }
    }

    /** One e4__compile_cell after the other. */
    method Cells(cells: seq<int>) returns (e: Ending)
      modifies this`here, mem
      ensures Agrees(Compiling.Cells(old(Now()), cells), e)
    {
      ghost var start := Now();
      var i := 0;
      e := Fine;
      assert cells[i..] == cells;
      while i < |cells|
        invariant 0 <= i <= |cells| && e == Fine
        invariant ds == old(ds)
        invariant Compiling.Cells(start, cells) == Compiling.Cells(Now(), cells[i..])
      {
        e := Cell(cells[i]);
        if e != Fine {
          return;
        }
        assert cells[i..][1..] == cells[i + 1..];
        i := i + 1;
      }
    }

    method Push(v: int)
      modifies this`ds
      ensures Now() == old(Now()).(ds := old(ds) + [v])
    {
      ds := ds + [v];
    }

    method Pop() returns (v: int)
      requires ds != []
      modifies this`ds
      ensures v == Top(old(ds)) && Now() == Compiling.Pop(old(Now()))
    {
      v := ds[|ds| - 1];
      ds := ds[..|ds| - 1];
    }

    /** e4__stack_push(task, task->here++) */
    method Mark()
      modifies this`ds, this`here
      ensures Now() == Compiling.Mark(old(Now()))
    {
      Push(here);
      here := here + 1;
    }

    method Resolve(ref: int) returns (e: Ending)
      modifies mem
      ensures Agrees(Compiling.Resolve(old(Now()), ref), e)
    {
      e := Store(ref, Off(here - ref));
    }

    /** The loop with which +LOOP and ENDCASE turn placeholders into branches to HERE. */
    method Patch(ref: int) returns (e: Ending)
      modifies mem
      ensures Agrees(SweepFrom(old(Now()), ref), e)
    {
      if ref < here && !(0 <= ref && here <= mem.Length) {
        return Outside;
      }
      hide Off, Xt;
      var r := ref;
      while r < here
        invariant ref <= r && (r <= here || r == ref)
        invariant forall i :: 0 <= i < mem.Length && !(ref <= i < r) ==> mem[i] == old(mem[i])
        invariant forall i :: ref <= i < r ==>
          mem[i] == if old(mem[i]) == Xt(SENTINEL) then Off(here - i) else old(mem[i])
        decreases here - r
      {
        if mem[r] == Xt(SENTINEL) {
          mem[r] := Off(here - r);
        }
        r := r + 1;
      }
      e := Fine;
      assert mem[..] == Sweep(old(mem[..]), ref, here);
    }

    // ----- the words -----

    method If() returns (e: Ending)
      modifies this`ds, this`here, mem
      ensures Agrees(IfWord(dcap, old(Now())), e)
    {
      if dcap - |ds| < 1 {
        return Failed(E_STKOVERFLOW, false);
      }
      e := Cell(Xt(BRANCH0));
      if e == Fine {
        Mark();
      }
    }

    method Else() returns (e: Ending)
      modifies this`ds, this`here, mem
      ensures Agrees(ElseWord(old(Now())), e)
    {
      if |ds| < 1 {
        e := Mismatch();
        return;
      }
      var ref := Pop();
      e := Cell(Xt(BRANCH));
      if e == Fine {
        Mark();
        e := Resolve(ref);
      }
    }

    method Then() returns (e: Ending)
      modifies this`ds, this`here, mem
      ensures Agrees(ThenWord(old(Now())), e)
    {
      if |ds| < 1 {
        e := Mismatch();
        return;
      }
      var ref := Pop();
      e := Resolve(ref);
    }

    method Begin() returns (e: Ending)
      modifies this`ds
      ensures Agrees(BeginWord(dcap, old(Now())), e)
    {
      if dcap - |ds| < 1 {
        return Failed(E_STKOVERFLOW, false);
      }
      Push(here);
      e := Fine;
    }

    /** The thread IF SWAP. */
    method While() returns (e: Ending)
      modifies this`ds, this`here, mem
      ensures Agrees(WhileWord(dcap, old(Now())), e)
    {
      e := If();
      if e != Fine {
        return;
      }
      if |ds| < 2 {
        return Failed(E_STKUNDERFLOW, false);
      }
      var top, below := ds[|ds| - 1], ds[|ds| - 2];
      ds := ds[..|ds| - 2] + [top, below];
    }

    /** Compile a branch and the way back to the reference on the stack. */
    method Back(b: Builtin) returns (e: Ending)
      requires ds != []
      modifies this`ds, this`here, mem
      ensures Agrees(Compiling.Back(b, old(Now())), e)
      ensures e == Fine ==> ds == old(ds)[..|old(ds)| - 1]
    {
      e := Cell(Xt(b));
      if e == Fine {
        var ref := Pop();
        e := Cell(Off(ref - here));
      }
    }

    method Repeat() returns (e: Ending)
      modifies this`ds, this`here, mem
      ensures Agrees(RepeatWord(old(Now())), e)
    {
      if |ds| < 2 {
        e := Mismatch();
        return;
      }
      e := Back(BRANCH);
      if e == Fine {
        var ref := Pop();
        e := Resolve(ref);
      }
    }

    method Until() returns (e: Ending)
      modifies this`ds, this`here, mem
      ensures Agrees(UntilWord(old(Now())), e)
    {
      if |ds| < 1 {
        e := Mismatch();
        return;
      }
      e := Back(BRANCH0);
    }

    method Again() returns (e: Ending)
      modifies this`ds, this`here, mem
      ensures Agrees(AgainWord(old(Now())), e)
    {
      if |ds| < 1 {
        e := Mismatch();
        return;
      }
      e := Back(BRANCH);
    }

    method Do() returns (e: Ending)
      modifies this`ds, this`here, mem
      ensures Agrees(DoWord(dcap, old(Now())), e)
    {
      if dcap - |ds| < 1 {
        return Failed(E_STKOVERFLOW, false);
      }
      e := Cells([Xt(SWAP), Xt(TO_R), Xt(TO_R), Xt(LIT_CELL), 0]);
      if e == Fine {
        Push(here);
        e := Cells([Xt(INVERT), Xt(BRANCH0), Xt(SENTINEL)]);
      }
    }

    method QuestionDo() returns (e: Ending)
      modifies this`ds, this`here, mem
      ensures Agrees(QuestionDoWord(dcap, old(Now())), e)
    {
      if dcap - |ds| < 1 {
        return Failed(E_STKOVERFLOW, false);
      }
      e := Cells([Xt(TWO_DUP), Xt(TWO_TO_R), Xt(EQUALS)]);
      if e == Fine {
        Push(here);
        e := Cells([Xt(INVERT), Xt(BRANCH0), Xt(SENTINEL)]);
      }
    }

    method PlusLoop() returns (e: Ending)
      modifies this`ds, this`here, mem
      ensures Agrees(PlusLoopWord(old(Now())), e)
    {
      if |ds| < 1 {
        e := Mismatch();
        return;
      }
      e := Cells([Xt(R_FROM), Xt(R_FETCH), Xt(LOOP_INC), Xt(TO_R), Xt(BRANCH)]);
      if e != Fine {
        return;
      }
      var ref := Pop();
      e := Cell(Off(ref - here));
      if e != Fine {
        return;
      }
      e := Patch(ref);
      if e == Fine {
        e := Cell(Xt(UNLOOP));
      }
    }

    /** The thread 1 LITERAL +LOOP. */
    method Loop() returns (e: Ending)
      modifies this`ds, this`here, mem
      ensures Agrees(LoopWord(dcap, old(Now())), e)
    {
      if dcap - |ds| < 1 {
        return Failed(E_STKOVERFLOW, false);
      }
      e := Cells([Xt(LIT_CELL), 1]);
      if e == Fine {
        e := PlusLoop();
      }
    }

    method Leave() returns (e: Ending)
      modifies this`here, mem
      ensures Agrees(LeaveWord(old(Now())), e)
    {
      e := Cells([Xt(BRANCH), Xt(SENTINEL)]);
    }

    method Case() returns (e: Ending)
      modifies this`ds
      ensures Agrees(CaseWord(dcap, old(Now())), e)
    {
      if dcap - |ds| < 2 {
        return Failed(E_STKOVERFLOW, false);
      }
      ghost var was := ds;
      Push(here);
      Push(CASE_XT);
      assert ds == was + [here, CASE_XT];
      e := Fine;
    }

    method Of() returns (e: Ending)
      modifies this`ds, this`here, mem
      ensures Agrees(OfWord(dcap, old(Now())), e)
    {
      if |ds| < 1 {
        e := Mismatch();
        return;
      }
      if dcap - |ds| < 2 {
        return Failed(E_STKOVERFLOW, false);
      }
      if ds[|ds| - 1] != CASE_XT {
        e := Mismatch();
        return;
      }
      e := Cells([Xt(OVER), Xt(EQUALS), Xt(BRANCH0)]);
      if e != Fine {
        return;
      }
      Mark();
      e := Cell(Xt(DROP));
      if e == Fine {
        Push(OF_XT);
      }
    }

    method EndOf() returns (e: Ending)
      modifies this`ds, this`here, mem
      ensures Agrees(EndOfWord(old(Now())), e)
    {
      if |ds| < 2 {
        e := Mismatch();
        return;
      }
      var mark := Pop();
      if mark != OF_XT {
        e := Mismatch();
        return;
      }
      var ref := Pop();
      e := Cells([Xt(BRANCH), Xt(SENTINEL)]);
      if e == Fine {
        e := Resolve(ref);
      }
    }

    method EndCase() returns (e: Ending)
      modifies this`ds, this`here, mem
      ensures Agrees(EndCaseWord(old(Now())), e)
    {
      if |ds| < 2 {
        e := Mismatch();
        return;
      }
      var mark := Pop();
      if mark != CASE_XT {
        e := Mismatch();
        return;
      }
      var ref := Pop();
      e := Cell(Xt(DROP));
      if e == Fine {
        e := Patch(ref);
      }
    }

    /** One word of the source, and the whole text of a definition. */
    method CompileOne(s: Source) returns (e: Ending)
      modifies this`ds, this`here, mem
      ensures Agrees(Compile1(dcap, old(Now()), s), e)
    {
      hide IfWord, ElseWord, ThenWord, BeginWord, WhileWord, RepeatWord, UntilWord, AgainWord, DoWord, QuestionDoWord,
        LoopWord, PlusLoopWord, LeaveWord, CaseWord, OfWord, EndOfWord, EndCaseWord, Compiling.Cell, Compiling.Cells;
      match s
      case Ordinary(xt) => e := Cell(xt);
      case Number(n) => e := Cells([Xt(LIT_CELL), n]);
      case WIf => e := If();
      case WElse => e := Else();
      case WThen => e := Then();
      case WBegin => e := Begin();
      case WWhile => e := While();
      case WRepeat => e := Repeat();
      case WUntil => e := Until();
      case WAgain => e := Again();
      case WDo => e := Do();
      case WQuestionDo => e := QuestionDo();
      case WLoop => e := Loop();
      case WPlusLoop => e := PlusLoop();
      case WLeave => e := Leave();
      case WCase => e := Case();
      case WOf => e := Of();
      case WEndOf => e := EndOf();
      case WEndCase => e := EndCase();
    }

    method CompileText(text: seq<Source>) returns (e: Ending)
      modifies this`ds, this`here, mem
      ensures Agrees(Compile(dcap, old(Now()), text), e)
    {
      hide Compile1;
      ghost var start := Now();
      var i := 0;
      e := Fine;
      assert text[i..] == text;
      while i < |text|
        invariant 0 <= i <= |text| && e == Fine
        invariant Compile(dcap, start, text) == Compile(dcap, Now(), text[i..])
      {
        e := CompileOne(text[i]);
        if e != Fine {
          return;
        }
        assert text[i..][1..] == text[i + 1..];
        i := i + 1;
      }
    }

    /** The semicolon; depth is that of the stack at the start of the definition. */
    method Semicolon(depth: nat) returns (e: Ending)
      modifies this`here, mem
      ensures Agrees(Finish(old(Now()), depth), e)
    {
      if |ds| != depth {
        e := Mismatch();
        return;
      }
      e := Cells([Xt(EXIT), Xt(SENTINEL)]);
    }

    /** A body and its semicolon. */
    method CompileAll(text: seq<Source>) returns (e: Ending)
      modifies this`ds, this`here, mem
      ensures Agrees(CompileBody(dcap, old(Now()), text), e)
    {
      hide Compile, Finish;
      var depth := |ds|;
      e := CompileText(text);
      if e == Fine {
        e := Semicolon(depth);
      }
    }
  }
}
