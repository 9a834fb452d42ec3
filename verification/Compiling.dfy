/** The compile-only words of the control structures, as they write cells at HERE, keep references on
    the data stack and patch what they referred to. */
module Compiling {
  import opened Words
  import opened Machine
  import opened Structured

  const E_CSMISMATCH := -22

  /** Identities of CASE and OF, used as markers on the control-flow stack. */
  const CASE_XT: int := BUILTIN_XT + 2 * 148
  const OF_XT: int := BUILTIN_XT + 2 * 163

  /** Memory, HERE and the data stack of a task that is compiling. */
  datatype Draft = Draft(mem: seq<int>, here: int, ds: seq<int>)

  /** Cancelled says that e4__compile_cancel has run before the throw.  Overrun stands for writing outside
      memory, which the words do not check. */
  datatype Compiled = Ok(k: Draft) | Err(code: int, cancelled: bool) | Overrun {
    predicate IsFailure() {
      !Ok?
    }

    function PropagateFailure(): Compiled
      requires IsFailure()
    {
      this
    }

    function Extract(): Draft
      requires Ok?
    {
      k
    }
  }

  /** The words of a definition between its name and the semicolon. */
  datatype Source =
    | Ordinary(xt: int) | Number(n: int)
    | WIf | WElse | WThen | WBegin | WWhile | WRepeat | WUntil | WAgain
    | WDo | WQuestionDo | WLoop | WPlusLoop | WLeave
    | WCase | WOf | WEndOf | WEndCase

  // ----- writing -----

  function Store(k: Draft, a: int, cell: int): Compiled {
    if 0 <= a < |k.mem| then Ok(k.(mem := k.mem[a := cell])) else Overrun
  }

  /** e4__compile_cell */
  function Cell(k: Draft, cell: int): Compiled {
    var k1 :- Store(k, k.here, cell);
    Ok(k1.(here := k.here + 1))
  }

  /** Several cells in a row. */
  function Cells(k: Draft, cells: seq<int>): (r: Compiled)
    ensures r.Ok? ==> r.k.ds == k.ds && r.k.here == k.here + |cells|
    decreases |cells|
  {
    if cells == [] then Ok(k)
    else
      var k1 :- Cell(k, cells[0]);
      Cells(k1, cells[1..])
  }

  /** Leave a cell for later and push its address. */
  function Mark(k: Draft): Draft {
    k.(ds := k.ds + [k.here], here := k.here + 1)
  }

  /** Make the reference cell branch to HERE. */
  function Resolve(k: Draft, ref: int): Compiled {
    Store(k, ref, Off(k.here - ref))
  }

  /** Turn every placeholder from ref up to HERE into a branch to HERE. */
  function Sweep(mem: seq<int>, ref: int, here: int): seq<int> {
    seq(|mem|, i requires 0 <= i < |mem| =>
      if ref <= i < here && mem[i] == Xt(SENTINEL) then Off(here - i) else mem[i])
  }

  function SweepFrom(k: Draft, ref: int): Compiled {
    if ref < k.here && !(0 <= ref && k.here <= |k.mem|) then Overrun
    else Ok(k.(mem := Sweep(k.mem, ref, k.here)))
  }

  function Top(ds: seq<int>): int
    requires ds != []
  {
    ds[|ds| - 1]
  }

  function Pop(k: Draft): Draft
    requires k.ds != []
  {
    k.(ds := k.ds[..|k.ds| - 1])
  }

  function Room(dcap: nat, k: Draft, n: nat): Compiled {
    if dcap - |k.ds| < n then Err(E_STKOVERFLOW, false) else Ok(k)
  }

  // ----- the words -----

  function IfWord(dcap: nat, k: Draft): Compiled {
    var _ :- Room(dcap, k, 1);
    var k1 :- Cell(k, Xt(BRANCH0));
    Ok(Mark(k1))
  }

  function ElseWord(k: Draft): Compiled {
    if |k.ds| < 1 then Err(E_CSMISMATCH, true)
    else
      var ref := Top(k.ds);
      var k1 :- Cell(Pop(k), Xt(BRANCH));
      Resolve(Mark(k1), ref)
  }

  function ThenWord(k: Draft): Compiled {
    if |k.ds| < 1 then Err(E_CSMISMATCH, true) else Resolve(Pop(k), Top(k.ds))
  }

  function BeginWord(dcap: nat, k: Draft): Compiled {
    var _ :- Room(dcap, k, 1);
    Ok(k.(ds := k.ds + [k.here]))
  }

  /** IF SWAP */
  function WhileWord(dcap: nat, k: Draft): Compiled {
    var k1 :- IfWord(dcap, k);
    if |k1.ds| < 2 then Err(E_STKUNDERFLOW, false)
    else Ok(k1.(ds := Effect(SWAP, k1.ds)))
  }

  /** Compile a branch back to the reference on top of the stack. */
  function Back(b: Builtin, k: Draft): Compiled
    requires k.ds != []
  {
    var k1 :- Cell(Pop(k), Xt(b));
    Cell(k1, Off(Top(k.ds) - k1.here))
  }

  function RepeatWord(k: Draft): Compiled {
    if |k.ds| < 2 then Err(E_CSMISMATCH, true)
    else
      var k1 :- Back(BRANCH, k);
      if k1.ds == [] then Overrun else Resolve(Pop(k1), Top(k1.ds))
  }

  function UntilWord(k: Draft): Compiled {
    if |k.ds| < 1 then Err(E_CSMISMATCH, true) else Back(BRANCH0, k)
  }

  function AgainWord(k: Draft): Compiled {
    if |k.ds| < 1 then Err(E_CSMISMATCH, true) else Back(BRANCH, k)
  }

  function LoopHead(k: Draft): Compiled {
    Cells(k.(ds := k.ds + [k.here]), [Xt(INVERT), Xt(BRANCH0), Xt(SENTINEL)])
  }

  function DoWord(dcap: nat, k: Draft): Compiled {
    var _ :- Room(dcap, k, 1);
    var k1 :- Cells(k, [Xt(SWAP), Xt(TO_R), Xt(TO_R), Xt(LIT_CELL), 0]);
    LoopHead(k1)
  }

  function QuestionDoWord(dcap: nat, k: Draft): Compiled {
    var _ :- Room(dcap, k, 1);
    var k1 :- Cells(k, [Xt(TWO_DUP), Xt(TWO_TO_R), Xt(EQUALS)]);
    LoopHead(k1)
  }

  function PlusLoopWord(k: Draft): Compiled {
    if |k.ds| < 1 then Err(E_CSMISMATCH, true)
    else
      var k1 :- Cells(k, [Xt(R_FROM), Xt(R_FETCH), Xt(LOOP_INC), Xt(TO_R), Xt(BRANCH)]);
      var ref := Top(k1.ds);
      var k2 :- Cell(Pop(k1), Off(ref - k1.here));
      var k3 :- SweepFrom(k2, ref);
      Cell(k3, Xt(UNLOOP))
  }

  /** 1 LITERAL +LOOP */
  function LoopWord(dcap: nat, k: Draft): Compiled {
    var _ :- Room(dcap, k, 1);
    var k1 :- Cells(k, [Xt(LIT_CELL), 1]);
    PlusLoopWord(k1)
  }

  function LeaveWord(k: Draft): Compiled {
    Cells(k, [Xt(BRANCH), Xt(SENTINEL)])
  }

  function CaseWord(dcap: nat, k: Draft): Compiled {
    var _ :- Room(dcap, k, 2);
    Ok(k.(ds := k.ds + [k.here, CASE_XT]))
  }

  function OfWord(dcap: nat, k: Draft): Compiled {
    if |k.ds| < 1 then Err(E_CSMISMATCH, true)
    else if dcap - |k.ds| < 2 then Err(E_STKOVERFLOW, false)
    else if Top(k.ds) != CASE_XT then Err(E_CSMISMATCH, true)
    else
      var k1 :- Cells(k, [Xt(OVER), Xt(EQUALS), Xt(BRANCH0)]);
      var k2 :- Cell(Mark(k1), Xt(DROP));
      Ok(k2.(ds := k2.ds + [OF_XT]))
  }

  function EndOfWord(k: Draft): Compiled {
    if |k.ds| < 2 || Top(k.ds) != OF_XT then Err(E_CSMISMATCH, true)
    else
      var ref := Top(Pop(k).ds);
      var k1 :- Cells(Pop(Pop(k)), [Xt(BRANCH), Xt(SENTINEL)]);
      Resolve(k1, ref)
  }

  function EndCaseWord(k: Draft): Compiled {
    if |k.ds| < 2 || Top(k.ds) != CASE_XT then Err(E_CSMISMATCH, true)
    else
      var ref := Top(Pop(k).ds);
      var k1 :- Cell(Pop(Pop(k)), Xt(DROP));
      SweepFrom(k1, ref)
  }

  /** What the compiler does with one word of the source. */
  function Compile1(dcap: nat, k: Draft, s: Source): Compiled {
    match s
    case Ordinary(xt) => Cell(k, xt)
    case Number(n) => Cells(k, [Xt(LIT_CELL), n])
    case WIf => IfWord(dcap, k)
    case WElse => ElseWord(k)
    case WThen => ThenWord(k)
    case WBegin => BeginWord(dcap, k)
    case WWhile => WhileWord(dcap, k)
    case WRepeat => RepeatWord(k)
    case WUntil => UntilWord(k)
    case WAgain => AgainWord(k)
    case WDo => DoWord(dcap, k)
    case WQuestionDo => QuestionDoWord(dcap, k)
    case WLoop => LoopWord(dcap, k)
    case WPlusLoop => PlusLoopWord(k)
    case WLeave => LeaveWord(k)
    case WCase => CaseWord(dcap, k)
    case WOf => OfWord(dcap, k)
    case WEndOf => EndOfWord(k)
    case WEndCase => EndCaseWord(k)
  }

  function Compile(dcap: nat, k: Draft, text: seq<Source>): Compiled
    decreases |text|
  {
    if text == [] then Ok(k)
    else
      var k1 :- Compile1(dcap, k, text[0]);
      Compile(dcap, k1, text[1..])
  }

  /** The semicolon: the data stack must be as deep as it was at the start of the definition. */
  function Finish(k: Draft, depth: nat): Compiled {
    if |k.ds| != depth then Err(E_CSMISMATCH, true) else Cells(k, [Xt(EXIT), Xt(SENTINEL)])
  }

  /** A whole body, closed by the semicolon. */
  function CompileBody(dcap: nat, k: Draft, text: seq<Source>): Compiled {
    var k1 :- Compile(dcap, k, text);
    Finish(k1, |k.ds|)
  }

  // ----- source text of a structured program -----

  function Text(p: Stmt): seq<Source> {
    match p
    case Skip => []
    case Word(xt) => [Ordinary(xt)]
    case Lit(n) => [Number(n)]
    case Seq(q, r) => Text(q) + Text(r)
    case If(q) => [WIf] + Text(q) + [WThen]
    case IfElse(q, r) => [WIf] + Text(q) + [WElse] + Text(r) + [WThen]
    case Until(q) => [WBegin] + Text(q) + [WUntil]
    case While(q, r) => [WBegin] + Text(q) + [WWhile] + Text(r) + [WRepeat]
    case Again(q) => [WBegin] + Text(q) + [WAgain]
    case Do(query, plain, q) =>
      [if query then WQuestionDo else WDo] + Text(q) + [if plain then WLoop else WPlusLoop]
    case Leave => [WLeave]
    case Exit => [Ordinary(Xt(EXIT))]
    case Case(arms) => [WCase] + ArmsText(arms) + [WEndCase]
  }

  function ArmsText(arms: Arms): seq<Source> {
    match arms
    case Default(q) => Text(q)
    case Of(q, r, rest) => Text(q) + [WOf] + Text(r) + [WEndOf] + ArmsText(rest)
  }

  /** Cells of data stack that compiling the program takes for its references. */
  function Depth(p: Stmt): nat {
    match p
    case Seq(q, r) => Max(Depth(q), Depth(r))
    case If(q) => 1 + Depth(q)
    case IfElse(q, r) => 1 + Max(Depth(q), Depth(r))
    case Until(q) => 1 + Depth(q)
    case While(q, r) => Max(1 + Depth(q), 2 + Depth(r))
    case Again(q) => 1 + Depth(q)
    case Do(_, plain, q) => 1 + Max(Depth(q), if plain then 1 else 0)
    case Case(arms) => 2 + ArmsDepth(arms)
    case _ => 0
  }

  function ArmsDepth(arms: Arms): nat {
    match arms
    case Default(q) => Depth(q)
    case Of(q, r, rest) => Max(Max(Depth(q), 2 + Depth(r)), ArmsDepth(rest))
  }

  function Max(a: nat, b: nat): nat {
    if a < b then b else a
  }

  /** Every LEAVE is inside a loop or a CASE. */
  predicate WellNested(p: Stmt) {
    match p
    case Seq(q, r) => WellNested(q) && WellNested(r)
    case If(q) => WellNested(q)
    case IfElse(q, r) => WellNested(q) && WellNested(r)
    case Until(q) => WellNested(q)
    case While(q, r) => WellNested(q) && WellNested(r)
    case Again(q) => WellNested(q)
    case Leave => false
    case _ => true
  }

  /** A cell that the programmer supplies is the address of SENTINEL, and it is inside a DO loop or a
      CASE (inside says that the statement itself is). */
  predicate Clashes(p: Stmt, inside: bool) {
    match p
    case Word(xt) => inside && xt == Xt(SENTINEL)
    case Lit(n) => inside && n == Xt(SENTINEL)
    case Seq(q, r) => Clashes(q, inside) || Clashes(r, inside)
    case If(q) => Clashes(q, inside)
    case IfElse(q, r) => Clashes(q, inside) || Clashes(r, inside)
    case Until(q) => Clashes(q, inside)
    case While(q, r) => Clashes(q, inside) || Clashes(r, inside)
    case Again(q) => Clashes(q, inside)
    case Do(_, _, q) => Clashes(q, true)
    case Case(arms) => ArmsClash(arms)
    case _ => false
  }

  predicate ArmsClash(arms: Arms) {
    match arms
    case Default(q) => Clashes(q, true)
    case Of(q, r, rest) => Clashes(q, true) || Clashes(r, true) || ArmsClash(rest)
  }

  /** The address of SENTINEL is no displacement of at most n cells either way. */
  predicate Clear(n: int) {
    n < Xt(SENTINEL) && Xt(SENTINEL) + n < MODULUS
  }
}
