# e4 in Dafny

A model of the e4 kernel, a Forth 2012 system in C, with proofs about the parts of it where the code decides
what is true: the threaded-code machine and the compiler of its control structures, counted loops, double-cell
arithmetic, numbers in and out, the ring of transient strings, exceptions, the rollback of definitions and
conditional compilation.  `dafny verify dfyconfig.toml` checks everything.

## How it is laid out

The width W of a cell is left open: `Words.LOG_BITS` is a constant without a value, so every statement holds
for every W = 2^k with k >= 3.  Cells that are computed with are integers reduced modulo 2^W, written out.

| files | what they hold |
|---|---|
| Words, Characters, Codes | cells, their two readings, negation; letters without case; exception codes |
| Machine, Startup | execute tokens, builtins, the inner interpreter as functions; a world in which the builtins are in place |
| Threads, Frames | flattened against recursive execution; the frame discipline of the return stack |
| WordLaws | what each builtin word does, in stack diagrams and numbers |
| Tasks | the same interpreter and stack.c as methods that update arrays and pointers in place, proved to be the machine |
| Structured, Correctness | structured programs, their code and their meaning; running the code is the meaning |
| Compiling, CompilerWords | the compile-only words as functions, and as methods that write and patch memory in place |
| References | which texts the compiler refuses |
| ControlLaws | what definitions of control structures compute, in stacks and numbers |
| Emission, Definitions, Conformance | what the words have written; whole definitions; where LEAVE and data come out as meant |
| LoopStep, CountedLoops | the thread of LOOP_INC; how often a counted loop runs |
| Doubles, Division | half-word multiplication, long division |
| Numerals, NumberLaws, Pictured | printers and parser; the texts it reads, in characters; the area between HERE and PAD |
| Unescaping, EscapeLaws, CircularBuffer | escape sequences, in character codes; the ring of strings |
| Exceptions, Catching | CATCH and THROW over runs of events; CATCH as a word of the machine |
| Dictionary | headers, lookup, FORGET, cancelling a definition |
| Conditional | [IF] [ELSE] [THEN] |
| Interpreting, Evaluating, Spelling | what a word does wherever it is called from; the text interpreter in both of its states; source text spelled out |

Programs may run forever, so a run of the machine is given gas: one unit for each call of `e4__execute`, each
inlined call of a colon word and each EXIT.  `Spent` carries the state in which the gas ran out; what is shown
of it for every amount of gas is shown of every state that a run passes through, and two runs that agree for
every amount of gas agree on divergence too.

Where the source changes things step by step the model does as well: `Tasks.Task`, `CompilerWords.Compiler`,
`Pictured.Pno`, `CircularBuffer.Cbuf`, `Exceptions.Task` and `Dictionary.Task` are classes whose methods have
the loops and assignments of the C functions, and each is tied by its contract to functions about which the
lemmas speak.  The stacks of C grow downward; here they grow upward from index 0, and pointers are heights.

## Where the code and its comments part

The model follows the code.  Each of these is stated with the condition under which the expected law holds.

- LEAVE inside CASE ... ENDCASE is patched by ENDCASE, so it leaves the CASE and not the loop
  (`Conformance.LeaveConforms`, `Conformance.LeaveInCase`).
- A number or word equal to the address of SENTINEL inside a counted loop or a CASE is overwritten as if it
  were a placeholder; everywhere else it is compiled as itself (`Conformance.DataSurvives`).
- LOOP_INC looks for a change of sign; that is the crossing of the standard only while distance plus
  increment does not overflow (`CountedLoops.StopsIsCrossing`, `CountedLoops.StopsFarFromLimit`).  So a loop that leads away from its limit
  stops half round the number circle (`CountedLoops.RoundsUp`, `CountedLoops.RoundsDown`).
- Signed narrowing division gives up the quotient -2^(W-1) (`Division.SucceedsIff`,
  `Division.LowestQuotientRejected`); signed full division wraps on MIN / -1 (`Division.Div`).
- core/src/util/mem.c:20-24 promises size/n surviving entries.  For every mixture of sizes that holds if and
  only if size/n <= 1 or size % n == n - 1 (`CircularBuffer.PromiseHolds`); otherwise it is one entry less
  (`CircularBuffer.LatestSurvive`, `CircularBuffer.MixedSizesLose`).
- core/src/kernel/io.c:89 computes the room left without sign, so that none left reads as 2^W - 1
  (`Pictured.Available`).
- Suspending a definition twice in a row loses track of it, and cancelling then restores nothing; a definition
  begun while another is suspended forgets that one once it is suspended itself.  And a header made inside a
  definition, as by a colon, which makes its header before nesting is refused, is what cancelling forgets
  instead.  Otherwise cancelling restores everything (`Dictionary.CancelRestores`,
  `Dictionary.SuspendedTwiceIsLost`, `Dictionary.NestedColonSpoilsCancel`).

## Model

| member | source | states |
|---|---|---|
| Words.NegateMagnitude | core/include/e4.h:822-823 | negating a cell gives the magnitude of a negative one, of the most negative one too, and is the exact negation modulo 2^W |
| Tasks.Task.Push | core/src/kernel/stack.c:78-81 | the data stack grows by the cell, nothing else changes |
| Tasks.Task.Pop | core/src/kernel/stack.c:73-76 | takes the top cell off and returns it |
| Tasks.Task.Rot | core/src/kernel/stack.c:83-89 | rotates the three top cells in place |
| Tasks.Task.Swap | core/src/kernel/stack.c:130-135 | exchanges the two top cells in place |
| Tasks.Task.Tuck | core/src/kernel/stack.c:138-142 | SWAP and OVER put a copy of the top below the second cell |
| Tasks.Task.Roll | core/src/kernel/stack.c:117-128 | the cell u below the top comes up, all cells above it move down by one, the rest stay |
| Tasks.RollCells | core/src/kernel/stack.c:122-127 | the shifting loop of ROLL, on the array |
| Tasks.Task.RPush | core/src/kernel/stack.c:111-114 | the return stack grows by the cell |
| Tasks.Task.RPop | core/src/kernel/stack.c:106-109 | takes the top of the return stack off |
| Tasks.Task.ExecuteRet | core/src/kernel/execute.c:74-105 | pops the return address into ip, or throws when the frame is empty |
| Tasks.Task.BinaryWork | core/src/builtin/CORE.def.inc:988-999 | an operator replaces its two operands by its result, left operand below |
| Tasks.Task.DataCode | core/src/builtin/CORE.def.inc:406-419 | a data-stack word checks depth and room, has exactly its effect and returns |
| Tasks.Task.ToRCode | core/src/builtin/CORE.def.inc:1472-1484 | takes its own return address first, then moves the cell over; all four checks in order |
| Tasks.Task.RFromCode | core/src/builtin/CORE.def.inc:1069-1081 | R> behind its own return address |
| Tasks.Task.RFetchCode | core/src/builtin/CORE.def.inc:1055-1067 | R@ behind its own return address |
| Tasks.Task.JCode | core/src/builtin/CORE.def.inc:676-688 | J reads the third cell below its return address |
| Tasks.Task.UnloopCode | core/src/builtin/CORE.def.inc:1662-1675 | UNLOOP discards limit and index |
| Tasks.Task.TwoToRCode | core/src/builtin/CORE-EXT.def.inc:444-458 | 2>R keeps the order of the pair |
| Tasks.Task.TwoRFromCode | core/src/builtin/CORE-EXT.def.inc:428-442 | 2R> keeps the order of the pair |
| Tasks.Task.TwoRFetchCode | core/src/builtin/CORE-EXT.def.inc:405-426 | 2R@ copies the pair and leaves it in place |
| Tasks.Task.BranchCode | core/src/builtin/SYSTEM.def.inc:43-55 | jumps by the displacement in the cell after it, modulo 2^W |
| Tasks.Task.Branch0Code | core/src/builtin/SYSTEM.def.inc:57-70 | pops a flag and jumps on zero, else goes on behind the displacement |
| Tasks.Task.LitCellCode | core/src/builtin/SYSTEM.def.inc:78-93 | pushes the cell after it and skips it |
| Tasks.Task.LitStrCode | core/src/builtin/SYSTEM.def.inc:152-178 | pushes address and length of the string after it and skips its cells |
| Tasks.Task.NativeCode | core/src/builtin/EXCEPTION.def.inc:20-30 | every builtin in C, THROW among them, does what the machine says of it |
| WordLaws.StackWords | core/src/builtin/CORE.def.inc:406-419 | the stack diagrams of DROP SWAP ROT DUP OVER TUCK and DEPTH, whatever is below |
| WordLaws.StackErrors | core/src/builtin/builtin.c:22-29 | which word needs how many cells: fewer throw -4, no room for the result throws -3, and the stack stays |
| WordLaws.Arithmetic | core/src/builtin/CORE.def.inc:725-738 | + - * NEGATE INVERT modulo 2^W, = and the signed and the unsigned order |
| WordLaws.BitWords | core/src/builtin/CORE.def.inc:760-770 | AND OR XOR bit by bit; shifts multiply and divide by powers of two |
| WordLaws.ReturnStackWords | core/src/builtin/CORE.def.inc:1472-1484 | >R R> R@ 2>R 2R> 2R@: what they move or copy, pairs in order |
| WordLaws.LoopWords | core/src/builtin/CORE.def.inc:676-688 | J is the index of the outer of two loops; UNLOOP forgets the inner one |
| WordLaws.ReturnStackErrors | core/src/builtin/builtin.c:32-50 | a frame without the cells throws -6, a full stack -3 or -5 |
| WordLaws.InlineWords | core/src/builtin/SYSTEM.def.inc:43-70 | where BRANCH and BRANCH0 go, and what a literal pushes |
| WordLaws.StringWord | core/src/builtin/SYSTEM.def.inc:152-178 | a string of n bytes is skipped with the fewest cells that hold it |
| WordLaws.Tokens | core/src/kernel/execute.c:40-105 | constants push their value, variables their data address |
| WordLaws.Indirect | core/src/kernel/execute.c:41-47 | EXECUTE and deferred words run the token that they are given |
| WordLaws.Threads | core/src/kernel/execute.c:49-59 | DOES> words push their data address before their thread runs |
| WordLaws.ThrowWord | core/src/builtin/EXCEPTION.def.inc:20-30 | THROW throws the signed cell, and nothing on zero |
| WordLaws.FrameErrorsThrow | core/src/kernel/execute.c:107-175 | no room for a return address or frame throws -5; a thread that leaves a cell on its frame throws -25 |
| Tasks.RolledAt | core/src/kernel/stack.c:117-128 | where each cell is after u ROLL |
| Tasks.SmallRolls | core/src/kernel/stack.c:117-128 | 0 ROLL does nothing, 1 ROLL is SWAP, 2 ROLL is ROT |
| Tasks.Task.Execute | core/src/kernel/execute.c:19-38 | one call of a token: outcome, stacks, ip, tr0 and remaining gas are those of Machine.Execute, whatever the token |
| Tasks.Task.RunToken | core/src/kernel/execute.c:40-59 | defer and does thunks, values, variables and colon words |
| Tasks.Task.EnterColon | core/src/kernel/execute.c:128-150 | an inlined call saves return address and tr0 and opens the frame |
| Tasks.Task.EndOfThread | core/src/kernel/execute.c:168-174 | a thread ends by restoring tr0 from its own empty frame, or throws an imbalance |
| Tasks.Task.ExecuteThreaded | core/src/kernel/execute.c:107-175 | the while (depth) loop agrees with the depth-indexed loop of the machine for every program and every amount of gas |
| Threads.LoopUnwinds | core/src/kernel/execute.c:125-166 | at any depth the flattened loop is the innermost thread, run by recursive calls, followed by the threads still open |
| Threads.ExecuteFlattens | core/src/kernel/execute.c:107-175 | flattening changes nothing: same stacks, ip, tr0, error, overflow points and gas, and same state after any number of calls |
| Frames.NativeKeeps | core/src/builtin/CORE.def.inc:1055-1081 | a builtin reads nothing below the bottom of the return stack and changes no cell below the base of the frame |
| Frames.EnterKeeps | core/src/kernel/execute.c:107-175 | a thread that ends gives back the caller its return stack cell for cell, its ip and its tr0 |
| Frames.ExecuteKeeps | core/src/kernel/execute.c:19-38 | in every state of every run the saved bases form a descending chain and nothing below the frame of the caller has changed |
| Frames.FlattenedRunKeepsFrames | core/src/kernel/execute.c:117-175 | the same discipline for the flattened interpreter |
| CompilerWords.Compiler.Cell | core/src/kernel/compile.c:43-46 | appends one cell at HERE |
| CompilerWords.Compiler.If | core/src/builtin/CORE.def.inc:647-655 | BRANCH0 and a hole whose address goes on the stack |
| CompilerWords.Compiler.Else | core/src/builtin/CORE.def.inc:421-436 | closes the hole of IF behind a new branch and hole; without a reference HERE goes back to where the definition began and the mismatch is thrown |
| CompilerWords.Compiler.Then | core/src/builtin/CORE.def.inc:1394-1404 | closes the hole with the distance to HERE; without a reference it cancels likewise |
| CompilerWords.Compiler.While | core/src/builtin/CORE.def.inc:1700-1704 | IF SWAP |
| CompilerWords.Compiler.Repeat | core/src/builtin/CORE.def.inc:1123-1136 | a branch back, and the hole of WHILE closed; with fewer than two references it cancels |
| CompilerWords.Compiler.Until | core/src/builtin/CORE.def.inc:1677-1685 | a conditional branch back; without a reference it cancels |
| CompilerWords.Compiler.Again | core/src/builtin/CORE-EXT.def.inc:8-16 | a branch back; without a reference it cancels |
| CompilerWords.Compiler.Do | core/src/builtin/CORE.def.inc:320-336 | moves limit and index over, leaves the loop head with its placeholder |
| CompilerWords.Compiler.QuestionDo | core/src/builtin/CORE-EXT.def.inc:290-305 | the same with the test for an empty range |
| CompilerWords.Compiler.Patch | core/src/builtin/CORE.def.inc:1018-1022 | the scan turns every placeholder from ref up to HERE into a branch to HERE, in place, and nothing else |
| CompilerWords.Compiler.PlusLoop | core/src/builtin/CORE.def.inc:1001-1027 | step words, branch back, scan, UNLOOP; without a reference it cancels |
| CompilerWords.Compiler.Loop | core/src/builtin/CORE.def.inc:751-758 | an increment of one and then +LOOP |
| CompilerWords.Compiler.Leave | core/src/builtin/CORE.def.inc:705-711 | a branch with a placeholder |
| CompilerWords.Compiler.Case | core/src/builtin/CORE-EXT.def.inc:56-63 | HERE and the CASE mark on the stack |
| CompilerWords.Compiler.Of | core/src/builtin/CORE-EXT.def.inc:259-280 | comparison, hole and DROP, under the OF mark; on a wrong or missing mark it cancels, the room being checked before the mark |
| CompilerWords.Compiler.EndOf | core/src/builtin/CORE-EXT.def.inc:163-185 | a branch with a placeholder, and the hole of OF closed; on a wrong or missing mark it cancels |
| CompilerWords.Compiler.EndCase | core/src/builtin/CORE-EXT.def.inc:138-162 | DROP, and the scan from CASE on; on a wrong or missing mark it cancels |
| CompilerWords.Compiler.CompileAll | core/src/kernel/compile.c:86-126 | a whole body and its semicolon, which insists on a data stack of the old depth and cancels otherwise |
| References.TextCounts | core/src/builtin/builtin.c:52-60 | a text that compiles to its end has found every reference that it needed and leaves as many as it opened and did not close |
| References.BodyBalances | core/src/kernel/compile.c:100-103 | the semicolon cancels with -22 exactly the bodies that compile but do not balance |
| References.OpenIf | tests/src/test/compile.c:93 | the body IF is such a one |
| References.Refusals | core/src/builtin/builtin.c:52-60 | when each word of the source throws a mismatch, a full or an empty stack, exactly |
| Emission.Patched | core/src/builtin/CORE.def.inc:1018-1022 | scanning the code of any body without data that looks like a placeholder gives the code of that body with its LEAVEs aimed at the target, and no placeholder is left |
| Emission.Emits | core/src/builtin/CORE.def.inc:421-436 | compiling the text of any statement at all appends exactly the cells that its parts, filled in and swept, amount to, and leaves the data stack as it was |
| Emission.RawIsCode | core/src/builtin/CORE.def.inc:1018-1022 | those cells are the intended code, every displacement and hole filled, when no data in a loop or CASE looks like a placeholder |
| Definitions.EmitsBody | core/src/kernel/compile.c:86-126 | a whole body compiles to its code, EXIT and SENTINEL, and the code is free of placeholders if and only if the programmer supplied none |
| Correctness.StmtRuns | core/src/builtin/SYSTEM.def.inc:43-70 | running the cells of a statement is evaluating the statement, for every amount of gas and every return-stack content, including errors and words that stray |
| Correctness.IterateRuns | core/src/builtin/CORE.def.inc:1001-1027 | the same for the rounds of a counted loop |
| Definitions.StaysInside | core/src/builtin/CORE.def.inc:705-711 | no LEAVE escapes from a well-nested body |
| Definitions.DefinitionIsCorrect | core/src/kernel/compile.c:86-126 | compiler correctness: compile the text, call the token with the flattened interpreter, and stacks, error, gas and divergence are those of the structured program; the call returns behind the caller; a placeholder survives only if the programmer supplied it outside loops and CASEs |
| ControlLaws.CaseSelects | core/src/builtin/CORE-EXT.def.inc:138-162 | a definition of CASE ... ENDCASE with literal tests and values takes the selector off and leaves the value of the first clause that tests for it, or the default |
| ControlLaws.ChosenIsFirst | core/src/builtin/CORE-EXT.def.inc:259-280 | first by position |
| ControlLaws.IfSelects | core/src/builtin/CORE.def.inc:647-655 | IF m ELSE n THEN and IF m THEN choose by the flag and take it off |
| ControlLaws.WhileCounts | core/src/builtin/CORE.def.inc:1123-1136 | BEGIN DUP WHILE 1 - REPEAT leaves zero after x rounds |
| ControlLaws.UntilIsCounted | core/src/builtin/CORE.def.inc:1677-1685 | BEGIN 1 - DUP 0 = UNTIL too, for x other than zero |
| ControlLaws.AgainEnds | core/src/builtin/CORE-EXT.def.inc:8-16 | BEGIN DUP IF 1 - ELSE EXIT THEN AGAIN ends by its EXIT with zero |
| ControlLaws.LeaveLeaves | core/src/builtin/CORE.def.inc:705-711 | DO m LEAVE LOOP leaves m and the return stack as it was |
| Conformance.LeaveConforms | core/src/builtin/CORE-EXT.def.inc:154-159 | the emitted code is that of Forth 2012 if and only if no CASE stands between a LEAVE and its loop and no data in a loop or CASE is the address of SENTINEL |
| Conformance.DataSurvives | core/src/builtin/CORE.def.inc:1018-1022 | any program compiles to its intended code if and only if no number or word inside a DO loop or a CASE, however nested, is the address of SENTINEL |
| Conformance.LeaveInCase | core/src/builtin/CORE-EXT.def.inc:154-159 | the smallest program that does not: DO CASE LEAVE ENDCASE LOOP |
| Conformance.LiteralInLoop | core/src/builtin/CORE.def.inc:1018-1022 | the smallest instance: the number in DO n +LOOP is compiled as itself if and only if it is not that address |
| LoopStep.TwoDupWord | core/src/builtin/CORE.def.inc:1493-1498 | the thread of 2DUP duplicates the pair |
| LoopStep.LoopIncWord | core/src/builtin/SYSTEM.def.inc:180-214 | the thread of LOOP_INC leaves the stepped index and whether X and X + inc differ in sign |
| CountedLoops.StopsIsCrossing | core/src/builtin/SYSTEM.def.inc:180-214 | LOOP_INC decides the crossing of section 6.1.0140 of Forth 2012 if and only if distance plus increment does not overflow |
| CountedLoops.StopsFarFromLimit | core/src/builtin/SYSTEM.def.inc:180-214 | where it does not: at the greatest distance, stepping by one, the flag goes up and nothing is crossed |
| CountedLoops.RoundsRun | core/src/builtin/CORE.def.inc:1001-1027 | a loop under way runs its body, which may read index and limit, once for each successive index until the distance asks it to stop, for every nonzero increment |
| CountedLoops.LoopCounts | core/src/builtin/CORE.def.inc:320-336 | DO or ?DO to LOOP or +LOOP, whole: the body acts exactly LoopRounds times on the successive indices, whatever limit, index and nonzero increment; the return stack is as before, and enough gas makes it end |
| CountedLoops.LoopGoesRound | core/src/builtin/SYSTEM.def.inc:180-214 | with increment zero it never ends, unless ?DO skips it |
| CountedLoops.RoundsUp | core/src/builtin/SYSTEM.def.inc:180-214 | counting up from distance a, the rounds are ceil(-a/c) below the limit and ceil((2^(W-1) - a)/c) from the limit on |
| CountedLoops.RoundsDown | core/src/builtin/SYSTEM.def.inc:180-214 | counting down, they are floor(a//c/) + 1 from the limit on and floor((a + 2^(W-1))//c/) + 1 below it |
| CountedLoops.CountingLoop | core/src/builtin/CORE-EXT.def.inc:290-305 | x limit index ?DO 1 + LOOP adds the number of rounds to x, for any limit and index |
| CountedLoops.SummingLoop | core/src/builtin/CORE.decl.inc:61 | x limit index ?DO I + LOOP adds n*index + n(n-1)/2 to x modulo 2^W, n the number of rounds |
| Doubles.NegateDoubleIs | core/src/util/double.c:151-157 | exact modulo 2^2W; turns negative doubles into their magnitude and back |
| Doubles.MulUnsignedIsExact | core/src/util/usize.c:190-201 | four half-word products and their carries make the exact double product |
| Doubles.MulIsExact | core/src/util/usize.c:171-208 | exact for all unsigned and all signed operands |
| Division.Clz | core/src/util/usize.c:3-26 | the number of leading zeros: 2^(W-1-c) <= u < 2^(W-c) |
| Division.Digit | core/src/util/double.c:98-106 | the correction loop ends on the true half-word digit, whatever the first guess |
| Division.Shift | core/src/util/double.c:88-96 | normalization scales divisor and numerator by the same power of two without losing a bit |
| Division.LongDivide | core/src/util/double.c:88-133 | two digits make the exact quotient and remainder |
| Division.NDiv | core/src/util/double.c:63-149 | exact in unsigned, symmetric and floored mode; fails exactly on a zero divisor or a quotient out of range, which it tells apart |
| Division.SucceedsIff | core/src/util/double.c:122-129 | with a quotient wanted, success means a truncated quotient strictly between -2^(W-1) and 2^(W-1) |
| Division.DivisionIsUnique | core/src/util/double.c:63-149 | the two standard divisions determine quotient and remainder |
| Division.DividesMeans | core/src/util/double.c:63-149 | what the two kinds of division ask of the remainder |
| Division.DividesExamples | core/src/util/double.c:63-149 | 10 and -10 by 7 and -7, both ways |
| Division.LowestQuotientRejected | core/src/util/double.c:122-129 | symmetric division rejects the quotient -2^(W-1), which a cell could hold |
| Division.WideDivide | core/src/util/double.c:31-41 | one or two narrowing steps, none of which meets the range error |
| Division.Div | core/src/util/double.c:11-61 | exact in all three modes for every nonzero divisor but for MIN / -1, which wraps to MIN |
| Division.StarSlashMod | core/src/builtin/CORE.def.inc:1361-1385 | quotient and remainder of the full double product, or the error of the division, exactly when it applies |
| Numerals.PnoDigit | core/src/util/mem.c:638-655 | one digit of the double, the quotient left for the next |
| Numerals.PnoDigits | core/src/util/mem.c:657-690 | the whole number right-aligned if and only if it fits, and nothing outside the room given |
| Numerals.UsizeFormat | core/src/util/usize.c:35-57 | the number right-aligned, or its sign and as many low digits as there is room for |
| Numerals.Number | core/src/util/mem.c:531-607 | character literal, sign, prefix, the longest run of digits, and the cell it stands for |
| Numerals.ReadsBack | core/src/util/mem.c:531-607 | whatever the printers write of a double, in any base, is read back whole as its low cell, with or without the other prefixes enabled |
| NumberLaws.DigitNames | core/src/util/usize.c:28-33 | the digits printed are 0 to 9 and capitals in order; both cases are read |
| NumberLaws.PrefixedReads | core/src/util/mem.c:557-605 | $ and 0x, #, 0o, % and 0b before a numeral of their base, with or without a minus, in either case of letters: all its digits are read, whatever BASE, and nothing behind them |
| NumberLaws.PlainReads | core/src/util/mem.c:581-605 | the same without prefix, in BASE |
| NumberLaws.CharacterReads | core/src/util/mem.c:551-555 | a character between quotes is three characters and its code |
| NumberLaws.NoDigits | core/src/util/mem.c:599-606 | sign and prefix without a digit are no number |
| NumberLaws.BasesAreClamped | core/src/util/mem.c:546-549 | bases outside 2 to 36 are taken for the nearest |
| NumberLaws.CroppedLosesLeft | core/src/util/usize.c:35-57 | a number too long for its buffer loses digits at the left end and keeps its sign |
| Numerals.WidenedShows | core/src/util/usize.c:235-241 | a cell widened to a double prints as itself, so formatter and pictured output agree |
| Numerals.NumeralFits | core/src/util/mem.c:670-680 | a k-bit number has at most k digits in any base |
| Pictured.Pno.Start | core/src/kernel/io.c:162-166 | begins an empty text below PAD |
| Pictured.Pno.Hold | core/src/kernel/io.c:130-144 | prepends a character or reports why not |
| Pictured.Pno.Digits | core/src/kernel/io.c:77-95 | prepends a number if it fits the room as the code computes it, and writes only there |
| Pictured.Available | core/src/kernel/io.c:87-89 | that room is the true one except that it wraps to 2^W - 1 when none is left |
| Pictured.Pno.Finish | core/src/kernel/io.c:97-128 | hands out the text, or refuses what allocation has overtaken |
| Pictured.Pno.Dot | core/src/builtin/CORE.def.inc:366-385 | given 2W + 2 characters of room, . shows every cell in every base, and writes only between HERE and PAD |
| Pictured.Pno.UDot | core/src/builtin/CORE.def.inc:1583-1605 | the same for U. |
| Pictured.Pno.SharpS | core/src/builtin/CORE.def.inc:909-921 | the same for <# #S SIGN #> of every double |
| Unescaping.Unescape | core/src/util/mem.c:266-348 | the one-pass meaning of an escaped text is never longer than the text |
| Unescaping.Strnescape | core/src/util/mem.c:266-348 | each chunk is the next part of the one-pass result, never empty and never longer than what it was made from |
| EscapeLaws.Letters | core/src/util/mem.c:283-300 | every one-letter escape in character codes, whatever is behind it |
| EscapeLaws.HexReadsBack | core/src/util/mem.c:301-325 | any bytes written as \x and two hexadecimal digits in either case read as themselves |
| EscapeLaws.Kept | core/src/util/mem.c:326-350 | what is no escape is kept as it is, backslash included |
| Unescaping.UnescapeInto | core/src/kernel/compile.c:65-84 | unescaping within one memory gives the one-pass result although the output may lie over the input |
| Unescaping.MoveChunk | core/src/kernel/compile.c:71-76 | one chunk of it: output and rest of the input are those of one more step, and the input still to be read is untouched |
| CircularBuffer.Cbuf.Push | core/src/util/mem.c:25-40 | puts the entry at the offset or at the front, changes no other byte, refuses what cannot fit |
| CircularBuffer.Cbuf.Append | core/src/util/mem.c:63-81 | one chunk, with the move to the front when it no longer fits |
| CircularBuffer.Cbuf.EPush | core/src/util/mem.c:51-86 | same place, length, bytes and offset as pushing the unescaped text, whenever that fits; else NULL and offset 0 |
| CircularBuffer.SurvivesFrom | core/src/util/mem.c:20-24 | an entry is whole as long as one slot more than the pushes since, of the largest size, less one byte, fits the buffer |
| CircularBuffer.LatestSurvive | core/src/util/mem.c:20-40 | after any mixture of pushes of up to n bytes the latest size/n - 1 entries are intact |
| CircularBuffer.EqualSurvive | core/src/util/mem.c:20-40 | with entries of exactly n bytes from a fresh buffer, the latest size/n |
| CircularBuffer.PromiseHolds | core/src/util/mem.c:20-40 | the latest size/n entries are intact after every history of pushes of 1 to n bytes if and only if size/n <= 1 or size % n == n - 1 |
| CircularBuffer.MixedSizesLose | core/src/util/mem.c:20-24 | the smallest history of the kind that breaks it: 4, 5 and 5 bytes into 10 |
| Exceptions.Task.Catch | core/src/kernel/exception.c:4-20 | saves the registers and arms its own context |
| Exceptions.Task.Return | core/src/kernel/exception.c:44-63 | a normal return rearms the outer context, keeps the registers and returns no code |
| Exceptions.Task.Throw | core/src/kernel/exception.c:90-101 | a throw ends in the innermost catch, or for QUIT and BYE in the outermost, with the registers saved there (QUIT: all but sp) |
| Exceptions.LiveKeeps | core/src/kernel/exception.c:4-64 | no run inside a catch changes its frame or an outer one |
| Exceptions.CatchLaw | core/src/kernel/exception.c:4-64 | over any run and nesting, the end of a catch leaves handlers and registers as section 9.6.1.0875 of Forth 2012 asks; QUIT and BYE end every catch |
| Catching.CallAgrees | core/src/kernel/execute.c:19-38 | the interpreter with CATCH does what Machine does as long as CATCH is no word of it |
| Catching.CallStays | core/src/kernel/exception.c:4-64 | with CATCH and throws in it, no run changes a return-stack cell below the pointer of the caller, and a word that comes back is in its caller's frame |
| Catching.CatchLaw | core/src/builtin/EXCEPTION.def.inc:8-18 | CATCH as a word: whatever the caught word did, a throw resumes behind CATCH with the frame of its caller, every frame below, and the depth of the data stack restored and the code on top, where a thread that comes back resumes with zero; QUIT and BYE go to the outermost catch |
| Dictionary.Lookup | core/src/util/mem.c:153-164 | finds the latest entry of a name in any case |
| Characters.LowerJoinsCases | core/src/util/mem.c:522-529 | two characters compare equal when they are the same or the two cases of one ASCII letter |
| Dictionary.FoundIsNewest | core/src/util/mem.c:153-164 | what a lookup finds has the name, character by character but for case, and nothing newer has |
| Dictionary.ListedIsFound | core/src/util/mem.c:153-164 | it finds something if any header has the name |
| Dictionary.Task.DictEntry | core/src/kernel/dict.c:6-15 | the new header, with any flags, becomes the latest and HERE moves past it |
| Dictionary.Task.DictForget | core/src/kernel/dict.c:17-31 | drops the word and all later ones and moves HERE back to its header, never for a builtin |
| Dictionary.Task.DictLookup | core/src/kernel/dict.c:35-40 | does not see the word that is being compiled |
| Dictionary.Task.CompileStart | core/src/kernel/compile.c:146-173 | records mode, HERE, token and data-stack pointer, and refuses to nest |
| Dictionary.Task.CompileFinish | core/src/kernel/compile.c:86-126 | resumes, insists on the recorded data-stack pointer or cancels, reveals the word of a colon definition, gives the token its code, says whether the token of :NONAME is pushed, and counts the two cells it writes |
| Dictionary.Task.CompileSuspend | core/src/kernel/compile.c:185-189 | the mode moves to the suspended one |
| Dictionary.Task.CompileResume | core/src/kernel/compile.c:134-144 | the suspended mode returns, or an anonymous one |
| Dictionary.Task.CompileCancel | core/src/kernel/compile.c:8-41 | undoes according to the mode |
| Dictionary.StartColon | core/src/builtin/CORE.def.inc:236-249 | header first, then the compiling state; while compiling, the header stays and nesting is refused |
| Dictionary.DefinitionIsHidden | core/src/kernel/dict.c:33-40 | lookups during a definition answer as before it if and only if no header is made in it |
| Dictionary.CancelRestores | core/src/kernel/compile.c:8-41 | over every history of writes, suspensions, resumptions and headers, cancelling restores dictionary, HERE, both state fields and all code fields if and only if no header was made and the definition was never suspended, or suspended from a clean state and never twice in a row |
| Dictionary.SuspendedTwiceIsLost | core/src/kernel/compile.c:8-41 | the smallest history of the second kind: [ [ leaves the unfinished word in the dictionary |
| Dictionary.FinishReveals | core/src/kernel/compile.c:86-126 | the semicolon puts the word, visible and with the code of a thread, in front of the old dictionary if and only if the stack pointer is the recorded one, no header was made and the compiler was never suspended twice in a row |
| Dictionary.FinishWrites | core/src/kernel/compile.c:105-126 | for each kind of definition: two cells behind what was written, the word made visible, the code of the nameless token or of the DOES> part |
| Dictionary.NestedColonSpoilsCancel | core/src/builtin/CORE.def.inc:244-246 | the smallest history of the first kind: after a second colon, cancelling forgets the second header and keeps the unfinished first one |
| Dictionary.ForgetUndoes | core/src/kernel/dict.c:17-31 | defining a word, then any other words and flag changes, then forgetting it gives back the whole state of before: dictionary, HERE and modes |
| Conditional.IoWord | core/src/kernel/io.c:247-270 | takes the next word at >IN, at most 255 characters of it, and moves past the character that ended it |
| Conditional.WordsAreMaximal | core/src/util/mem.c:609-636 | a word is preceded by blanks, free of blanks and newlines, and ended by one or by the end of the text |
| Conditional.WordsAreRuns | core/src/util/mem.c:609-636 | taking words one after the other from the start of a text, or from behind a word, meets every maximal run free of blank and newline, and nothing else |
| Conditional.SpansAscend | core/src/util/mem.c:609-636 | and meets them in order |
| Conditional.Skip | core/src/builtin/TOOLS-EXT.def.inc:8-75 | the depth counter finds exactly the place that a recursive descent finds, and fails exactly when there is none |
| Conditional.SkipsToMatch | core/src/builtin/TOOLS-EXT.def.inc:8-75 | well-nested text is skipped up to the matching [ELSE] or [THEN], whatever is nested in it |
| Conditional.MarksInAnyCase | core/src/builtin/TOOLS-EXT.def.inc:30-71 | [IF], [ELSE] and [THEN] count in any case of their letters, and every other word is passed over |
| Conditional.EndsOfWords | core/src/util/mem.c:609-636 | a word ends at a blank or a newline, and at nothing else |
| Interpreting.ExecuteIsPure | core/src/kernel/execute.c:19-38 | what a word does to the data stack does not depend on where it is called from, unless the return stack has room for less than three cells for each unit of gas and overflows |
| Interpreting.InterpretsPurely | core/src/kernel/evaluate.c:39-68 | interpreting straight-line text follows the evaluator without a return stack |
| Interpreting.CompiledRunsPurely | core/src/kernel/evaluate.c:11-37 | so does the thread compiled from it |
| Interpreting.InterpretIsCompileAndRun | core/src/kernel/evaluate.c:88-104 | for words already looked up: executing them one by one and running their cells give the same data stack or the same error |
| Evaluating.ResolveWord | core/src/kernel/evaluate.c:11-68 | the lookup common to both states: the dictionary without the open definition, then a number in the base of the low eight bits of BASE that takes the whole word |
| Evaluating.DefinitionResolvesAlike | core/src/kernel/dict.c:33-40 | while a definition is open every word means what it meant before |
| Evaluating.EvaluateInterpret | core/src/kernel/evaluate.c:39-68 | refuses compile-only words, executes the others, pushes numbers if there is room, and reports undefined words |
| Evaluating.EvaluateLine | core/src/kernel/evaluate.c:88-104 | the loop over the words of the input in interpretation state |
| Evaluating.CompileLine | core/src/kernel/evaluate.c:88-104 | the same loop in compilation state: words and numbers compiled, control structures executed, the semicolon finishing the definition |
| Evaluating.TextCompiles | core/src/kernel/evaluate.c:11-37 | reading and compiling word by word, up to the semicolon, is compiling the words that were read |
| Evaluating.SourceTextIsCorrect | core/src/kernel/evaluate.c:11-37 | a colon definition whose source text spells a structured program becomes a word that behaves as the program, from characters to stacks |
| Spelling.ControlIsTreated | core/src/builtin/CORE.decl.inc:8-140 | each control structure is read by its name, through its place among the builtins |
| Spelling.NamesComeFirst | core/src/kernel/evaluate.c:17-26 | a word in the dictionary is not tried as a number |
| Spelling.NumbersAreRead | core/src/kernel/evaluate.c:28-34 | a word not in the dictionary is read in the base of the low eight bits of BASE or of its prefix, with its sign, in either case |
| Spelling.Refuses | core/src/kernel/evaluate.c:47-68 | interpreting stops with -14 at a compile-only word and with -13 at one that is neither known nor a number |
| Spelling.SpellingParses | core/src/kernel/evaluate.c:88-104 | any text written out in names and numerals is read as that text |
| Spelling.SpelledProgramIsCorrect | core/src/kernel/evaluate.c:11-37 | every structured program, spelled out behind a colon and its name, becomes a word that behaves as the program |
| Evaluating.ParsesItems | core/src/kernel/evaluate.c:88-104 | a text of plain words with a semicolon behind it is read as those words and a semicolon |
| Evaluating.LineCompiles | core/src/kernel/evaluate.c:11-37 | such a text compiles to exactly the cells of its words, EXIT and SENTINEL |
| Evaluating.InterpretIsDefineAndCall | core/src/kernel/evaluate.c:11-68 | interpreting a text of plain words, and calling the definition made of the same text, give the same data stack or the same error; always so with three cells of return stack for each unit of gas |
| Codes.ExceptionCodes | core/include/e4.h:383-419 | the exception codes |

## Left out

- Stores by the running program: `Machine.World` keeps memory fixed during a run, so !, C!, MOVE, ALLOT and self-modifying threads are not modelled; compiling, which does write, is modelled apart.
- Catching.CatchLaw: for the recursive form of the interpreter; the data cells that come back above the depth at the throw are left open, and the input source and the `then` callback are not part of it (the input source is in Exceptions).
- Disabled exceptions: the fallbacks after a throw that returns are best effort by the comments in the source; here a throw always leaves the call.
- LIT_CSTR, LIT_DOES, markers, user variables and the words of the optional word sets beyond those named above.
- Immediate words during compilation other than the control structures and the semicolon: `Evaluating.CompileText` stops at them with their token; neither [ and ] nor a colon is executed by it, so a text that changes state in the middle is not modelled.
- CompilerWords.Compiler.Mismatch: of e4__compile_cancel the effect on HERE only; that on dictionary and state is in `Dictionary.Task.CompileCancel`.
- CompilerWords.Compiler.While: the thread IF SWAP is modelled by its effect on HERE and the data stack, without the cells of return stack that it needs while compiling.
- CompilerWords.Compiler.Loop: likewise for 1 LITERAL +LOOP.
- CompilerWords.Compiler.CompileAll: the setting of the code field is a premise of the theorems (the token is Threaded); the code field and the flags are in `Dictionary.Task.CompileFinish`.
- Alignment and byte addressing: memory is an array of cells; characters live in arrays of their own, and a string literal takes whole cells.
- Half-word masks: USIZE_SPLIT and USIZE_U are division and remainder by 2^(W/2), shifts are multiplication and division by powers of two; masks and ors that are not at half a word go through `Machine.Bitwise`.
- Pictured.Pno.Digits: asks that the number fit below PAD when HERE has reached the text, where the code would write below HERE.
- Numerals.UsizeFormat: for bases 2 to 36, since the code has no digits beyond and does not clamp; and not for a negative number with no room at all, where the code writes the sign before the buffer.
- Numerals.Number: letters are those of ASCII; whether char is signed is left open.
- Unescaping.UnescapeInto: the text only; the LIT_STR and length cells before it and the alignment of HERE behind it are not modelled.
- CountedLoops.LoopCounts: for a body that ends normally in every round and leaves the same increment each time; other bodies are covered by the compiler correctness theorem.
- Conditional.IoWord: the counted copy of the word that parsing leaves at HERE is not modelled; it lies above everything compiled so far.
- Conditional.Skip: the lines that refilling brings are taken as one text with newlines between them.
- Evaluating.InterpretIsDefineAndCall: the text is interpreted in the world that already holds the definition, and words that would work on the return stack of their caller (2>R or EXECUTE of >R) are excluded by KeepsOff.
- Machine: below tr0 the source computes e4__stack_rdepth as an unsigned difference, so its check passes where the model throws; no framed state gets there (`Frames.ExecuteKeeps`).
- Dictionary.CancelRestores: FORGET and markers within a definition are not among the events.
- WordLaws.BitWords: shifts by W bits or more, which C leaves undefined, are those of integers reduced to a cell.
- Dictionary.SameName: for names without the character NUL, at which the comparison in C would stop.
- Dictionary: names are compared and linked, header bytes are only counted.
- Evaluating: BASE and the dictionary stay the same within a text; parsing words, which read on in it, are not covered.
- PICK, ROLL beyond the stack, UNUSED, file words, foreign calls, SEE, DUMP, WORDS, environment queries, calendar time and the messages of exceptions.
