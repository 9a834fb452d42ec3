/** The text interpreter: the words of the input one after the other, looked up in the dictionary or read
    as numbers, and executed or compiled.  Both states understand a word alike, so interpreting a text
    comes to the same as compiling it into a definition and calling that; and the source text of a
    structured program compiles to that program. */
module Evaluating {
  import opened Machine
  import opened Structured
  import opened Compiling
  import opened Frames
  import C = Correctness
  import D = Dictionary
  import Definitions
  import E = Emission
  import I = Interpreting
  import N = Numerals
  import T = Conditional
  import CompilerWords
  import Tasks

  const E_UNDEFWORD := -13
  const E_COMPONLYWORD := -14

  const SEMICOLON_XT: int := BUILTIN_XT + 2 * 92

  datatype Option<X> = None | Some(value: X)

  // ----- one word -----

  /** What a word is found to be. */
  datatype Meaning = Found(xt: int, immediate: bool, compOnly: bool) | Value(n: int) | Unknown

  /** The dictionary first, then the number parser with all its prefixes, which must take the whole word.  Of
      BASE the parser gets the low eight bits. */
  function Resolve(dict: D.Dict, base: int, word: string): Meaning
    requires word != ""
  {
    var found := D.Find(D.Visible(dict), word);
    if found.Entry? then Found(found.header.xt, found.header.immediate, found.header.compOnly)
    else
      var r := N.ReadNumber(word, |word|, base % 256, true, true, true);
      if r.count == |word| then Value(r.out) else Unknown
  }

  method ResolveWord(dict: D.Dict, base: int, word: string) returns (m: Meaning)
    requires word != "" && dict.Entry?
    ensures m == Resolve(dict, base, word)
  {
    var found := D.Lookup(if dict.header.compiling then dict.link else dict, word);
    if found.Entry? {
      return Found(found.header.xt, found.header.immediate, found.header.compOnly);
    }
    var count, out := N.Number(word, |word|, base % 256, true, true, true);
    m := if count == |word| then Value(out) else Unknown;
  }

  /** While a definition is open, words mean what they meant before it. */
  lemma DefinitionResolvesAlike(d: D.State, name: string, size: nat, token: int, sp: int, base: int, word: string)
    requires word != "" && (d.dict.Entry? ==> !d.dict.header.compiling)
    ensures Resolve(D.Started(d, D.Colon, name, size, token, sp).dict, base, word) == Resolve(d.dict, base, word)
  {
    D.DefinitionIsHidden(d, name, size, token, sp, []);
  }

  /** The next word of the text, empty if the line ends first. */
  function WordAt(text: string, at: nat): string
    requires at <= |text|
  {
    T.Clamped(T.TokenAt(text, at).word)
  }

  function After(text: string, at: nat): (next: nat)
    requires at <= |text|
    ensures at < next <= |text| + 1
  {
    T.TokenAt(text, at).next
  }

  // ----- interpretation state -----

  /** e4__evaluate_interpret.  A number is charged like the literal it would be compiled to. */
  function InterpretWord(w: World, m: Meaning, s: State, gas: nat): Outcome {
    match m
    case Found(xt, _, compOnly) =>
      if compOnly then Throw(E_COMPONLYWORD, s.ds) else Execute(w, true, xt, s, gas)
    case Value(n) =>
      if gas == 0 then Spent(s)
      else if w.dcap - |s.ds| < 1 then Throw(E_STKOVERFLOW, s.ds)
      else Done(s.(ds := s.ds + [n]), gas - 1)
    case Unknown => Throw(E_UNDEFWORD, s.ds)
  }

  /** The loop of e4__evaluate_internal in interpretation state, from position at. */
  function InterpretText(w: World, dict: D.Dict, base: int, text: string, at: nat, s: State, gas: nat): Outcome
    decreases |text| + 1 - at
  {
    if at >= |text| then Done(s, gas)
    else
      var word := WordAt(text, at);
      if word == "" then InterpretText(w, dict, base, text, After(text, at), s, gas)
      else
        var r := InterpretWord(w, Resolve(dict, base, word), s, gas);
        if r.Done? then InterpretText(w, dict, base, text, After(text, at), r.s, r.gas) else r
  }

  method EvaluateInterpret(task: Tasks.Task, dict: D.Dict, base: int, word: string, gas: nat)
    returns (st: Tasks.Status, left: nat)
    requires task.Valid() && word != "" && dict.Entry?
    modifies task`sp, task`rp, task`ip, task`tr0, task.stack, task.rstack
    ensures task.Valid()
    ensures task.AgreesRun(InterpretWord(task.world, Resolve(dict, base, word), old(task.Now()), gas), st, left)
  {
    hide Resolve, Execute;
    var m := ResolveWord(dict, base, word);
    match m
    case Found(xt, _, compOnly) =>
      if compOnly {
        return Tasks.Threw(E_COMPONLYWORD), gas;
      }
      st, left := task.Execute(xt, gas);
    case Value(n) =>
      if gas == 0 {
        return Tasks.Halted, 0;
      }
      if task.stack.Length - task.sp < 1 {
        return Tasks.Threw(E_STKOVERFLOW), gas;
      }
      task.Push(n);
      st, left := Tasks.Running, gas - 1;
    case Unknown => st, left := Tasks.Threw(E_UNDEFWORD), gas;
  }

  method EvaluateLine(task: Tasks.Task, dict: D.Dict, base: int, text: string, gas: nat)
    returns (st: Tasks.Status, left: nat)
    requires task.Valid() && dict.Entry?
    modifies task`sp, task`rp, task`ip, task`tr0, task.stack, task.rstack
    ensures task.Valid()
    ensures task.AgreesRun(InterpretText(task.world, dict, base, text, 0, old(task.Now()), gas), st, left)
  {
    hide Resolve, InterpretWord;
    ghost var w, start := task.world, task.Now();
    var at := 0;
    st, left := Tasks.Running, gas;
    while at < |text|
      invariant at <= |text| + 1 && task.Valid() && st == Tasks.Running
      invariant InterpretText(w, dict, base, text, 0, start, gas) ==
        InterpretText(w, dict, base, text, at, task.Now(), left)
      decreases |text| + 1 - at
    {
      var word, next := T.IoWord(text, at);
      if word != "" {
        st, left := EvaluateInterpret(task, dict, base, word, left);
        if st != Tasks.Running {
          return;
        }
      }
      at := next;
    }
  }

  // ----- compilation state -----

  /** The immediate words of the Compiling module, by their place in e4__BUILTIN_XT. */
  function Control(xt: int): Option<Source> {
    if (xt - BUILTIN_XT) % 2 != 0 then None
    else match (xt - BUILTIN_XT) / 2
      case 9 => Some(WBegin)
      case 29 => Some(WDo)
      case 35 => Some(WElse)
      case 50 => Some(WIf)
      case 55 => Some(WLeave)
      case 60 => Some(WLoop)
      case 78 => Some(WPlusLoop)
      case 86 => Some(WRepeat)
      case 106 => Some(WThen)
      case 126 => Some(WUntil)
      case 128 => Some(WWhile)
      case 144 => Some(WAgain)
      case 148 => Some(WCase)
      case 154 => Some(WEndCase)
      case 155 => Some(WEndOf)
      case 163 => Some(WOf)
      case 166 => Some(WQuestionDo)
      case _ => None
  }

  /** What e4__evaluate_compile does with it.  Leaves is any other immediate word. */
  datatype Treatment = Compiles(source: Source) | Closes | Undefined | Leaves(xt: int)

  function Treat(m: Meaning): Treatment {
    match m
    case Found(xt, immediate, _) =>
      if !immediate then Compiles(Ordinary(xt))
      else if xt == SEMICOLON_XT then Closes
      else (match Control(xt)
        case Some(s) => Compiles(s)
        case None => Leaves(xt))
    case Value(n) => Compiles(Number(n))
    case Unknown => Undefined
  }

  /** The text is used up, a semicolon has closed the definition, a throw has ended it, or another
      immediate word is to run. */
  datatype Progress =
    | Open(k: Draft)
    | Closed(k: Draft, next: nat)
    | Stopped(r: Compiled)
    | Elsewhere(xt: int, k: Draft, next: nat)

  /** The loop in compilation state; depth is that of the stack at the start of the definition. */
  function CompileText(dcap: nat, dict: D.Dict, base: int, text: string, at: nat, depth: nat, k: Draft): Progress
    decreases |text| + 1 - at
  {
    if at >= |text| then Open(k)
    else
      var word, next := WordAt(text, at), After(text, at);
      if word == "" then CompileText(dcap, dict, base, text, next, depth, k)
      else match Treat(Resolve(dict, base, word))
        case Compiles(s) =>
          var r := Compile1(dcap, k, s);
          if r.Ok? then CompileText(dcap, dict, base, text, next, depth, r.k) else Stopped(r)
        case Closes => Closing(k, depth, next)
        case Undefined => Stopped(Err(E_UNDEFWORD, false))
        case Leaves(xt) => Elsewhere(xt, k, next)
  }

  function Closing(k: Draft, depth: nat, next: nat): Progress {
    var r := Finish(k, depth);
    if r.Ok? then Closed(r.k, next) else Stopped(r)
  }

  /** How far CompileLine came, and its error. */
  datatype Stop = AtEnd | AtSemicolon(next: nat) | AtError(e: CompilerWords.Ending) | AtWord(xt: int, next: nat)

  ghost predicate Reached(c: CompilerWords.Compiler, p: Progress, stop: Stop)
    reads c, c.mem
  {
    match p
    case Open(k) => stop == AtEnd && c.Now() == k
    case Closed(k, next) => stop == AtSemicolon(next) && c.Now() == k
    case Stopped(r) => stop.AtError? && c.Agrees(r, stop.e)
    case Elsewhere(xt, k, next) => stop == AtWord(xt, next) && c.Now() == k
  }

  method CompileLine(c: CompilerWords.Compiler, dict: D.Dict, base: int, text: string, depth: nat) returns (stop: Stop)
    requires dict.Entry?
    modifies c`ds, c`here, c.mem
    ensures Reached(c, CompileText(c.dcap, dict, base, text, 0, depth, old(c.Now())), stop)
  {
    hide Resolve, Compile1, Finish, Control;
    ghost var start := c.Now();
    var at := 0;
    while at < |text|
      invariant at <= |text| + 1
      invariant CompileText(c.dcap, dict, base, text, 0, depth, start) ==
        CompileText(c.dcap, dict, base, text, at, depth, c.Now())
      decreases |text| + 1 - at
    {
      var word, next := T.IoWord(text, at);
      if word != "" {
        var m := ResolveWord(dict, base, word);
        match Treat(m)
        case Compiles(s) =>
          var e := c.CompileOne(s);
          if e != CompilerWords.Fine {
            return AtError(e);
          }
        case Closes =>
          var e := c.Semicolon(depth);
          return if e == CompilerWords.Fine then AtSemicolon(next) else AtError(e);
        case Undefined => return AtError(CompilerWords.Failed(E_UNDEFWORD, false));
        case Leaves(xt) => return AtWord(xt, next);
      }
      at := next;
    }
    stop := AtEnd;
  }

  // ----- from characters to the words of a definition -----

  datatype Parsed = Definition(text: seq<Source>, next: nat) | NoDefinition

  /** The words up to the semicolon, if all of them are compiled. */
  function Parse(dict: D.Dict, base: int, text: string, at: nat): Parsed
    decreases |text| + 1 - at
  {
    if at >= |text| then NoDefinition
    else
      var word, next := WordAt(text, at), After(text, at);
      if word == "" then Parse(dict, base, text, next)
      else match Treat(Resolve(dict, base, word))
        case Compiles(s) =>
          var p := Parse(dict, base, text, next);
          if p.Definition? then Definition([s] + p.text, p.next) else p
        case Closes => Definition([], next)
        case _ => NoDefinition
  }

  function Completed(r: Compiled, depth: nat, next: nat): Progress {
    if r.Ok? then Closing(r.k, depth, next) else Stopped(r)
  }

  /** Reading and compiling word by word is compiling all the words that were read. */
  lemma {:induction false} TextCompiles(dcap: nat, dict: D.Dict, base: int, text: string, at: nat, depth: nat, k: Draft)
    requires Parse(dict, base, text, at).Definition?
    ensures var p := Parse(dict, base, text, at);
      CompileText(dcap, dict, base, text, at, depth, k) == Completed(Compile(dcap, k, p.text), depth, p.next)
    decreases |text| + 1 - at
  {
    hide Resolve, Treat, Compile1, Finish, WordAt, After;
    var word, next := WordAt(text, at), After(text, at);
    if word == "" {
      TextCompiles(dcap, dict, base, text, next, depth, k);
    } else {
      var m := Treat(Resolve(dict, base, word));
      if m.Compiles? {
        var rest := Parse(dict, base, text, next).text;
        var r := Compile1(dcap, k, m.source);
        assert ([m.source] + rest)[1..] == rest;
        if r.Ok? {
          TextCompiles(dcap, dict, base, text, next, depth, r.k);
        }
      }
    }
  }

  /** The same with another dictionary in which words mean the same. */
  ghost predicate Alike(d: D.Dict, e: D.Dict, base: int) {
    forall word: string | word != "" :: Resolve(d, base, word) == Resolve(e, base, word)
  }

  lemma {:induction false} ParseAlike(d: D.Dict, e: D.Dict, base: int, text: string, at: nat)
    requires Alike(d, e, base)
    ensures Parse(d, base, text, at) == Parse(e, base, text, at)
    decreases |text| + 1 - at
  {
    hide Resolve, Treat;
    if at >= |text| {
    } else {
      ParseAlike(d, e, base, text, After(text, at));
    }
  }

  /** The source text of a structured program, typed behind a colon and its name, becomes a word that behaves
      as the program: lookup, number reading, the control-structure words and the inner interpreter taken
      together. */
  lemma SourceTextIsCorrect(w: World, d: D.State, name: string, size: nat, sp: int, base: int, text: string, xt: int,
                            p: Stmt, k: Draft, k': Draft, next: nat, s: State, gas: nat)
    requires Builtins(w) && xt in w.tokens && w.tokens[xt].Threaded? && k.here == xt + 2 && 0 < k.here
    requires d.dict.Entry? && !d.dict.header.compiling
    requires Parse(d.dict, base, text, 0).Definition? && Parse(d.dict, base, text, 0).text == Text(p)
    requires Definitions.Compilable(w.dcap, k, p)
    requires var dict := D.Started(d, D.Colon, name, size, xt, sp).dict;
      CompileText(w.dcap, dict, base, text, 0, |k.ds|, k) == Closed(k', next) && w.mem == k'.mem
    requires Framed(w, s)
    ensures var r := Execute(w, true, xt, s, gas);
      && C.Observe(r) == Definitions.Call(w, p, xt + 2, s, gas)
      && (r.Done? ==> r.s.ip == if s.ip == 0 then 0 else s.ip + 1)
  {
    hide Builtins, Parse, Resolve, CompileText, Compile, Finish, Definitions.Compilable, Execute;
    var dict := D.Started(d, D.Colon, name, size, xt, sp).dict;
    forall word: string | word != ""
      ensures Resolve(dict, base, word) == Resolve(d.dict, base, word)
    {
      DefinitionResolvesAlike(d, name, size, xt, sp, base, word);
    }
    ParseAlike(dict, d.dict, base, text, 0);
    TextCompiles(w.dcap, dict, base, text, 0, |k.ds|, k);
    Definitions.DefinitionIsCorrect(w, xt, p, k, s, gas);
  }

  // ----- plain text in both states -----

  /** What a word is that either state accepts without special treatment. */
  predicate Plain(m: Meaning) {
    m.Value? || (m.Found? && !m.immediate && !m.compOnly)
  }

  function ItemOf(m: Meaning): I.Item
    requires Plain(m)
  {
    if m.Value? then I.Number(m.n) else I.Named(m.xt)
  }

  /** The words of a text, if all of them are plain. */
  function Items(dict: D.Dict, base: int, text: string, at: nat): Option<seq<I.Item>>
    decreases |text| + 1 - at
  {
    if at >= |text| then Some([])
    else
      var word, next := WordAt(text, at), After(text, at);
      if word == "" then Items(dict, base, text, next)
      else
        var m, rest := Resolve(dict, base, word), Items(dict, base, text, next);
        if Plain(m) && rest.Some? then Some([ItemOf(m)] + rest.value) else None
  }

  function SourceOf(item: I.Item): Source {
    match item
    case Number(n) => Number(n)
    case Named(xt) => Ordinary(xt)
  }

  function Sources(items: seq<I.Item>): seq<Source> {
    if items == [] then [] else [SourceOf(items[0])] + Sources(items[1..])
  }

  lemma {:induction false} InterpretsItems(w: World, dict: D.Dict, base: int, text: string, at: nat, s: State, gas: nat)
    requires Items(dict, base, text, at).Some?
    ensures InterpretText(w, dict, base, text, at, s, gas) == I.Interpret(w, Items(dict, base, text, at).value, s, gas)
    decreases |text| + 1 - at
  {
    hide Resolve, Execute, WordAt, After;
    if at >= |text| {
    } else {
      var word, next := WordAt(text, at), After(text, at);
      if word == "" {
        InterpretsItems(w, dict, base, text, next, s, gas);
      } else {
        var m, rest := Resolve(dict, base, word), Items(dict, base, text, next).value;
        assert ([ItemOf(m)] + rest)[1..] == rest;
        var r := InterpretWord(w, m, s, gas);
        if r.Done? {
          InterpretsItems(w, dict, base, text, next, r.s, r.gas);
        }
      }
    }
  }

  // The text with a semicolon behind it.

  lemma {:induction false} BlanksBefore(text: string, i: nat)
    requires i <= |text|
    ensures var b := T.SkipBlanks(text, i);
      T.SkipBlanks(text + " ;", i) == if b < |text| then b else |text| + 1
    decreases |text| - i
  {
    if i < |text| {
      assert (text + " ;")[i] == text[i];
      if text[i] == ' ' {
        BlanksBefore(text, i + 1);
      }
    } else {
      assert (text + " ;")[i] == ' ' && (text + " ;")[i + 1] == ';';
      assert T.SkipBlanks(text + " ;", i + 1) == i + 1;
    }
  }

  lemma {:induction false} WordBefore(text: string, i: nat)
    requires i <= |text|
    ensures T.WordEnd(text + " ;", i) == T.WordEnd(text, i)
    decreases |text| - i
  {
    if i < |text| {
      assert (text + " ;")[i] == text[i];
      WordBefore(text, i + 1);
    } else {
      assert (text + " ;")[i] == ' ';
    }
  }

  lemma SemicolonEnds(text: string)
    ensures T.WordEnd(text + " ;", |text| + 1) == |text| + 2
    ensures (text + " ;")[|text| + 1..|text| + 2] == ";"
  {
    var all := text + " ;";
    assert all[|text| + 1] == ';';
    assert T.WordEnd(all, |text| + 2) == |text| + 2;
  }

  /** The words are those of the text, and then the semicolon. */
  lemma TokenBefore(text: string, at: nat)
    requires at <= |text| + 1
    ensures var u := T.TokenAt(text + " ;", at);
      if at < |text| && (T.TokenAt(text, at).word != "" || T.TokenAt(text, at).next <= |text|)
      then u == T.TokenAt(text, at)
      else u == T.Token(";", |text| + 3)
  {
    var all := text + " ;";
    SemicolonEnds(text);
    if at <= |text| {
      BlanksBefore(text, at);
      var start := T.SkipBlanks(text, at);
      WordBefore(text, start);
      if start < |text| {
        var end := T.WordEnd(text, start);
        assert all[start..end] == text[start..end];
      }
    } else {
      assert all[at] == ';';
      assert T.SkipBlanks(all, at) == at;
    }
  }

  lemma {:induction false} ParsesItems(dict: D.Dict, base: int, text: string, at: nat)
    requires at <= |text| + 1 && Items(dict, base, text, at).Some?
    requires Resolve(dict, base, ";") == Found(SEMICOLON_XT, true, true)
    ensures Parse(dict, base, text + " ;", at) ==
      Definition(Sources(Items(dict, base, text, at).value), |text| + 3)
    decreases |text| + 1 - at
  {
    hide Resolve, T.TokenAt, Control;
    TokenBefore(text, at);
    var all := text + " ;";
    if at >= |text| {
    } else {
      var t := T.TokenAt(text, at);
      if t.word != "" || t.next <= |text| {
        ParsesItems(dict, base, text, t.next);
        if t.word != "" {
          var m, rest := Resolve(dict, base, WordAt(text, at)), Items(dict, base, text, t.next).value;
          assert ([ItemOf(m)] + rest)[1..] == rest;
        }
      } else {
        assert Items(dict, base, text, t.next) == Some([]);
      }
    }
  }

  // ----- compiling plain text -----

  function ItemStmt(items: seq<I.Item>): Stmt {
    if items == [] then Skip
    else Seq(match items[0] case Number(n) => Lit(n) case Named(xt) => Word(xt), ItemStmt(items[1..]))
  }

  lemma {:induction false} ItemsAreStmt(items: seq<I.Item>)
    ensures var p := ItemStmt(items);
      Text(p) == Sources(items) && E.Raw(p) == I.ItemCells(items) && Depth(p) == 0
  {
    if items == [] {
    } else {
      ItemsAreStmt(items[1..]);
    }
  }

  /** Plain words and a semicolon compile to their cells, EXIT and the end mark. */
  lemma ItemsCompile(dcap: nat, k: Draft, items: seq<I.Item>)
    requires E.HasRoom(k, |I.ItemCells(items)| + 2) && |k.ds| <= dcap
    ensures CompileBody(dcap, k, Sources(items)) ==
      Ok(E.Grown(k, I.ItemCells(items) + [Xt(EXIT), Xt(SENTINEL)], k.ds))
  {
    hide Compile, E.Grown, Xt;
    var p, cells := ItemStmt(items), I.ItemCells(items);
    ItemsAreStmt(items);
    E.Emits(dcap, k, p);
    E.GrownRoom(k, cells, k.ds);
    E.CellGrown(k, cells, k.ds, [Xt(EXIT), Xt(SENTINEL)]);
  }

  /** The same from the text itself. */
  lemma LineCompiles(dcap: nat, dict: D.Dict, base: int, text: string, k: Draft)
    requires Items(dict, base, text, 0).Some?
    requires Resolve(dict, base, ";") == Found(SEMICOLON_XT, true, true)
    requires |k.ds| <= dcap
    requires E.HasRoom(k, |I.ItemCells(Items(dict, base, text, 0).value)| + 2)
    ensures CompileText(dcap, dict, base, text + " ;", 0, |k.ds|, k) ==
      Closed(E.Grown(k, I.ItemCells(Items(dict, base, text, 0).value) + [Xt(EXIT), Xt(SENTINEL)], k.ds), |text| + 3)
  {
    hide Resolve, Items, Parse, CompileText, Compile, Finish, E.Grown, Xt;
    ParsesItems(dict, base, text, 0);
    TextCompiles(dcap, dict, base, text + " ;", 0, |k.ds|, k);
    ItemsCompile(dcap, k, Items(dict, base, text, 0).value);
  }

  // ----- interpreting is compiling and running -----

  /** Every word of the dictionary has a token. */
  predicate Linked(w: World, dict: D.Dict) {
    dict.Entry? ==> dict.header.xt in w.tokens && Linked(w, dict.link)
  }

  lemma {:induction false} FoundIsLinked(w: World, dict: D.Dict, name: string)
    requires Linked(w, dict) && D.Find(dict, name).Entry?
    ensures D.Find(dict, name).header.xt in w.tokens
    decreases dict
  {
    if !D.SameName(dict.header.name, name) {
      FoundIsLinked(w, dict.link, name);
    }
  }

  lemma {:induction false} ItemsAreKnown(w: World, dict: D.Dict, base: int, text: string, at: nat)
    requires Linked(w, dict) && Items(dict, base, text, at).Some?
    ensures I.Known(w, Items(dict, base, text, at).value)
    decreases |text| + 1 - at
  {
    hide WordAt, After;
    if at >= |text| {
    } else {
      var word, next := WordAt(text, at), After(text, at);
      ItemsAreKnown(w, dict, base, text, next);
      if word != "" && Resolve(dict, base, word).Found? {
        FoundIsLinked(w, D.Visible(dict), word);
      }
    }
  }

  lemma {:induction false} ItemsAlike(d: D.Dict, e: D.Dict, base: int, text: string, at: nat)
    requires Alike(d, e, base)
    ensures Items(d, base, text, at) == Items(e, base, text, at)
    decreases |text| + 1 - at
  {
    hide Resolve;
    if at >= |text| {
    } else {
      ItemsAlike(d, e, base, text, After(text, at));
    }
  }

  lemma ItemsInMemory(mem: seq<int>, k: Draft, cells: seq<int>)
    requires E.HasRoom(k, |cells| + 2) && 0 < k.here
    requires mem == E.Grown(k, cells + [Xt(EXIT), Xt(SENTINEL)], k.ds).mem
    ensures Holds(mem, k.here, cells + [Xt(EXIT)])
  {
    var all := cells + [Xt(EXIT), Xt(SENTINEL)];
    assert mem[k.here..k.here + |all|] == all;
    assert mem[k.here..k.here + |all| - 1] == all[..|all| - 1] == cells + [Xt(EXIT)];
  }

  /** Interpreting a text of plain words, and calling the definition that a colon, a name, the same text and
      a semicolon make, give the same data stack or the same error, unless the return stack is short and
      one of the two overflows it.  The definition takes one call more to enter and one to leave. */
  lemma InterpretIsDefineAndCall(w: World, d: D.State, name: string, size: nat, sp: int, base: int, text: string,
                                 colon: int, k: Draft, k': Draft, next: nat, s: State, t: State, gas: nat)
    requires Builtins(w) && Linked(w, d.dict) && colon in w.tokens && w.tokens[colon].Threaded?
    requires d.dict.Entry? && !d.dict.header.compiling
    requires Resolve(d.dict, base, ";") == Found(SEMICOLON_XT, true, true)
    requires Items(d.dict, base, text, 0).Some?
    requires k.here == colon + 2 && 0 < k.here && |k.ds| <= w.dcap
    requires E.HasRoom(k, |I.ItemCells(Items(d.dict, base, text, 0).value)| + 2)
    requires var dict := D.Started(d, D.Colon, name, size, colon, sp).dict;
      CompileText(w.dcap, dict, base, text + " ;", 0, |k.ds|, k) == Closed(k', next) && w.mem == k'.mem
    requires 0 <= s.tr0 <= |s.rs| && 0 <= t.tr0 <= |t.rs| && s.ds == t.ds
    requires I.KeepsOff(w, Items(d.dict, base, text, 0).value, s.ds, gas)
    ensures var i, r := InterpretText(w, d.dict, base, text, 0, s, gas), Execute(w, true, colon, t, gas + 1);
      || I.RanShort(w, s, gas, i) || I.RanShort(w, t, gas + 1, r)
      || match i
         case Done(s', g) =>
           && s'.rs == s.rs && s'.tr0 == s.tr0
           && (if g == 0 then r.Spent? else r == Done(I.Resumed(t).(ds := s'.ds), g - 1))
         case Throw(_, _) => r == i
         case Spent(_) => r.Spent?
         case Fault => r.Fault?
  {
    hide Builtins, Resolve, CompileText, Items, Execute, I.Interpret, I.KeepsOff, Linked, I.Known, E.Grown, Xt, Holds,
      InterpretText, I.ItemCells, E.HasRoom;
    var dict := D.Started(d, D.Colon, name, size, colon, sp).dict;
    forall word: string | word != ""
      ensures Resolve(dict, base, word) == Resolve(d.dict, base, word)
    {
      DefinitionResolvesAlike(d, name, size, colon, sp, base, word);
    }
    ItemsAlike(dict, d.dict, base, text, 0);
    var items := Items(d.dict, base, text, 0).value;
    LineCompiles(w.dcap, dict, base, text, k);
    ItemsInMemory(w.mem, k, I.ItemCells(items));
    ItemsAreKnown(w, d.dict, base, text, 0);
    InterpretsItems(w, d.dict, base, text, 0, s, gas);
    I.InterpretIsCompileAndRun(w, items, colon, s, t, gas);
  }
}
