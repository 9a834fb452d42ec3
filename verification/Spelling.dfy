/** Source text spelled out.  The names of the control structures lead to their words through the dictionary,
    numbers through the parser; so the text of every structured program is read as that program.  And what
    the text interpreter refuses. */
module Spelling {
  import opened Words
  import opened Machine
  import opened Structured
  import opened Compiling
  import opened Evaluating
  import opened Frames
  import C = Correctness
  import D = Dictionary
  import Definitions
  import N = Numerals
  import NumberLaws
  import T = Conditional

  // ----- refusals -----

  /** A word that may only be compiled, and a word that is neither in the dictionary nor a number, end the
      interpretation of a text with their error; nothing behind them is looked at. */
  lemma Refuses(w: World, dict: D.Dict, base: int, text: string, at: nat, s: State, gas: nat)
    requires at < |text| && WordAt(text, at) != ""
    ensures var found := D.Find(D.Visible(dict), WordAt(text, at));
      found.Entry? && found.header.compOnly ==> InterpretText(w, dict, base, text, at, s, gas) == Throw(-14, s.ds)
    ensures var word := WordAt(text, at);
      D.Find(D.Visible(dict), word).Nil? && N.ReadNumber(word, |word|, base % 256, true, true, true).count != |word| ==>
        InterpretText(w, dict, base, text, at, s, gas) == Throw(-13, s.ds)
  {
    hide Execute, WordAt, N.ReadNumber;
  }

  /** A word in the dictionary is not tried as a number. */
  lemma NamesComeFirst(dict: D.Dict, base: int, word: string)
    requires word != "" && D.Find(D.Visible(dict), word).Entry?
    ensures var h := D.Find(D.Visible(dict), word).header;
      Evaluating.Resolve(dict, base, word) == Found(h.xt, h.immediate, h.compOnly)
  {
  }

  /** A word that is not in the dictionary is read as a number: in the base that the low eight bits of BASE give,
      or in that of its prefix, with or without a minus and in either case. */
  lemma NumbersAreRead(dict: D.Dict, base: int, prefix: string, b: N.Base, v: nat, negative: bool, small: bool)
    requires prefix == "" || NumberLaws.IsPrefix(prefix, b)
    ensures var word := (if negative then "-" else "") + prefix +
        NumberLaws.Spelled(v, if prefix == "" then N.Clamp(base % 256) else b, small);
      word != "" &&
      (D.Find(D.Visible(dict), word).Nil? ==>
         Evaluating.Resolve(dict, base, word) == Value(ToCell(if negative then 0 - v else v)))
  {
    hide D.Find, D.Visible, N.ReadNumber, NumberLaws.Spelled, NumberLaws.IsPrefix;
    var digits := NumberLaws.Spelled(v, if prefix == "" then N.Clamp(base % 256) else b, small);
    var word := (if negative then "-" else "") + prefix + digits;
    NumberLaws.SpelledReads(v, if prefix == "" then N.Clamp(base % 256) else b, small);
    assert word + "" == word;
    if prefix == "" {
      NumberLaws.PlainReads(negative, v, small, "", base % 256, true);
      assert (if negative then "-" else "") + prefix + digits == (if negative then "-" else "") + digits;
    } else {
      NumberLaws.PrefixedReads(negative, prefix, b, v, small, "", base % 256, true);
    }
  }

  // ----- names -----

  /** The name is that of the builtin at this place of e4__BUILTIN_XT, immediate and only to be compiled. */
  predicate Has(dict: D.Dict, name: string, place: nat) {
    var found := D.Find(D.Visible(dict), name);
    found.Entry? && found.header.xt == BUILTIN_XT + 2 * place && found.header.immediate && found.header.compOnly
  }

  /** The control structures, in the order in which the builtins are declared. */
  predicate HasControls(dict: D.Dict) {
    && Has(dict, "BEGIN", 9) && Has(dict, "DO", 29) && Has(dict, "ELSE", 35) && Has(dict, "IF", 50)
    && Has(dict, "LEAVE", 55) && Has(dict, "LOOP", 60) && Has(dict, "+LOOP", 78) && Has(dict, "REPEAT", 86)
    && Has(dict, ";", 92) && Has(dict, "THEN", 106) && Has(dict, "UNTIL", 126) && Has(dict, "WHILE", 128)
    && Has(dict, "AGAIN", 144) && Has(dict, "CASE", 148) && Has(dict, "ENDCASE", 154) && Has(dict, "ENDOF", 155)
    && Has(dict, "OF", 163) && Has(dict, "?DO", 166)
  }

  /** A word of the source as it is written; names gives the names of the other words. */
  function Spell1(s: Source, names: int -> string): string {
    match s
    case Ordinary(xt) => names(xt)
    case Number(n) => if n < 0 then "" else N.Numeral(n, 10)
    case WIf => "IF" case WElse => "ELSE" case WThen => "THEN"
    case WBegin => "BEGIN" case WWhile => "WHILE" case WRepeat => "REPEAT" case WUntil => "UNTIL" case WAgain => "AGAIN"
    case WDo => "DO" case WQuestionDo => "?DO" case WLoop => "LOOP" case WPlusLoop => "+LOOP" case WLeave => "LEAVE"
    case WCase => "CASE" case WOf => "OF" case WEndOf => "ENDOF" case WEndCase => "ENDCASE"
  }

  function Spell(text: seq<Source>, names: int -> string): string {
    if text == [] then "" else Spell1(text[0], names) + " " + Spell(text[1..], names)
  }

  /** A word that the text can hold: not empty, without blank or newline, not too long. */
  predicate IsWord(word: string) {
    0 < |word| <= 255 && forall i :: 0 <= i < |word| ==> !T.IsEnd(word[i])
  }

  /** The word can be written so that it is read as itself: a name leads to its token, which is not immediate,
      and a number is a cell and has not been given to a word as a name. */
  predicate Writable(dict: D.Dict, names: int -> string, s: Source) {
    match s
    case Ordinary(xt) =>
      IsWord(names(xt)) &&
      var found := D.Find(D.Visible(dict), names(xt));
      found.Entry? && found.header.xt == xt && !found.header.immediate
    case Number(n) =>
      0 <= n < MODULUS && |N.Numeral(n, 10)| <= 255 && D.Find(D.Visible(dict), N.Numeral(n, 10)).Nil?
    case _ => true
  }

  lemma PlaceIsTreated(dict: D.Dict, base: int, name: string, place: nat, s: Source)
    requires name != "" && Has(dict, name, place) && Control(BUILTIN_XT + 2 * place) == Some(s) && place != 92
    ensures Treat(Evaluating.Resolve(dict, base, name)) == Compiles(s)
  {
    hide D.Find, D.Visible, Control;
  }

  /** Where each word of the control structures is among the builtins. */
  function Place(s: Source): nat
    requires !s.Ordinary? && !s.Number?
  {
    match s
    case WBegin => 9 case WDo => 29 case WElse => 35 case WIf => 50 case WLeave => 55 case WLoop => 60
    case WPlusLoop => 78 case WRepeat => 86 case WThen => 106 case WUntil => 126 case WWhile => 128 case WAgain => 144
    case WCase => 148 case WEndCase => 154 case WEndOf => 155 case WOf => 163 case WQuestionDo => 166
  }

  lemma ControlAtPlace(s: Source)
    requires !s.Ordinary? && !s.Number?
    ensures Control(BUILTIN_XT + 2 * Place(s)) == Some(s) && Place(s) != 92
  {
  }

  lemma HasPlace(dict: D.Dict, names: int -> string, s: Source)
    requires HasControls(dict) && !s.Ordinary? && !s.Number?
    ensures Has(dict, Spell1(s, names), Place(s))
  {
    hide Has;
  }

  lemma ControlIsWord(names: int -> string, s: Source)
    requires !s.Ordinary? && !s.Number?
    ensures IsWord(Spell1(s, names))
  {
  }

  /** The name of a control structure is read as its word. */
  lemma ControlIsTreated(dict: D.Dict, base: int, names: int -> string, s: Source)
    requires HasControls(dict) && !s.Ordinary? && !s.Number?
    ensures IsWord(Spell1(s, names)) && Treat(Evaluating.Resolve(dict, base, Spell1(s, names))) == Compiles(s)
  {
    hide HasControls, Has, IsWord, Spell1, Place, Control, Evaluating.Resolve, Treat;
    ControlIsWord(names, s);
    ControlAtPlace(s);
    HasPlace(dict, names, s);
    NotEmpty(Spell1(s, names));
    PlaceIsTreated(dict, base, Spell1(s, names), Place(s), s);
  }

  lemma SemicolonCloses(dict: D.Dict, base: int)
    requires HasControls(dict)
    ensures IsWord(";") && Treat(Evaluating.Resolve(dict, base, ";")) == Closes
  {
    hide D.Find, D.Visible;
  }

  lemma NumeralIsWord(n: nat)
    requires |N.Numeral(n, 10)| <= 255
    ensures IsWord(N.Numeral(n, 10))
  {
    N.NumeralReads(n, 10);
    hide N.Numeral, N.Horner;
    var s := N.Numeral(n, 10);
    assert N.AreDigits(s, 10);
    forall i | 0 <= i < |s|
      ensures !T.IsEnd(s[i])
    {
      assert N.DigitOf(s[i]) < 10;
    }
  }

  /** Every writable word is read as itself. */
  lemma WordIsTreated(dict: D.Dict, names: int -> string, s: Source)
    requires HasControls(dict) && Writable(dict, names, s)
    ensures IsWord(Spell1(s, names)) && Treat(Evaluating.Resolve(dict, 10, Spell1(s, names))) == Compiles(s)
  {
    hide D.Find, D.Visible, N.Numeral, N.ReadNumber, IsWord, HasControls;
    if s.Number? {
      NumeralIsWord(s.n);
      NumberLaws.PlainReads(false, s.n, false, "", 10, true);
      var word := N.Numeral(s.n, 10);
      assert "" + NumberLaws.Spelled(s.n, 10, false) == word && word + "" == word;
      ModIs(s.n, MODULUS, 0, s.n);
      NotEmpty(word);
    } else if s.Ordinary? {
      NotEmpty(names(s.xt));
    } else {
      ControlIsTreated(dict, 10, names, s);
    }
  }

  lemma NotEmpty(word: string)
    requires IsWord(word)
    ensures word != ""
  {
  }

  // ----- texts -----

  lemma WordIsAt(text: string, at: nat, word: string)
    requires IsWord(word) && T.TextAt(text, at, word + " ")
    ensures at < |text| && WordAt(text, at) == word != "" && After(text, at) == at + |word| + 1
  {
    T.WordIsAt(text, at, word);
    T.TokenIs(text, at, word);
  }

  lemma SemicolonParses(dict: D.Dict, text: string, at: nat)
    requires HasControls(dict) && T.TextAt(text, at, ";" + " ")
    ensures Parse(dict, 10, text, at) == Definition([], at + 2)
  {
    hide Evaluating.Resolve, Treat, WordAt, After, IsWord, T.TextAt, HasControls;
    SemicolonCloses(dict, 10);
    WordIsAt(text, at, ";");
  }

  lemma OneParses(dict: D.Dict, names: int -> string, s: Source, text: string, at: nat)
    requires HasControls(dict) && Writable(dict, names, s) && T.TextAt(text, at, Spell1(s, names) + " ")
    ensures var p := Parse(dict, 10, text, at + |Spell1(s, names)| + 1);
      Parse(dict, 10, text, at) == if p.Definition? then Definition([s] + p.text, p.next) else p
  {
    hide Evaluating.Resolve, Treat, WordAt, After, IsWord, T.TextAt, HasControls, Writable, Spell1;
    WordIsTreated(dict, names, s);
    WordIsAt(text, at, Spell1(s, names));
  }

  /** The spelling of any writable text is read as that text. */
  lemma {:induction false} SpellingParses(dict: D.Dict, names: int -> string, sources: seq<Source>, text: string,
                                          at: nat)
    requires HasControls(dict) && forall i :: 0 <= i < |sources| ==> Writable(dict, names, sources[i])
    requires T.TextAt(text, at, Spell(sources, names) + "; ")
    ensures Parse(dict, 10, text, at) == Definition(sources, at + |Spell(sources, names)| + 2)
    decreases |sources|
  {
    hide Parse, Writable, Spell1, T.TextAt, HasControls;
    if sources == [] {
      assert "" + "; " == ";" + " ";
      SemicolonParses(dict, text, at);
    } else {
      var first, rest := Spell1(sources[0], names), Spell(sources[1..], names);
      assert Spell(sources, names) + "; " == (first + " ") + (rest + "; ");
      T.Parts(text, at, first + " ", rest + "; ");
      OneParses(dict, names, sources[0], text, at);
      SpellingParses(dict, names, sources[1..], text, at + |first| + 1);
      assert [sources[0]] + sources[1..] == sources;
    }
  }

  /** From characters to stacks: a structured program, written out with the names of the dictionary behind a
      colon and its name and closed by a semicolon, becomes a word that behaves as the program. */
  lemma SpelledProgramIsCorrect(w: World, d: D.State, name: string, size: nat, sp: int, names: int -> string, xt: int,
                                p: Stmt, k: Draft, k': Draft, next: nat, s: State, gas: nat)
    requires Builtins(w) && xt in w.tokens && w.tokens[xt].Threaded? && k.here == xt + 2 && 0 < k.here
    requires d.dict.Entry? && !d.dict.header.compiling && HasControls(d.dict)
    requires forall i :: 0 <= i < |Text(p)| ==> Writable(d.dict, names, Text(p)[i])
    requires Definitions.Compilable(w.dcap, k, p)
    requires var dict := D.Started(d, D.Colon, name, size, xt, sp).dict;
      CompileText(w.dcap, dict, 10, Spell(Text(p), names) + "; ", 0, |k.ds|, k) == Closed(k', next) && w.mem == k'.mem
    requires Framed(w, s)
    ensures var r := Execute(w, true, xt, s, gas);
      && C.Observe(r) == Definitions.Call(w, p, xt + 2, s, gas)
      && (r.Done? ==> r.s.ip == if s.ip == 0 then 0 else s.ip + 1)
  {
    hide Builtins, Definitions.Compilable, CompileText, Execute, Writable, HasControls, Parse, Spell, Framed;
    var text := Spell(Text(p), names) + "; ";
    assert text[0..|text|] == text;
    SpellingParses(d.dict, names, Text(p), text, 0);
    SourceTextIsCorrect(w, d, name, size, sp, 10, text, xt, p, k, k', next, s, gas);
  }
}
