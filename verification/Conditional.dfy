/** [IF], [ELSE] and [THEN]: skipping source text with a nesting depth, against a recursive descent through
    the nested text.  Section 15.6.2.2532 of Forth 2012. */
module Conditional {
  import opened Characters

  // ----- words of the source -----

  predicate IsEnd(c: char) {
    c == ' ' || c == '\n'
  }

  function SkipBlanks(text: string, i: nat): (r: nat)
    requires i <= |text|
    ensures i <= r <= |text| && (forall k :: i <= k < r ==> text[k] == ' ') && (r < |text| ==> text[r] != ' ')
    decreases |text| - i
  {
    if i < |text| && text[i] == ' ' then SkipBlanks(text, i + 1) else i
  }

  function WordEnd(text: string, i: nat): (r: nat)
    requires i <= |text|
    ensures i <= r <= |text| && (forall k :: i <= k < r ==> !IsEnd(text[k])) && (r < |text| ==> IsEnd(text[r]))
    decreases |text| - i
  {
    if i < |text| && !IsEnd(text[i]) then WordEnd(text, i + 1) else i
  }

  /** The text at >IN as words: a word, empty at the end of a line, and the place after the character that
      ended it. */
  datatype Token = Token(word: string, next: nat)

  function TokenAt(text: string, i: nat): (t: Token)
    requires i <= |text|
    ensures i < t.next <= |text| + 1
  {
    var start := SkipBlanks(text, i);
    var end := WordEnd(text, start);
    Token(text[start..end], end + 1)
  }

  /** e4__io_word keeps 255 characters of a word. */
  function Clamped(word: string): (w: string)
    ensures |w| <= 255 && (|word| <= 255 ==> w == word) && (word != "" ==> w != "")
    ensures |word| > 255 ==> |w| == 255 && w <= word
  {
    if |word| < 256 then word else word[..255]
  }

  /** e4__io_word, with a blank for delimiter: e4__mem_parse, then the word cut to length. */
  method IoWord(text: string, at: nat) returns (word: string, at': nat)
    ensures at <= |text| ==> word == Clamped(TokenAt(text, at).word) && at' == TokenAt(text, at).next
    ensures at > |text| ==> word == "" && at' == at + 1
  {
    hide TokenAt, Clamped;
    var sz: nat := if |text| > at then |text| - at else 0;
    var i: nat := at;
    while sz != 0 && text[i] == ' '
      invariant i + sz == at || i + sz == |text|
      invariant at <= |text| ==> i + sz == |text| && SkipBlanks(text, at) == SkipBlanks(text, i)
      invariant at > |text| ==> sz == 0 && i == at
    {
      i, sz := i + 1, sz - 1;
    }
    var start: nat, length: nat := i, 0;
    while sz != 0 && text[i] != ' ' && text[i] != '\n'
      invariant i == start + length
      invariant at <= |text| ==> i + sz == |text| && WordEnd(text, start) == WordEnd(text, i)
      invariant at > |text| ==> sz == 0 && i == at
    {
      i, sz, length := i + 1, sz - 1, length + 1;
    }
    var kept := if length < 256 then length else 255;
    word := if at <= |text| then text[start..start + kept] else "";
    at' := start + length + 1;
    if at <= |text| {
      WordRead(text, at, start, length);
    }
  }

  lemma WordRead(text: string, at: nat, start: nat, length: nat)
    requires at <= |text| && start == SkipBlanks(text, at) && start + length == WordEnd(text, start)
    ensures TokenAt(text, at).next == start + length + 1
    ensures Clamped(TokenAt(text, at).word) == text[start..start + if length < 256 then length else 255]
  {
  }

  /** A word, what stands before it and what ends it. */
  lemma WordsAreMaximal(text: string, i: nat)
    requires i <= |text|
    ensures var t := TokenAt(text, i);
      var end := t.next - 1;
      var start := end - |t.word|;
      && i <= start <= end <= |text| && t.word == text[start..end]
      && (forall k :: i <= k < start ==> text[k] == ' ')
      && (forall k :: start <= k < end ==> !IsEnd(text[k]))
      && (end < |text| ==> IsEnd(text[end]))
      && (t.word == "" ==> end == |text| || text[end] == '\n')
  {
  }

  /** A maximal run of characters that are neither blank nor newline. */
  predicate IsRun(text: string, i: nat, j: nat) {
    && i < j <= |text|
    && (forall k :: i <= k < j ==> !IsEnd(text[k]))
    && AfterEnd(text, i)
    && (j < |text| ==> IsEnd(text[j]))
  }

  /** The beginning of the text, or a place behind the end of a word. */
  predicate AfterEnd(text: string, i: nat) {
    i == 0 || i > |text| || IsEnd(text[i - 1])
  }

  datatype Span = Span(start: nat, end: nat)

  /** The places of the words that are met from position at on, empty ones aside. */
  function Spans(text: string, at: nat): seq<Span>
    decreases |text| + 1 - at
  {
    if at >= |text| then []
    else
      var t := TokenAt(text, at);
      (if t.word == "" then [] else [Span(t.next - 1 - |t.word|, t.next - 1)]) + Spans(text, t.next)
  }

  lemma SpansStep(text: string, at: nat, span: Span)
    requires at < |text|
    ensures var t := TokenAt(text, at);
      span in Spans(text, at) <==>
      (t.word != "" && span == Span(t.next - 1 - |t.word|, t.next - 1)) || span in Spans(text, t.next)
  {
    hide TokenAt;
  }

  /** A word is a maximal run. */
  lemma WordIsRun(text: string, at: nat)
    requires at < |text| && AfterEnd(text, at)
    ensures var t := TokenAt(text, at);
      && AfterEnd(text, t.next)
      && (t.word != "" ==> at <= t.next - 1 - |t.word| && IsRun(text, t.next - 1 - |t.word|, t.next - 1))
  {
  }

  /** A maximal run from there on is the word, or begins behind it. */
  lemma RunIsWordOrLater(text: string, at: nat, i: nat, j: nat)
    requires at < |text| && AfterEnd(text, at) && at <= i && IsRun(text, i, j)
    ensures var t := TokenAt(text, at);
      (t.word != "" && i == t.next - 1 - |t.word| && j == t.next - 1) || t.next <= i
  {
    var start := SkipBlanks(text, at);
    var end := WordEnd(text, start);
    assert start <= i by {
      assert !IsEnd(text[i]);
    }
    RunsMeet(text, start, end, i, j);
  }

  lemma RunsMeet(text: string, start: nat, end: nat, i: nat, j: nat)
    requires start <= end <= |text| && IsRun(text, i, j)
    requires (forall k :: start <= k < end ==> !IsEnd(text[k])) && (end < |text| ==> IsEnd(text[end]))
    requires AfterEnd(text, start) && start <= i
    ensures (i == start && j == end) || end < i
  {
  }

  /** Taking words one after the other meets every maximal run from there on, and nothing else. */
  lemma {:induction false} WordsAreRuns(text: string, at: nat, span: Span)
    requires AfterEnd(text, at)
    ensures span in Spans(text, at) <==> at <= span.start && IsRun(text, span.start, span.end)
    decreases |text| + 1 - at
  {
    hide TokenAt, Spans, AfterEnd, IsRun;
    if at >= |text| {
      NoSpans(text, at, span);
    } else {
      SpansStep(text, at, span);
      WordIsRun(text, at);
      WordsAreRuns(text, TokenAt(text, at).next, span);
      if at <= span.start && IsRun(text, span.start, span.end) {
        RunIsWordOrLater(text, at, span.start, span.end);
      }
    }
  }

  lemma NoSpans(text: string, at: nat, span: Span)
    requires at >= |text|
    ensures span !in Spans(text, at) && (at <= span.start ==> !IsRun(text, span.start, span.end))
  {
  }

  /** In order, each behind the end of the one before. */
  lemma {:induction false} SpansAscend(text: string, at: nat, i: nat)
    requires i < |Spans(text, at)|
    ensures at <= Spans(text, at)[i].start < Spans(text, at)[i].end
    ensures i + 1 < |Spans(text, at)| ==> Spans(text, at)[i].end < Spans(text, at)[i + 1].start
    decreases |text| + 1 - at
  {
    var t := TokenAt(text, at);
    var rest := Spans(text, t.next);
    if t.word == "" {
      SpansAscend(text, t.next, i);
    } else if i > 0 {
      SpansAscend(text, t.next, i - 1);
    } else if |rest| > 0 {
      SpansAscend(text, t.next, 0);
    }
  }

  // ----- structure -----

  function Folded(s: string): string {
    seq(|s|, i requires 0 <= i < |s| => Lower(s[i]))
  }

  datatype Skipped = Past(at: nat) | Unbalanced

  /** Skip well-nested text up to the [THEN] that closes it, or with alternative up to an [ELSE] of the same
      level if that comes first: one recursive call for each nested [IF] ... [THEN], whose own [ELSE] is of
      no account. */
  function Descend(text: string, at: nat, alternative: bool): (r: Skipped)
    ensures r.Past? ==> at < r.at <= |text| + 1
    decreases |text| + 1 - at
  {
    if at >= |text| then Unbalanced
    else
      var t := TokenAt(text, at);
      var word := Folded(t.word);
      if word == "[if]" then
        match Descend(text, t.next, false)
        case Past(after) => Descend(text, after, alternative)
        case Unbalanced => Unbalanced
      else if word == "[then]" || (alternative && word == "[else]") then Past(t.next)
      else Descend(text, t.next, alternative)
  }

  /** The same from inside depth - 1 nested conditionals. */
  function Climb(text: string, at: nat, depth: nat, alternative: bool): Skipped
    requires 0 < depth
    decreases depth
  {
    if depth == 1 then Descend(text, at, alternative)
    else match Descend(text, at, false)
      case Past(after) => Climb(text, after, depth - 1, alternative)
      case Unbalanced => Unbalanced
  }

  lemma FoldedLength(s: string)
    ensures |Folded(s)| == |s|
  {
  }

  /** One word of the loop. */
  lemma ClimbSteps(text: string, at: nat, depth: nat, alternative: bool)
    requires 0 < depth && at < |text|
    ensures var t := TokenAt(text, at);
      var word := Folded(t.word);
      Climb(text, at, depth, alternative) ==
        if word == "[if]" then Climb(text, t.next, depth + 1, alternative)
        else if word == "[then]" || (alternative && depth == 1 && word == "[else]") then
          if depth == 1 then Past(t.next) else Climb(text, t.next, depth - 1, alternative)
        else Climb(text, t.next, depth, alternative)
  {
    hide TokenAt, Folded;
  }

  /** The skipping loop of [IF] (alternative) and of [ELSE], on a text that stands for this line and all that
      refilling will bring, each closed by a newline: it moves >IN to just past the matching word; if there
      is none, the last refill fails and throws. */
  method Skip(text: string, at: nat, alternative: bool) returns (found: bool, at': nat)
    ensures found <==> Descend(text, at, alternative).Past?
    ensures found ==> Past(at') == Descend(text, at, alternative)
  {
    hide Descend, TokenAt;
    var depth := 1;
    at' := at;
    assert Climb(text, at', 1, alternative) == Descend(text, at, alternative);
    while depth > 0
      invariant 0 <= depth
      invariant Descend(text, at, alternative) == if depth == 0 then Past(at') else Climb(text, at', depth, alternative)
      decreases |text| + 1 - at', depth
    {
      if at' >= |text| {
        EndsUnbalanced(text, at', depth, alternative);
        return false, at';
      }
      ClimbSteps(text, at', depth, alternative);
      ghost var t := TokenAt(text, at');
      var word: string;
      word, at' := IoWord(text, at');
      FoldedLength(word);
      FoldedLength(t.word);
      if |word| == 4 && Folded(word) == "[if]" {
        depth := depth + 1;
      } else if alternative && |word| == 6 && Folded(word) == "[else]" {
        depth := if depth == 1 then 0 else depth;
      } else if |word| == 6 && Folded(word) == "[then]" {
        depth := depth - 1;
      }
    }
    found := true;
  }

  lemma EndsUnbalanced(text: string, at: nat, depth: nat, alternative: bool)
    requires 0 < depth && at >= |text|
    ensures Climb(text, at, depth, alternative) == Unbalanced
  {
  }

  // ----- well-nested text -----

  /** Source text as a tree.  A Plain word is none of the three. */
  datatype Source = Plain(word: string) | If(yes: seq<Source>, hasElse: bool, no: seq<Source>)

  predicate IsMark(word: string) {
    var f := Folded(word);
    f == "[if]" || f == "[else]" || f == "[then]"
  }

  predicate IsWord(word: string) {
    word != "" && !IsMark(word) && forall i :: 0 <= i < |word| ==> !IsEnd(word[i])
  }

  predicate Proper(sources: seq<Source>)
    decreases sources
  {
    forall i :: 0 <= i < |sources| ==> ProperOne(sources[i])
  }

  predicate ProperOne(s: Source)
    decreases s
  {
    match s
    case Plain(word) => IsWord(word)
    case If(yes, hasElse, no) => Proper(yes) && (if hasElse then Proper(no) else no == [])
  }

  /** The text itself, a blank after every word. */
  function Print(sources: seq<Source>): string
    decreases sources
  {
    if sources == [] then "" else PrintOne(sources[0]) + Print(sources[1..])
  }

  function PrintOne(s: Source): string
    decreases s
  {
    match s
    case Plain(word) => word + " "
    case If(yes, hasElse, no) =>
      "[IF] " + Print(yes) + (if hasElse then "[ELSE] " + Print(no) else "") + "[THEN] "
  }

  /** A word and a blank at position i. */
  predicate WordAt(text: string, i: nat, word: string) {
    i + |word| < |text| && text[i..i + |word|] == word && text[i + |word|] == ' '
  }

  lemma {:induction false} EndOfWord(text: string, i: nat, k: nat)
    requires i <= k < |text| && IsEnd(text[k]) && forall j :: i <= j < k ==> !IsEnd(text[j])
    ensures WordEnd(text, i) == k
    decreases k - i
  {
    if i >= k {
    } else {
      EndOfWord(text, i + 1, k);
    }
  }

  lemma TokenIs(text: string, i: nat, word: string)
    requires WordAt(text, i, word) && word != "" && forall j :: 0 <= j < |word| ==> !IsEnd(word[j])
    ensures TokenAt(text, i) == Token(word, i + |word| + 1)
  {
    forall j | i <= j < i + |word|
      ensures text[j] == word[j - i]
    {
      assert text[i..i + |word|][j - i] == text[j];
    }
    EndOfWord(text, i, i + |word|);
  }

  predicate TextAt(text: string, i: nat, part: string) {
    i + |part| <= |text| && text[i..i + |part|] == part
  }

  lemma Parts(text: string, i: nat, x: string, y: string)
    requires TextAt(text, i, x + y)
    ensures TextAt(text, i, x) && TextAt(text, i + |x|, y)
  {
    assert (x + y)[..|x|] == x && (x + y)[|x|..] == y;
    assert text[i..i + |x + y|][..|x|] == text[i..i + |x|];
    assert text[i..i + |x + y|][|x|..] == text[i + |x|..i + |x| + |y|];
  }

  lemma WordIsAt(text: string, i: nat, word: string)
    requires TextAt(text, i, word + " ")
    ensures WordAt(text, i, word)
  {
    Parts(text, i, word, " ");
    assert text[i + |word|..i + |word| + 1][0] == ' ';
  }

  lemma FoldedMatches(a: string, b: string)
    requires Folded(b) == b
    ensures Folded(a) == b <==> Matches(a, b)
  {
    forall i | 0 <= i < |a| && |a| == |b|
      ensures Lower(a[i]) == b[i] <==> SameLetter(a[i], b[i])
    {
      assert Folded(b)[i] == Lower(b[i]) == b[i];
      LowerJoinsCases(a[i], b[i]);
    }
    if |a| == |b| && Matches(a, b) {
      assert forall i :: 0 <= i < |a| ==> Folded(a)[i] == b[i];
    }
    if Folded(a) == b {
      assert forall i :: 0 <= i < |a| ==> Lower(a[i]) == Folded(a)[i] == b[i];
    }
  }

  /** The marks count in any case of their letters: an [IF] opens a level, a [THEN] closes one, an [ELSE] ends
      the search of an [IF] at its own level, and any other word is passed over. */
  lemma MarksInAnyCase(text: string, at: nat, alternative: bool)
    requires at < |text|
    ensures var t := TokenAt(text, at);
      Descend(text, at, alternative) ==
        if Matches(t.word, "[if]") then
          match Descend(text, t.next, false)
          case Past(after) => Descend(text, after, alternative)
          case Unbalanced => Unbalanced
        else if Matches(t.word, "[then]") || (alternative && Matches(t.word, "[else]")) then Past(t.next)
        else Descend(text, t.next, alternative)
  {
    var word := TokenAt(text, at).word;
    assert Folded("[if]") == "[if]" && Folded("[then]") == "[then]" && Folded("[else]") == "[else]";
    FoldedMatches(word, "[if]");
    FoldedMatches(word, "[then]");
    FoldedMatches(word, "[else]");
    DescendsOne(text, at, alternative);
  }

  /** A word ends at a blank or at a newline. */
  lemma EndsOfWords(c: char)
    ensures IsEnd(c) <==> c as int == 32 || c as int == 10
  {
  }

  /** Whole well-nested text is skipped whole, and the search goes on behind it. */
  lemma {:induction false} SkipsText(text: string, at: nat, sources: seq<Source>, alternative: bool)
    requires Proper(sources) && TextAt(text, at, Print(sources))
    ensures Descend(text, at, alternative) == Descend(text, at + |Print(sources)|, alternative)
    decreases sources, 1
  {
    hide Descend, TextAt, PrintOne;
    if sources == [] {
    } else {
      var first, rest := PrintOne(sources[0]), Print(sources[1..]);
      Parts(text, at, first, rest);
      SkipsOne(text, at, sources[0], alternative);
      SkipsText(text, at + |first|, sources[1..], alternative);
    }
  }

  /** One word of the descent. */
  lemma DescendsOne(text: string, at: nat, alternative: bool)
    requires at < |text|
    ensures var t := TokenAt(text, at);
      var word := Folded(t.word);
      Descend(text, at, alternative) ==
        if word == "[if]" then
          match Descend(text, t.next, false)
          case Past(after) => Descend(text, after, alternative)
          case Unbalanced => Unbalanced
        else if word == "[then]" || (alternative && word == "[else]") then Past(t.next)
        else Descend(text, t.next, alternative)
  {
    hide TokenAt, Folded;
  }

  lemma PlainAt(text: string, at: nat, word: string)
    requires IsWord(word) && TextAt(text, at, word + " ")
    ensures at < |text| && TokenAt(text, at) == Token(word, at + |word| + 1) && !IsMark(word)
  {
    hide Folded;
    WordIsAt(text, at, word);
    TokenIs(text, at, word);
  }

  lemma SkipsPlain(text: string, at: nat, word: string, alternative: bool)
    requires IsWord(word) && TextAt(text, at, word + " ")
    ensures Descend(text, at, alternative) == Descend(text, at + |word| + 1, alternative)
  {
    hide Descend, TokenAt, Folded, IsWord, TextAt;
    PlainAt(text, at, word);
    DescendsOne(text, at, alternative);
  }

  lemma MarkAt(text: string, at: nat, mark: string)
    requires mark == "[IF]" || mark == "[ELSE]" || mark == "[THEN]"
    requires TextAt(text, at, mark + " ")
    ensures at < |text| && TokenAt(text, at) == Token(mark, at + |mark| + 1)
    ensures Folded("[IF]") == "[if]" && Folded("[ELSE]") == "[else]" && Folded("[THEN]") == "[then]"
  {
    WordIsAt(text, at, mark);
    TokenIs(text, at, mark);
  }

  lemma SkipsMark(text: string, at: nat, mark: string, alternative: bool)
    requires mark == "[IF]" || mark == "[ELSE]" || mark == "[THEN]"
    requires TextAt(text, at, mark + " ")
    ensures var next := at + |mark| + 1;
      Descend(text, at, alternative) ==
        if mark == "[IF]" then
          match Descend(text, next, false)
          case Past(after) => Descend(text, after, alternative)
          case Unbalanced => Unbalanced
        else if mark == "[THEN]" || alternative then Past(next)
        else Descend(text, next, alternative)
  {
    hide Descend, TokenAt, Folded, TextAt;
    MarkAt(text, at, mark);
    DescendsOne(text, at, alternative);
  }

  lemma {:induction false} SkipsOne(text: string, at: nat, s: Source, alternative: bool)
    requires ProperOne(s) && TextAt(text, at, PrintOne(s))
    ensures Descend(text, at, alternative) == Descend(text, at + |PrintOne(s)|, alternative)
    decreases s, 0
  {
    hide Descend, TextAt, Print;
    match s
    case Plain(word) =>
      assert PrintOne(s) == word + " ";
      SkipsPlain(text, at, word, alternative);
    case If(yes, hasElse, no) =>
      IfParts(text, at, yes, hasElse, no);
      var mid := at + 5 + |Print(yes)|;
      SkipsMark(text, at, "[IF]", alternative);
      SkipsText(text, at + 5, yes, false);
      if hasElse {
        SkipsMark(text, mid, "[ELSE]", false);
        SkipsText(text, mid + 7, no, false);
        SkipsMark(text, mid + 7 + |Print(no)|, "[THEN]", false);
      } else {
        SkipsMark(text, mid, "[THEN]", false);
      }
  }

  /** Where the parts of a conditional stand. */
  lemma IfParts(text: string, at: nat, yes: seq<Source>, hasElse: bool, no: seq<Source>)
    requires TextAt(text, at, PrintOne(If(yes, hasElse, no)))
    ensures TextAt(text, at, "[IF]" + " ") && TextAt(text, at + 5, Print(yes))
    ensures var mid := at + 5 + |Print(yes)|;
      && |PrintOne(If(yes, hasElse, no))| == 12 + |Print(yes)| + (if hasElse then 7 + |Print(no)| else 0)
      && (if hasElse then
            && TextAt(text, mid, "[ELSE]" + " ") && TextAt(text, mid + 7, Print(no))
            && TextAt(text, mid + 7 + |Print(no)|, "[THEN]" + " ")
          else TextAt(text, mid, "[THEN]" + " "))
  {
    PrintIf(yes, hasElse, no);
    hide TextAt, Print, PrintOne;
    var x, mid := "[IF] " + Print(yes), at + 5 + |Print(yes)|;
    if hasElse {
      var y := x + ("[ELSE] " + Print(no));
      Parts(text, at, y, "[THEN] ");
      Parts(text, at, x, "[ELSE] " + Print(no));
      Parts(text, mid, "[ELSE] ", Print(no));
    } else {
      assert x + "" == x;
      Parts(text, at, x, "[THEN] ");
    }
    Parts(text, at, "[IF] ", Print(yes));
  }

  lemma PrintIf(yes: seq<Source>, hasElse: bool, no: seq<Source>)
    ensures PrintOne(If(yes, hasElse, no)) ==
      "[IF] " + Print(yes) + (if hasElse then "[ELSE] " + Print(no) else "") + "[THEN] "
    ensures "[IF]" + " " == "[IF] " && "[ELSE]" + " " == "[ELSE] " && "[THEN]" + " " == "[THEN] "
  {
    hide Print;
  }

  /** [IF] on a false flag: past its own [ELSE], or past its [THEN] if there is none; and [ELSE], reached
      after a true flag: past its [THEN].  Whatever is nested in between. */
  lemma SkipsToMatch(text: string, at: nat, sources: seq<Source>, mark: string, alternative: bool)
    requires Proper(sources)
    requires mark == "[THEN]" || (alternative && mark == "[ELSE]")
    requires TextAt(text, at, Print(sources) + (mark + " "))
    ensures Descend(text, at, alternative) == Past(at + |Print(sources)| + |mark| + 1)
  {
    hide Descend, TextAt, Print, Proper;
    Parts(text, at, Print(sources), mark + " ");
    SkipsText(text, at, sources, alternative);
    SkipsMark(text, at + |Print(sources)|, mark, alternative);
  }
}
