/** Escape sequences of S\" (section 6.2.2266 of Forth 2012): the chunked unescaper against a one-pass
    definition. */
module Unescaping {
  import opened Characters

  datatype Escape = Escape(bytes: string, consumed: nat) | Malformed

  predicate IsHex(c: char) {
    '0' <= Lower(c) <= '9' || 'a' <= Lower(c) <= 'f'
  }

  function HexValue(c: char): int
    requires IsHex(c)
  {
    if Lower(c) <= '9' then (Lower(c) - '0') as int else (Lower(c) - 'a') as int + 10
  }

  /** What the letter after a backslash stands for, where it is one character by itself. */
  function Simple(c: char): string {
    match c
    case 'a' => [7 as char] case 'b' => [8 as char] case 'e' => [27 as char] case 'f' => [12 as char]
    case 'l' => "\n" case 'n' => "\n" case 'q' => "\"" case '"' => "\"" case 'r' => "\r"
    case 't' => "\t" case 'v' => [11 as char] case 'z' => "\0" case '\\' => "\\"
    case 'm' => "\r\n"
    case _ => ""
  }

  /** The escape sequence at the start of s, after its backslash. */
  function EscapeAt(s: string): (e: Escape)
    requires s != "" && s[0] == '\\'
    ensures e.Escape? ==> 0 < |e.bytes| <= e.consumed <= |s|
  {
    if |s| < 2 then Malformed
    else if Simple(s[1]) != "" then Escape(Simple(s[1]), 2)
    else if s[1] == 'x' && |s| >= 4 && IsHex(s[2]) && IsHex(s[3]) then
      Escape([(HexValue(s[2]) * 16 + HexValue(s[3])) as char], 4)
    else Malformed
  }

  /** One pass over the text.  A malformed escape stays as it is. */
  function Unescape(s: string): (r: string)
    ensures |r| <= |s|
    ensures s != "" ==> r != ""
  {
    if s == "" then ""
    else if s[0] != '\\' then [s[0]] + Unescape(s[1..])
    else match EscapeAt(s)
      case Escape(bytes, n) => bytes + Unescape(s[n..])
      case Malformed => [s[0]] + Unescape(s[1..])
  }

  lemma UnescapesOne(s: string)
    requires s != "" && (s[0] == '\\' ==> EscapeAt(s).Malformed?)
    ensures Unescape(s) == [s[0]] + Unescape(s[1..])
  {
    hide EscapeAt;
  }

  lemma UnescapesSequence(s: string)
    requires s != "" && s[0] == '\\' && EscapeAt(s).Escape?
    ensures var e := EscapeAt(s);
      Unescape(s) == e.bytes + Unescape(s[e.consumed..])
  {
    hide EscapeAt;
  }

  /** The first n characters, taken one and n - 1 at a time. */
  lemma FirstAndMore(s: string, n: nat, rest: string)
    requires 0 < n <= |s|
    ensures s[1..][n - 1..] == s[n..]
    ensures [s[0]] + (s[1..][..n - 1] + rest) == s[..n] + rest
  {
    assert [s[0]] + s[1..][..n - 1] == s[..n];
  }

  lemma {:induction false} PlainRun(s: string, n: nat)
    requires n <= |s| && forall i :: 0 <= i < n ==> s[i] != '\\'
    ensures Unescape(s) == s[..n] + Unescape(s[n..])
  {
    hide Unescape, EscapeAt;
    if n == 0 {
      assert s[n..] == s;
    } else {
      PlainRun(s[1..], n - 1);
      UnescapesOne(s);
      FirstAndMore(s, n, Unescape(s[n..]));
    }
  }

  /** A backslash that starts no escape, and the plain characters after it. */
  lemma LiteralRun(s: string, n: nat)
    requires 0 < n <= |s| && s[0] == '\\' && EscapeAt(s).Malformed?
    requires forall i :: 1 <= i < n ==> s[i] != '\\'
    ensures Unescape(s) == s[..n] + Unescape(s[n..])
  {
    hide Unescape, EscapeAt;
    UnescapesOne(s);
    PlainRun(s[1..], n - 1);
    FirstAndMore(s, n, Unescape(s[n..]));
  }

  /** e4__mem_strnescape: take the next chunk off the text of len characters at position at. */
  method Strnescape(s: string, at: nat, len: nat) returns (more: bool, chunk: string, at': nat, len': nat)
    requires at + len <= |s|
    ensures more <==> len > 0
    ensures at' + len' == at + len && 0 <= |chunk| <= at' - at
    ensures more ==> chunk != "" && Unescape(s[at..at + len]) == chunk + Unescape(s[at'..at' + len'])
  {
    hide Unescape, EscapeAt;
    at', len', chunk := at, len, "";
    if len == 0 {
      return false, chunk, at', len';
    }
    more := true;
    ghost var text := s[at..at + len];
    var n := 0;
    if s[at] == '\\' {
      match EscapeAt(s[at..at + len])
      case Escape(bytes, consumed) =>
        UnescapesSequence(text);
        assert s[at + consumed..at + len] == text[consumed..];
        return true, bytes, at + consumed, len - consumed;
      case Malformed =>
        n := 1;
    }
    ghost var n0 := n;
    while n < len && s[at + n] != '\\'
      invariant n0 <= n <= len
      invariant forall i :: n0 <= i < n ==> text[i] != '\\'
    {
      n := n + 1;
    }
    if n0 == 1 {
      LiteralRun(text, n);
    } else {
      PlainRun(text, n);
    }
    chunk, at', len' := s[at..at + n], at + n, len - n;
    assert text[..n] == chunk && text[n..] == s[at'..at' + len'];
  }

  // ----- in place -----

  /** memmove of a chunk */
  method Copy(mem: array<char>, dst: nat, chunk: string)
    requires dst + |chunk| <= mem.Length
    modifies mem
    ensures mem[..] == old(mem[..])[..dst] + chunk + old(mem[..])[dst + |chunk|..]
  {
    forall i | 0 <= i < |chunk| {
      mem[dst + i] := chunk[i];
    }
  }

  /** Memory half-way: what was made of the text lies at dst, the rest of the text is as it was. */
  ghost predicate HalfWay(now: string, was: string, src: nat, len: nat, dst: nat, done: string, at: nat, left: nat) {
    && src + len <= |was| && dst + len <= |was| && (dst <= src || src + len <= dst)
    && src <= at && at + left == src + len && |done| <= at - src
    && now == was[..dst] + done + was[dst + |done|..]
    && now[at..at + left] == was[at..at + left]
    && Unescape(was[src..src + len]) == done + Unescape(was[at..at + left])
  }

  lemma HalfWayOn(now: string, next: string, was: string, src: nat, len: nat, dst: nat, done: string,
                  at: nat, left: nat, chunk: string, at': nat, left': nat)
    requires HalfWay(now, was, src, len, dst, done, at, left)
    requires at' + left' == at + left && |chunk| <= at' - at
    requires Unescape(now[at..at + left]) == chunk + Unescape(now[at'..at' + left'])
    requires next == now[..dst + |done|] + chunk + now[dst + |done| + |chunk|..]
    ensures HalfWay(next, was, src, len, dst, done + chunk, at', left')
  {
    hide Unescape;
    assert now[at'..at' + left'] == now[at..at + left][at' - at..];
    assert was[at'..at' + left'] == was[at..at + left][at' - at..];
    assert next[at'..at' + left'] == now[at'..at' + left'];
    assert next == was[..dst] + (done + chunk) + was[dst + |done| + |chunk|..];
    assert done + (chunk + Unescape(was[at'..at' + left'])) == done + chunk + Unescape(was[at'..at' + left']);
  }

  /** One chunk: taken off the text and put behind what there is. */
  method MoveChunk(mem: array<char>, ghost was: string, ghost src: nat, ghost len: nat, dst: nat, ghost done: string,
                   n: nat, at: nat, left: nat)
    returns (more: bool, at': nat, left': nat, k: nat, ghost chunk: string)
    requires n == |done| && HalfWay(mem[..], was, src, len, dst, done, at, left)
    modifies mem
    ensures more <==> left > 0
    ensures !more ==> mem[..] == old(mem[..])
    ensures more ==> left' < left && k == |chunk| && HalfWay(mem[..], was, src, len, dst, done + chunk, at', left')
  {
    hide Unescape, HalfWay;
    ghost var now := mem[..];
    HalfWayBounds(now, was, src, len, dst, done, at, left);
    var text: string;
    more, text, at', left' := Strnescape(mem[..], at, left);
    k, chunk := |text|, text;
    if more {
      Copy(mem, dst + n, text);
      HalfWayOn(now, mem[..], was, src, len, dst, done, at, left, text, at', left');
    }
  }

  /** The loop of e4__compile_estr, which writes what it makes of a text elsewhere in the same memory.
      Because no prefix of the output is longer than what it was made from, a target that does not lie
      inside the unread text never overtakes it. */
  method UnescapeInto(mem: array<char>, src: nat, len: nat, dst: nat) returns (n: nat)
    requires src + len <= mem.Length && dst + len <= mem.Length
    requires dst <= src || src + len <= dst
    modifies mem
    ensures var was := old(mem[..]);
      var text := Unescape(was[src..src + len]);
      n == |text| <= len && mem[..] == was[..dst] + text + was[dst + |text|..]
  {
    hide Unescape, HalfWay;
    var at, left, more, k := src, len, true, 0;
    ghost var was, done, chunk := mem[..], "", "";
    n := 0;
    HalfWayStarts(was, src, len, dst);
    while left > 0
      invariant n == |done| && HalfWay(mem[..], was, src, len, dst, done, at, left)
    {
      more, at, left, k, chunk := MoveChunk(mem, was, src, len, dst, done, n, at, left);
      n := n + k;
      done := done + chunk;
    }
    HalfWayEnds(mem[..], was, src, len, dst, done, at);
  }

  lemma HalfWayStarts(was: string, src: nat, len: nat, dst: nat)
    requires src + len <= |was| && dst + len <= |was| && (dst <= src || src + len <= dst)
    ensures HalfWay(was, was, src, len, dst, "", src, len)
  {
  }

  lemma HalfWayBounds(now: string, was: string, src: nat, len: nat, dst: nat, done: string, at: nat, left: nat)
    requires HalfWay(now, was, src, len, dst, done, at, left)
    ensures |now| == |was| && at + left == src + len <= |was| && dst + |done| + left <= |was|
  {
  }

  lemma HalfWayEnds(now: string, was: string, src: nat, len: nat, dst: nat, done: string, at: nat)
    requires HalfWay(now, was, src, len, dst, done, at, 0)
    ensures done == Unescape(was[src..src + len]) && |done| <= len
    ensures now == was[..dst] + done + was[dst + |done|..]
  {
    EmptyText(was[at..at]);
  }

  lemma EmptyText(s: string)
    requires s == ""
    ensures Unescape(s) == ""
  {
  }
}
