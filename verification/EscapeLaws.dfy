/** What each escape sequence of S\" stands for (section 6.2.2266 of Forth 2012), in character codes. */
module EscapeLaws {
  import opened Unescaping
  import Characters

  /** The escapes of one letter. */
  lemma Letters(rest: string)
    ensures Unescape("\\a" + rest) == [7 as char] + Unescape(rest)
    ensures Unescape("\\b" + rest) == [8 as char] + Unescape(rest)
    ensures Unescape("\\e" + rest) == [27 as char] + Unescape(rest)
    ensures Unescape("\\f" + rest) == [12 as char] + Unescape(rest)
    ensures Unescape("\\l" + rest) == [10 as char] + Unescape(rest)
    ensures Unescape("\\m" + rest) == [13 as char, 10 as char] + Unescape(rest)
    ensures Unescape("\\n" + rest) == [10 as char] + Unescape(rest)
    ensures Unescape("\\q" + rest) == [34 as char] + Unescape(rest)
    ensures Unescape("\\r" + rest) == [13 as char] + Unescape(rest)
    ensures Unescape("\\t" + rest) == [9 as char] + Unescape(rest)
    ensures Unescape("\\v" + rest) == [11 as char] + Unescape(rest)
    ensures Unescape("\\z" + rest) == [0 as char] + Unescape(rest)
    ensures Unescape("\\\"" + rest) == [34 as char] + Unescape(rest)
    ensures Unescape("\\\\" + rest) == [92 as char] + Unescape(rest)
  {
    hide Unescape, EscapeAt;
    Letter('a', [7 as char], rest);
    Letter('b', [8 as char], rest);
    Letter('e', [27 as char], rest);
    Letter('f', [12 as char], rest);
    Letter('l', [10 as char], rest);
    Letter('m', [13 as char, 10 as char], rest);
    Letter('n', [10 as char], rest);
    Letter('q', [34 as char], rest);
    Letter('r', [13 as char], rest);
    Letter('t', [9 as char], rest);
    Letter('v', [11 as char], rest);
    Letter('z', [0 as char], rest);
    Letter('"', [34 as char], rest);
    Letter('\\', [92 as char], rest);
    Pairs();
  }

  lemma Pairs()
    ensures "\\a" == ['\\', 'a'] && "\\b" == ['\\', 'b'] && "\\e" == ['\\', 'e'] && "\\f" == ['\\', 'f']
    ensures "\\l" == ['\\', 'l'] && "\\m" == ['\\', 'm'] && "\\n" == ['\\', 'n'] && "\\q" == ['\\', 'q']
    ensures "\\r" == ['\\', 'r'] && "\\t" == ['\\', 't'] && "\\v" == ['\\', 'v'] && "\\z" == ['\\', 'z']
    ensures "\\\"" == ['\\', '"'] && "\\\\" == ['\\', '\\']
  {
  }

  lemma Letter(c: char, bytes: string, rest: string)
    requires bytes == Simple(c) != ""
    ensures Unescape(['\\', c] + rest) == bytes + Unescape(rest)
  {
    var s := ['\\', c] + rest;
    assert s[1] == c && s[2..] == rest;
    assert EscapeAt(s) == Escape(bytes, 2);
    UnescapesSequence(s);
  }

  // ----- hexadecimal -----

  const LOWER_DIGITS: string := "0123456789abcdef"
  const UPPER_DIGITS: string := "0123456789ABCDEF"

  function HexDigit(d: int, upper: bool): char
    requires 0 <= d < 16
  {
    (if upper then UPPER_DIGITS else LOWER_DIGITS)[d]
  }

  predicate IsByte(c: char) {
    c as int < 256
  }

  /** Every byte as \\x and two hexadecimal digits; upper says which of the digits are in upper case. */
  function HexText(t: string, upper: nat -> bool): string
    requires forall i :: 0 <= i < |t| ==> IsByte(t[i])
  {
    if t == "" then ""
    else
      assert IsByte(t[0]);
      var c := t[0] as int;
      ['\\', 'x', HexDigit(c / 16, upper(0)), HexDigit(c % 16, upper(1))] + HexText(t[1..], (n: nat) => upper(n + 2))
  }

  lemma HexDigitReads(d: int, upper: bool)
    requires 0 <= d < 16
    ensures IsHex(HexDigit(d, upper)) && HexValue(HexDigit(d, upper)) == d
  {
  }

  /** Text written as hexadecimal escapes reads as itself. */
  lemma {:induction false} HexReadsBack(t: string, upper: nat -> bool)
    requires forall i :: 0 <= i < |t| ==> IsByte(t[i])
    ensures Unescape(HexText(t, upper)) == t
    decreases |t|
  {
    hide Unescape, EscapeAt, HexDigit, HexValue, IsHex;
    if t == "" {
      EmptyReads();
    } else {
      var c := t[0] as int;
      var more: nat -> bool := (n: nat) => upper(n + 2);
      OneHex(c, upper(0), upper(1), HexText(t[1..], more));
      HexReadsBack(t[1..], more);
      assert [c as char] + t[1..] == t;
    }
  }

  lemma EmptyReads()
    ensures Unescape("") == ""
  {
  }

  lemma OneHex(c: int, upper: bool, upper2: bool, rest: string)
    requires 0 <= c < 256
    ensures Unescape(['\\', 'x', HexDigit(c / 16, upper), HexDigit(c % 16, upper2)] + rest) ==
      [c as char] + Unescape(rest)
  {
    var s := ['\\', 'x', HexDigit(c / 16, upper), HexDigit(c % 16, upper2)] + rest;
    HexDigitReads(c / 16, upper);
    HexDigitReads(c % 16, upper2);
    hide Unescape, HexDigit, HexValue, IsHex;
    assert s[1] == 'x' && s[4..] == rest;
    assert c / 16 * 16 + c % 16 == c;
    assert EscapeAt(s) == Escape([c as char], 4);
    UnescapesSequence(s);
  }

  // ----- what is no escape -----

  predicate IsHexDigit(c: char) {
    c in LOWER_DIGITS || c in UPPER_DIGITS
  }

  /** A backslash at the end, before any other letter, or before x without two hexadecimal digits. */
  predicate IsMalformed(s: string) {
    s != "" && s[0] == '\\' &&
    (|s| == 1 || s[1] !in "abeflmnqrtvxz\"\\" ||
     (s[1] == 'x' && (|s| < 4 || !IsHexDigit(s[2]) || !IsHexDigit(s[3]))))
  }

  /** What does not start with a backslash stands for itself, and a malformed escape is kept as it is. */
  lemma Kept(s: string)
    requires s != "" && (s[0] != '\\' || IsMalformed(s))
    ensures Unescape(s) == [s[0]] + Unescape(s[1..])
  {
    if s[0] == '\\' && |s| > 1 {
      HexDigits(s);
    }
    UnescapesOne(s);
  }

  lemma HexDigits(s: string)
    requires |s| > 1 && IsMalformed(s)
    ensures EscapeAt(s).Malformed?
  {
    forall c: char
      ensures IsHex(c) <==> IsHexDigit(c)
    {
      HexIsDigit(c);
    }
  }

  lemma HexIsDigit(c: char)
    ensures IsHex(c) <==> IsHexDigit(c)
  {
    Characters.LowerJoinsCases(c, c);
    assert forall i :: 0 <= i < 10 ==> LOWER_DIGITS[i] == '0' + i as char && UPPER_DIGITS[i] == '0' + i as char;
    assert forall i :: 10 <= i < 16 ==>
      LOWER_DIGITS[i] == 'a' + (i - 10) as char && UPPER_DIGITS[i] == 'A' + (i - 10) as char;
    if '0' <= c <= '9' {
      assert LOWER_DIGITS[(c - '0') as int] == c;
    } else if 'a' <= c <= 'f' {
      assert LOWER_DIGITS[(c - 'a') as int + 10] == c;
    } else if 'A' <= c <= 'F' {
      assert UPPER_DIGITS[(c - 'A') as int + 10] == c;
    }
  }
}
