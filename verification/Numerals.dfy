/** Printing and reading numbers: pictured numeric output, the fixed-buffer formatter and the parser of the
    outer interpreter. */
module Numerals {
  import opened Words
  import opened Doubles
  import opened Division

  const E_PNOOVERFLOW := -17

  // ----- numerals -----

  type Base = b: int | 2 <= b <= 36 witness 10

  /** The printers of e4__mem clamp a base to what has digits. */
  function Clamp(base: int): Base {
    if base < 2 then 2 else if base > 36 then 36 else base
  }

  function DigitChar(d: int): char
    requires 0 <= d < 36
  {
    if d < 10 then '0' + d as char else 'A' + (d - 10) as char
  }

  /** All digits of v, none at all for zero. */
  function Digits(v: nat, base: Base): string {
    if v == 0 then "" else QuotientShrinks(v, base); Digits(v / base, base) + [DigitChar(v % base)]
  }

  /** The usual numeral, without leading zeros. */
  function Numeral(v: nat, base: Base): string {
    QuotientShrinks(v, base); Digits(v / base, base) + [DigitChar(v % base)]
  }

  function SignedNumeral(n: int, base: Base): string {
    if n < 0 then "-" + Numeral(0 - n, base) else Numeral(n, base)
  }

  lemma QuotientShrinks(v: nat, base: Base)
    ensures 0 <= v / base <= v && 0 <= v % base < 36
    ensures 0 < v ==> v / base < v
  {
    var q := v / base;
    assert v == q * base + v % base;
    MulAtLeast(2, base, q);
    QuotientPositive(v, base);
  }

  lemma {:induction false} DigitsFit(v: nat, base: Base, k: nat)
    requires v < Pow2(k)
    ensures |Digits(v, base)| <= k
  {
    if v == 0 {
    } else {
      HalfFits(v, base, k);
      QuotientShrinks(v, base);
      DigitsFit(v / base, base, k - 1);
    }
  }

  /** A numeral of a k-bit number takes at most k digits, in base 2 and above. */
  lemma NumeralFits(v: nat, base: Base, k: nat)
    requires v < Pow2(k) && 0 < k
    ensures |Numeral(v, base)| <= k
  {
    HalfFits(v, base, k);
    DigitsFit(v / base, base, k - 1);
  }

  lemma HalfFits(v: nat, base: Base, k: nat)
    requires v < Pow2(k) && 0 < k
    ensures 0 <= v / base < Pow2(k - 1) && 0 <= v % base < 36
  {
    QuotientShrinks(v, base);
    MulAtLeast(2, base, v / base);
  }

  /** What a printer shows of a double. */
  function Shown(ud: Double, signed: bool, base: Base): string {
    if signed then SignedNumeral(SignedValue(ud), base) else ValueBounds(ud); Numeral(Value(ud), base)
  }

  // ----- pictured numeric output -----

  /** e4__mem_pno_digit */
  method PnoDigit(buf: array<char>, end: int, base: int, ud: Double) returns (res: int, end': int, ud': Double)
    requires 0 <= end < buf.Length
    modifies buf
    ensures res == E_OK && end' == end - 1
    ensures 0 <= Value(ud) && 0 <= Value(ud) % Clamp(base) < 36
    ensures buf[..] == old(buf[..])[end := DigitChar(Value(ud) % Clamp(base))]
    ensures Value(ud') == Value(ud) / Clamp(base)
  {
    var digit: Usize;
    WidthFacts();
    res, ud', digit := Div(ud, Clamp(base), false, false);
    DivideIs(Value(ud), Clamp(base), Value(ud'), digit);
    ValueBounds(ud);
    buf[end] := DigitChar(digit);
    end' := end - 1;
  }

  /** The buffer, with text written so that it ends at position end. */
  predicate Laid(now: string, was: string, end: int, text: string) {
    |text| <= end + 1 <= |was| && now == was[..end + 1 - |text|] + text + was[end + 1..]
  }

  lemma LaidFrame(now: string, was: string, end: int, text: string, len: nat)
    requires Laid(now, was, end, text) && |text| <= len <= end + 1
    ensures |now| == |was|
    ensures now[..end + 1 - len] == was[..end + 1 - len] && now[end + 1..] == was[end + 1..]
  {
  }

  lemma LaidMore(now: string, was: string, end: int, text: string, c: char)
    requires Laid(now, was, end, text) && |text| < end + 1
    ensures Laid(now[end - |text| := c], was, end, [c] + text)
  {
  }

  lemma NumeralSteps(v: nat, base: Base)
    ensures 0 <= v / base && 0 <= v % base < 36
    ensures Numeral(v, base) == Digits(v / base, base) + [DigitChar(v % base)]
    ensures v != 0 ==> Digits(v, base) == Digits(v / base, base) + [DigitChar(v % base)]
  {
    QuotientShrinks(v, base);
  }

  lemma NotZero(d: Double)
    ensures Value(d) == 0 <==> d.high == 0 && d.low == 0
  {
    MulAtLeast(1, d.high, MODULUS);
  }

  /** What the digit loop has written of v, with rest still to come. */
  ghost predicate Printed(v: nat, base: Base, rest: int, text: string) {
    0 <= rest && if text == "" then rest == v else Numeral(v, base) == Digits(rest, base) + text
  }

  lemma PrintsOne(v: nat, base: Base, rest: int, text: string)
    requires Printed(v, base, rest, text) && (text != "" ==> rest != 0)
    ensures 0 <= rest % base < 36 && Printed(v, base, rest / base, [DigitChar(rest % base)] + text)
  {
    NumeralSteps(rest, base);
  }

  lemma DigitsLeft(v: nat, base: Base)
    ensures (v == 0 ==> Digits(v, base) == "") && (v != 0 ==> 0 < |Digits(v, base)|)
  {
  }

  /** The digit loop of e4__mem_pno_digits. */
  method Magnitude(buf: array<char>, end: int, len: nat, base: int, ud: Double)
    returns (res: int, end': int, left: nat, ghost text: string)
    requires 0 <= end < buf.Length
    requires len <= end + 1 || (0 <= Value(ud) && |Numeral(Value(ud), Clamp(base))| <= end + 1)
    modifies buf
    ensures 0 <= Value(ud)
    ensures end' == end - |text| && left + |text| == len && Laid(buf[..], old(buf[..]), end, text)
    ensures res == if |Numeral(Value(ud), Clamp(base))| <= len then E_OK else E_PNOOVERFLOW
    ensures res == E_OK ==> text == Numeral(Value(ud), Clamp(base))
    ensures res != E_OK ==> left == 0
  {
    hide Numeral, Digits;
    var ud' := ud;
    left, text, res, end' := len, "", E_OK, end;
    ghost var was := buf[..];
    ValueBounds(ud);
    ghost var v: nat, b := Value(ud), Clamp(base);
    while true
      invariant end' == end - |text| && left + |text| == len
      invariant Printed(v, b, Value(ud'), text) && (text != "" ==> Value(ud') != 0)
      invariant Laid(buf[..], was, end, text)
      decreases left
    {
      if left == 0 {
        res := E_PNOOVERFLOW;
        break;
      }
      ghost var rest := Value(ud');
      PrintsOne(v, b, rest, text);
      DigitsLeft(rest, b);
      NumeralSteps(v, b);
      LaidFrame(buf[..], was, end, text, |text|);
      LaidMore(buf[..], was, end, text, DigitChar(rest % b));
      res, end', ud' := PnoDigit(buf, end', base, ud');
      left := left - 1;
      text := [DigitChar(rest % b)] + text;
      NotZero(ud');
      if ud'.high == 0 && ud'.low == 0 {
        break;
      }
    }
    DigitsLeft(Value(ud'), b);
    if res != E_OK && text == "" {
      NumeralSteps(v, b);
    }
  }

  /** e4__mem_pno_digits: the number from right to left, within len characters. */
  method PnoDigits(buf: array<char>, end: int, len: nat, base: int, signed: bool, ud: Double)
    returns (res: int, end': int)
    requires 0 <= end < buf.Length
    requires len <= end + 1 || |Shown(ud, signed, Clamp(base))| <= end + 1
    modifies buf
    ensures var text := Shown(ud, signed, Clamp(base));
      && res == (if |text| <= len then E_OK else E_PNOOVERFLOW)
      && (res == E_OK ==> end' == end - |text| && Laid(buf[..], old(buf[..]), end, text))
    ensures var low := if len <= end + 1 then end + 1 - len else 0;
      buf[..low] == old(buf[..low]) && buf[end + 1..] == old(buf[end + 1..])
  {
    hide Numeral;
    ghost var was := buf[..];
    var ud', negative := ud, false;
    ValueBounds(ud);
    if signed {
      negative := IsNegative(ud.high);
      if negative {
        ud' := NegateDouble(ud);
        NegateDoubleIs(ud);
      }
    }
    var left: nat;
    ghost var text: string;
    res, end', left, text := Magnitude(buf, end, len, base, ud');
    LaidFrame(buf[..], was, end, text, if len <= end + 1 then len else end + 1);
    if negative {
      if left == 0 {
        res := E_PNOOVERFLOW;
      } else {
        LaidMore(buf[..], was, end, text, '-');
        LaidFrame(buf[..][end' := '-'], was, end, ['-'] + text, if len <= end + 1 then len else end + 1);
        buf[end'] := '-';
        end' := end' - 1;
      }
    }
  }

  // ----- the fixed-buffer formatter -----

  /** The text a buffer of sz characters shows: all of it, or the sign and as many low digits as fit. */
  function Cropped(text: string, negative: bool, sz: nat): string
    requires negative ==> 0 < sz && 0 < |text|
  {
    if |text| <= sz then text
    else if negative then "-" + text[|text| + 1 - sz..]
    else text[|text| - sz..]
  }

  /** The digit loop of e4__usize_format: from the right until there are none left, or no room above low. */
  method FormatDigits(n: Usize, base: Base, buf: array<char>, sz: nat, low: nat)
    returns (at: nat, ghost rest: nat, ghost text: string)
    requires low <= sz <= buf.Length
    modifies buf
    ensures at == sz - |text| && low <= at && Laid(buf[..], old(buf[..]), sz - 1, text)
    ensures Printed(n, base, rest, text) && (rest != 0 || text == "" ==> at == low)
  {
    hide Numeral, Digits, Printed, Laid;
    var left: nat := n;
    ghost var was := buf[..];
    at, text := sz, "";
    PrintedNothing(n, base);
    LaidNothing(was, sz - 1);
    while at > low
      invariant low <= at == sz - |text|
      invariant Printed(n, base, left, text) && (text != "" ==> left != 0)
      invariant Laid(buf[..], was, sz - 1, text)
      decreases at
    {
      LaidFrame(buf[..], was, sz - 1, text, |text|);
      PrintsOne(n, base, left, text);
      QuotientShrinks(left, base);
      var c, quotient := DigitChar(left % base), left / base;
      LaidMore(buf[..], was, sz - 1, text, c);
      at := at - 1;
      buf[at] := c;
      text := [c] + text;
      left := quotient;
      if left == 0 {
        break;
      }
    }
    rest := left;
  }

  lemma PrintedNothing(v: nat, base: Base)
    ensures Printed(v, base, v, "")
  {
  }

  lemma LaidNothing(was: string, end: int)
    requires 0 <= end + 1 <= |was|
    ensures Laid(was, was, end, "")
  {
  }

  /** e4__usize_format */
  method UsizeFormat(n: Usize, base: Base, signed: bool, buf: array<char>, sz: nat) returns (at: nat)
    requires sz <= buf.Length && (signed && IsNegative(n) ==> 0 < sz)
    modifies buf
    ensures var text := SignedNumeral(if signed then Signed(n) else n, base);
      && 0 < |text|
      && var shown := Cropped(text, signed && IsNegative(n), sz);
         at == sz - |shown| && Laid(buf[..], old(buf[..]), sz - 1, shown)
  {
    hide Numeral, Digits, Printed, Laid, Cropped;
    var v: Usize, negative := n, false;
    ghost var was := buf[..];
    NegateMagnitude(n);
    if signed {
      negative := IsNegative(n);
      if negative {
        v := Negate(n);
      }
    }
    ghost var rest: nat, text: string;
    at, rest, text := FormatDigits(v, base, buf, sz, if negative then 1 else 0);
    NumeralSteps(v, base);
    CroppedIs(v, base, rest, text, negative, sz);
    if negative {
      LaidFrame(buf[..], was, sz - 1, text, |text|);
      LaidMore(buf[..], was, sz - 1, text, '-');
      at := at - 1;
      buf[at] := '-';
    }
  }

  lemma CroppedIs(v: nat, base: Base, rest: nat, text: string, negative: bool, sz: nat)
    requires Printed(v, base, rest, text) && |text| + (if negative then 1 else 0) <= sz
    requires rest != 0 || text == "" ==> |text| + (if negative then 1 else 0) == sz
    ensures var full := if negative then "-" + Numeral(v, base) else Numeral(v, base);
      Cropped(full, negative, sz) == if negative then "-" + text else text
  {
    DigitsLeft(rest, base);
    NumeralSteps(v, base);
    hide Digits, Numeral;
  }

  // ----- the parser -----

  /** Value of a digit in either case; 36 is no digit of any base. */
  function DigitOf(c: char): (d: int)
    ensures 0 <= d <= 36
  {
    if '0' <= c <= '9' then (c - '0') as int
    else if 'a' <= c <= 'z' then (c - 'a') as int + 10
    else if 'A' <= c <= 'Z' then (c - 'A') as int + 10
    else 36
  }

  datatype Start = Start(at: nat, base: Base, negate: bool)

  /** Sign and base prefix: a minus, then $ # % or, in a text of at least three characters, 0x 0o 0b. */
  function NumberStart(buf: string, length: nat, base: Base, negPrefix: bool, basePrefix: bool): (s: Start)
    requires length <= |buf| && (negPrefix ==> 0 < |buf|)
    ensures s.at <= 1 || s.at <= length
  {
    var negate := negPrefix && buf[0] == '-';
    var i := if negate then 1 else 0;
    if !basePrefix || length <= 1 then Start(i, base, negate)
    else if buf[i] == '$' then Start(i + 1, 16, negate)
    else if buf[i] == '#' then Start(i + 1, 10, negate)
    else if buf[i] == '%' then Start(i + 1, 2, negate)
    else if buf[i] == '0' && length > 2 && buf[i + 1] in "xX" then Start(i + 2, 16, negate)
    else if buf[i] == '0' && length > 2 && buf[i + 1] in "oO" then Start(i + 2, 8, negate)
    else if buf[i] == '0' && length > 2 && buf[i + 1] in "bB" then Start(i + 2, 2, negate)
    else Start(i, base, negate)
  }

  /** End of the run of digits that starts at i. */
  function DigitsEnd(buf: string, i: nat, length: nat, base: Base): (e: nat)
    requires length <= |buf|
    ensures i <= e && (e <= length || e == i)
    decreases length - i
  {
    if i < length && DigitOf(buf[i]) < base then DigitsEnd(buf, i + 1, length, base) else i
  }

  /** The number that a run of digits stands for. */
  function Horner(s: string, base: Base): nat {
    if s == "" then 0 else Horner(s[..|s| - 1], base) * base + DigitOf(s[|s| - 1])
  }

  /** Is the C type char signed? */
  const CHAR_IS_SIGNED: bool

  /** The value of a byte read as a char. */
  function CharValue(c: char): int {
    if CHAR_IS_SIGNED && c as int >= 128 then c as int - 256 else c as int
  }

  predicate IsCharLiteral(buf: string, length: nat)
    requires length <= |buf|
  {
    length > 2 && buf[0] == '\'' && buf[2] == '\''
  }

  datatype Reading = Reading(count: nat, out: Usize)

  /** How many characters make up a number, and the cell it stands for; none if count is zero. */
  function ReadNumber(buf: string, length: nat, base: int, charLiteral: bool, negPrefix: bool, basePrefix: bool)
    : Reading
    requires length <= |buf| && (negPrefix ==> 0 < |buf|)
  {
    if charLiteral && IsCharLiteral(buf, length) then Reading(3, ToCell(CharValue(buf[1])))
    else
      var s := NumberStart(buf, length, Clamp(base), negPrefix, basePrefix);
      var e := DigitsEnd(buf, s.at, length, s.base);
      if e == s.at then Reading(0, 0)
      else
        var v := Horner(buf[s.at..e], s.base);
        Reading(e, ToCell(if s.negate then 0 - v else v))
  }

  /** count characters make up a number, out; out does not matter if count is zero. */
  ghost predicate Reads(buf: string, length: nat, base: int, charLiteral: bool, negPrefix: bool, basePrefix: bool,
                        count: nat, out: Usize)
    requires length <= |buf| && (negPrefix ==> 0 < |buf|)
  {
    var r := ReadNumber(buf, length, base, charLiteral, negPrefix, basePrefix);
    count == r.count && (count > 0 ==> out == r.out)
  }

  /** The sign and prefix part of e4__mem_number. */
  method SkipPrefix(buf: string, length: nat, base: Base, negPrefix: bool, basePrefix: bool)
    returns (i: nat, b: Base, negate: bool)
    requires length <= |buf| && (negPrefix ==> 0 < |buf|)
    ensures Start(i, b, negate) == NumberStart(buf, length, base, negPrefix, basePrefix)
  {
    i, b, negate := 0, base, false;
    if negPrefix && buf[0] == '-' {
      negate := true;
      i := i + 1;
    }
    if basePrefix && length > 1 {
      var c := buf[i];
      i := i + 1;
      match c
      case '0' =>
        if length > 2 {
          var x := buf[i];
          i := i + 1;
          if x == 'x' || x == 'X' {
            b := 16;
          } else if x == 'o' || x == 'O' {
            b := 8;
          } else if x == 'b' || x == 'B' {
            b := 2;
          } else {
            i := i - 2;
          }
        } else {
          i := i - 1;
        }
      case '$' => b := 16;
      case '#' => b := 10;
      case '%' => b := 2;
      case _ => i := i - 1;
    }
  }

  /** e4__mem_number */
  method Number(buf: string, length: nat, base: int, charLiteral: bool, negPrefix: bool, basePrefix: bool)
    returns (count: nat, out: Usize)
    requires length <= |buf| && (negPrefix ==> 0 < |buf|)
    ensures Reads(buf, length, base, charLiteral, negPrefix, basePrefix, count, out)
  {
    hide Horner, NumberStart;
    if charLiteral && length > 2 && buf[0] == '\'' && buf[2] == '\'' {
      return 3, ToCell(CharValue(buf[1]));
    }
    var start, b, negate := SkipPrefix(buf, length, Clamp(base), negPrefix, basePrefix);
    var i := start;
    var result: Usize, number := 0, false;
    HornerEmpty(b);
    while i < length
      invariant start <= i && (i <= length || i == start)
      invariant number <==> i > start
      invariant DigitsEnd(buf, start, length, b) == DigitsEnd(buf, i, length, b)
      invariant if number then result == ToCell(Horner(buf[start..i], b)) else result == 0
    {
      var d := DigitOf(buf[i]);
      if d >= b {
        break;
      }
      assert !number ==> buf[start..i] == "";
      HornerSteps(buf, start, i, b, result, d);
      result := result * b % MODULUS;
      result := (result + d) % MODULUS;
      number := true;
      i := i + 1;
    }
    count, out := 0, 0;
    if number {
      if negate {
        ToCellNegates(result, Horner(buf[start..i], b));
        result := Negate(result);
      }
      count, out := i, result;
    }
  }

  lemma HornerEmpty(base: Base)
    ensures ToCell(Horner("", base)) == 0
  {
    ModIs(0, MODULUS, 0, 0);
  }

  lemma HornerSteps(buf: string, at: nat, i: nat, base: Base, result: Usize, d: int)
    requires at <= i < |buf| && result == ToCell(Horner(buf[at..i], base)) && d == DigitOf(buf[i])
    ensures (result * base % MODULUS + d) % MODULUS == ToCell(Horner(buf[at..i + 1], base))
  {
    assert buf[at..i + 1][..i - at] == buf[at..i];
    StepMod(Horner(buf[at..i], base), result, base, d, MODULUS);
  }

  lemma StepMod(h: int, r: int, b: int, d: int, m: int)
    requires 0 < m && r == h % m
    ensures (r * b % m + d) % m == (h * b + d) % m
  {
    var k, l := h / m, r * b / m;
    assert h == k * m + r;
    assert r * b == l * m + r * b % m;
    assert h * b == k * b * m + r * b;
    Regroup(k * b, l, m);
    SameResidue(h * b + d, r * b % m + d, k * b + l, m);
  }

  lemma Regroup(k: int, l: int, m: int)
    ensures (k + l) * m == k * m + l * m
  {
  }

  // ----- reading back what was printed -----

  /** Characters with a meaning of their own at the start of a number. */
  predicate IsMark(c: char) {
    c == '$' || c == '#' || c == '%' || c == '-' || c == '\''
  }

  predicate AreDigits(s: string, base: Base) {
    forall i :: 0 <= i < |s| ==> DigitOf(s[i]) < base
  }

  lemma DigitReads(d: int)
    requires 0 <= d < 36
    ensures DigitOf(DigitChar(d)) == d && !IsMark(DigitChar(d)) && (DigitChar(d) == '0' <==> d == 0)
  {
  }

  lemma OneMoreReads(s: string, d: int, base: Base)
    requires 0 <= d < base && AreDigits(s, base)
    ensures AreDigits(s + [DigitChar(d)], base)
    ensures Horner(s + [DigitChar(d)], base) == Horner(s, base) * base + d
  {
    DigitReads(d);
    assert (s + [DigitChar(d)])[..|s|] == s;
  }

  /** A numeral without leading zeros: digits that stand for v. */
  ghost predicate StandsFor(s: string, v: int, base: Base) {
    AreDigits(s, base) && Horner(s, base) == v && (s != "" ==> !IsMark(s[0]))
  }

  lemma Appended(s: string, q: nat, d: int, base: Base)
    requires StandsFor(s, q, base) && 0 <= d < base
    ensures StandsFor(s + [DigitChar(d)], q * base + d, base)
  {
    hide Horner, DigitOf, DigitChar, AreDigits;
    DigitReads(d);
    OneMoreReads(s, d, base);
  }

  /** The last digit of v and the rest. */
  lemma LastDigit(v: nat, base: Base) returns (q: nat, d: int)
    ensures q == v / base && d == v % base && 0 <= d < base && v == q * base + d
    ensures v != 0 ==> q < v
    ensures v == 0 <==> q == 0 && d == 0
    ensures Numeral(v, base) == Digits(q, base) + [DigitChar(d)]
    ensures Digits(v, base) == if v == 0 then "" else Digits(q, base) + [DigitChar(d)]
  {
    QuotientShrinks(v, base);
    q, d := v / base, v % base;
    MulAtLeast(1, q, base);
  }

  lemma {:induction false} DigitsRead(v: nat, base: Base)
    ensures StandsFor(Digits(v, base), v, base)
    ensures if v == 0 then Digits(v, base) == "" else Digits(v, base) != "" && Digits(v, base)[0] != '0'
  {
    var q, d := LastDigit(v, base);
    if v == 0 {
    } else {
      DigitsRead(q, base);
      hide Digits, StandsFor, DigitOf, DigitChar;
      Appended(Digits(q, base), q, d, base);
      DigitReads(d);
    }
  }

  lemma NumeralReads(v: nat, base: Base)
    ensures var s := Numeral(v, base);
      s != "" && StandsFor(s, v, base) && (s[0] == '0' ==> |s| == 1 && v == 0)
  {
    var q, d := LastDigit(v, base);
    DigitsRead(q, base);
    hide Digits, StandsFor, DigitOf, DigitChar, Numeral;
    Appended(Digits(q, base), q, d, base);
    DigitReads(d);
  }

  lemma {:induction false} AllDigits(buf: string, i: nat, base: Base)
    requires i <= |buf| && forall k :: i <= k < |buf| ==> DigitOf(buf[k]) < base
    ensures DigitsEnd(buf, i, |buf|, base) == |buf|
    decreases |buf| - i
  {
    if i >= |buf| {
    } else {
      AllDigits(buf, i + 1, base);
    }
  }

  /** What the printers write, the parser reads, whatever prefixes it accepts: all of it is the number, and
      the cell it yields is the low cell of the double that was printed. */
  lemma ReadsBack(ud: Double, signed: bool, base: Base, charLiteral: bool, basePrefix: bool, count: nat, out: Usize)
    requires var text := Shown(ud, signed, base);
      text != "" && Reads(text, |text|, base, charLiteral, true, basePrefix, count, out)
    ensures count == |Shown(ud, signed, base)| && out == ud.low
  {
    ValueBounds(ud);
    var n := if signed then SignedValue(ud) else Value(ud);
    var text := Shown(ud, signed, base);
    var v: nat := Abs(n);
    hide Numeral, Horner, Digits;
    NumeralReads(v, base);
    var at := if n < 0 then 1 else 0;
    assert text[at..] == Numeral(v, base);
    forall k | at <= k < |text|
      ensures DigitOf(text[k]) < base
    {
      assert text[k] == Numeral(v, base)[k - at];
    }
    AllDigits(text, at, base);
    assert text[at] == Numeral(v, base)[0];
    assert NumberStart(text, |text|, base, true, basePrefix) == Start(at, base, n < 0);
    assert text[at..|text|] == text[at..];
    LowCell(ud);
  }

  lemma LowCell(ud: Double)
    ensures ToCell(Value(ud)) == ud.low && ToCell(SignedValue(ud)) == ud.low
  {
    ModIs(Value(ud), MODULUS, ud.high, ud.low);
    Regroup(ud.high, 0 - MODULUS, MODULUS);
    ModIs(Value(ud) - MODULUS * MODULUS, MODULUS, ud.high - MODULUS, ud.low);
  }

  /** e4__usize_todouble */
  function ToDouble(n: Usize): Double {
    Double(n, if IsNegative(n) then MODULUS - 1 else 0)
  }

  /** A cell widened to a double prints as itself; so the formatter, given room, shows what pictured
      numeric output shows. */
  lemma WidenedShows(n: Usize, base: Base)
    ensures Shown(ToDouble(n), true, base) == SignedNumeral(Signed(n), base)
  {
    WidthFacts();
    DecrementParts(MODULUS, MODULUS, SIGN_BIT);
    assert SignedValue(ToDouble(n)) == Signed(n);
  }
}
