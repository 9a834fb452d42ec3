/** What texts the number parser reads, and as what: digits, prefixes, signs and character literals, written
    out as characters. */
module NumberLaws {
  import opened Words
  import opened Numerals
  import Characters

  // ----- digits -----

  const DIGITS: string := "0123456789ABCDEFGHIJKLMNOPQRSTUVWXYZ"
  const SMALL_DIGITS: string := "0123456789abcdefghijklmnopqrstuvwxyz"

  /** Printers use capitals; the parser takes both cases. */
  lemma DigitNames(d: int)
    requires 0 <= d < 36
    ensures DigitChar(d) == DIGITS[d] && DigitOf(DIGITS[d]) == d && DigitOf(SMALL_DIGITS[d]) == d
  {
    assert forall i :: 0 <= i < 10 ==> DIGITS[i] == '0' + i as char && SMALL_DIGITS[i] == '0' + i as char;
    assert forall i :: 10 <= i < 36 ==>
      DIGITS[i] == 'A' + (i - 10) as char && SMALL_DIGITS[i] == 'a' + (i - 10) as char;
  }

  /** Not a digit of the base, in either case. */
  predicate EndsDigits(rest: string, base: Base) {
    rest == "" || (rest[0] !in DIGITS[..base] && rest[0] !in SMALL_DIGITS[..base])
  }

  lemma EndIsNoDigit(rest: string, base: Base)
    requires EndsDigits(rest, base)
    ensures rest != "" ==> DigitOf(rest[0]) >= base
  {
    if rest != "" && DigitOf(rest[0]) < base {
      InBase(rest[0], base);
    }
  }

  lemma InBase(c: char, base: Base)
    requires DigitOf(c) < base
    ensures c in DIGITS[..base] || c in SMALL_DIGITS[..base]
  {
    DigitIsNamed(c);
    var d := DigitOf(c);
    assert DIGITS[..base][d] == DIGITS[d] && SMALL_DIGITS[..base][d] == SMALL_DIGITS[d];
  }

  lemma DigitIsNamed(c: char)
    ensures var d := DigitOf(c); d < 36 ==> c == DIGITS[d] || c == SMALL_DIGITS[d]
  {
    assert forall i :: 0 <= i < 10 ==> DIGITS[i] == '0' + i as char;
    assert forall i :: 10 <= i < 36 ==>
      DIGITS[i] == 'A' + (i - 10) as char && SMALL_DIGITS[i] == 'a' + (i - 10) as char;
  }

  /** A base without digits, or with too many, is taken for the nearest one that has them. */
  lemma BasesAreClamped(base: int)
    ensures Clamp(base) == if base <= 2 then 2 else if base >= 36 then 36 else base
  {
  }

  /** Some numerals. */
  lemma Examples()
    ensures Numeral(0, 10) == "0" && Numeral(7, 10) == "7" && Numeral(10, 10) == "10"
    ensures Numeral(42, 10) == "42" && Numeral(31, 16) == "1F" && Numeral(5, 2) == "101"
    ensures SignedNumeral(-42, 10) == "-42"
  {
    assert Digits(4, 10) == "4" && Digits(1, 10) == "1" && Digits(1, 16) == "1";
    assert Digits(1, 2) == "1" && Digits(2, 2) == "10";
  }

  // ----- runs of digits -----

  /** The text in small letters. */
  function Small(s: string): string {
    seq(|s|, i requires 0 <= i < |s| => Characters.Lower(s[i]))
  }

  lemma SmallDigit(c: char)
    ensures DigitOf(Characters.Lower(c)) == DigitOf(c)
  {
  }

  lemma {:induction false} SmallReads(s: string, base: Base)
    ensures AreDigits(s, base) ==> AreDigits(Small(s), base)
    ensures Horner(Small(s), base) == Horner(s, base)
    decreases |s|
  {
    forall c: char {
      SmallDigit(c);
    }
    if s == "" {
    } else {
      var n := |s| - 1;
      SmallReads(s[..n], base);
      assert Small(s)[..n] == Small(s[..n]);
    }
  }

  /** The digits of a number in either case. */
  function Spelled(v: nat, base: Base, small: bool): string {
    if small then Small(Numeral(v, base)) else Numeral(v, base)
  }

  lemma SpelledReads(v: nat, base: Base, small: bool)
    ensures var s := Spelled(v, base, small); s != "" && AreDigits(s, base) && Horner(s, base) == v
    ensures DigitOf(Spelled(v, base, small)[0]) < 36
  {
    NumeralReads(v, base);
    SmallReads(Numeral(v, base), base);
    hide Numeral, Horner;
  }

  lemma {:induction false} RunEnds(buf: string, i: nat, n: nat, base: Base)
    requires i <= n <= |buf| && AreDigits(buf[i..n], base) && (n < |buf| ==> DigitOf(buf[n]) >= base)
    ensures DigitsEnd(buf, i, |buf|, base) == n
    decreases n - i
  {
    if i >= n {
    } else {
      assert buf[i..n][0] == buf[i] && buf[i..n][1..] == buf[i + 1..n];
      RunEnds(buf, i + 1, n, base);
    }
  }

  /** After sign and prefix: the digits are all taken, and nothing behind them. */
  lemma DigitsAreTaken(head: string, v: nat, b: Base, small: bool, rest: string)
    requires EndsDigits(rest, b)
    ensures var digits := Spelled(v, b, small);
      var text, n := head + digits + rest, |head + digits|;
      && digits != "" && DigitsEnd(text, |head|, |text|, b) == n
      && text[|head|..n] == digits && Horner(digits, b) == v
  {
    var digits := Spelled(v, b, small);
    SpelledReads(v, b, small);
    EndIsNoDigit(rest, b);
    hide Spelled, Horner, DigitOf;
    var text, n := head + digits + rest, |head + digits|;
    assert text[|head|..n] == digits;
    RunEnds(text, |head|, n, b);
  }

  // ----- prefixes -----

  /** The prefixes and their bases. */
  predicate IsPrefix(prefix: string, base: Base) {
    || (prefix == "$" && base == 16)
    || (prefix == "#" && base == 10)
    || (prefix == "%" && base == 2)
    || (prefix in ["0x", "0X"] && base == 16)
    || (prefix in ["0o", "0O"] && base == 8)
    || (prefix in ["0b", "0B"] && base == 2)
  }

  lemma PrefixStarts(negative: bool, prefix: string, b: Base, more: string, base: Base)
    requires IsPrefix(prefix, b) && more != ""
    ensures var head := (if negative then "-" else "") + prefix;
      var text := head + more;
      && NumberStart(text, |text|, base, true, true) == Start(|head|, b, negative)
      && !IsCharLiteral(text, |text|)
  {
    var head := (if negative then "-" else "") + prefix;
    var text := head + more;
    var i := if negative then 1 else 0;
    assert text[i] == prefix[0] && (|prefix| > 1 ==> text[i + 1] == prefix[1]);
    assert negative ==> text[0] == '-';
  }

  /** A prefix fixes the base, whatever BASE is: the digits behind it are read in that base and in either case,
      to the last one; a minus in front negates. */
  lemma PrefixedReads(negative: bool, prefix: string, b: Base, v: nat, small: bool, rest: string, base: int,
                      charLiteral: bool)
    requires IsPrefix(prefix, b) && EndsDigits(rest, b)
    ensures var taken := (if negative then "-" else "") + prefix + Spelled(v, b, small);
      var text := taken + rest;
      ReadNumber(text, |text|, base, charLiteral, true, true) ==
        Reading(|taken|, ToCell(if negative then 0 - v else v))
  {
    var head := (if negative then "-" else "") + prefix;
    var digits := Spelled(v, b, small);
    DigitsAreTaken(head, v, b, small, rest);
    PrefixStarts(negative, prefix, b, digits + rest, Clamp(base));
    hide Spelled, NumberStart, DigitsEnd, Horner, IsPrefix, EndsDigits, IsCharLiteral, ReadNumber;
    var text := head + digits + rest;
    assert head + (digits + rest) == text;
    ReadsRun(text, |head|, |head + digits|, b, v, negative, base, charLiteral);
  }

  /** With sign and prefix told, and where the digits end. */
  lemma ReadsRun(text: string, at: nat, n: nat, b: Base, v: nat, negative: bool, base: int, charLiteral: bool)
    requires text != "" && at < n <= |text| && !IsCharLiteral(text, |text|)
    requires NumberStart(text, |text|, Clamp(base), true, true) == Start(at, b, negative)
    requires DigitsEnd(text, at, |text|, b) == n && Horner(text[at..n], b) == v
    ensures ReadNumber(text, |text|, base, charLiteral, true, true) ==
      Reading(n, ToCell(if negative then 0 - v else v))
  {
    hide NumberStart, DigitsEnd, Horner, IsCharLiteral;
  }

  /** Without prefix the digits are read in BASE, clamped to what has digits. */
  lemma PlainReads(negative: bool, v: nat, small: bool, rest: string, base: int, charLiteral: bool)
    requires EndsDigits(rest, Clamp(base)) && (v != 0 || rest == "")
    ensures var taken := (if negative then "-" else "") + Spelled(v, Clamp(base), small);
      var text := taken + rest;
      ReadNumber(text, |text|, base, charLiteral, true, true) ==
        Reading(|taken|, ToCell(if negative then 0 - v else v))
  {
    var b := Clamp(base);
    var head := if negative then "-" else "";
    var digits := Spelled(v, b, small);
    DigitsAreTaken(head, v, b, small, rest);
    PlainStarts(negative, v, b, small, rest);
    hide Spelled, NumberStart, DigitsEnd, Horner, EndsDigits, IsCharLiteral, ReadNumber;
    ReadsRun(head + digits + rest, |head|, |head + digits|, b, v, negative, base, charLiteral);
  }

  lemma PlainStarts(negative: bool, v: nat, b: Base, small: bool, rest: string)
    requires v != 0 || rest == ""
    ensures var head := if negative then "-" else "";
      var text := head + Spelled(v, b, small) + rest;
      && NumberStart(text, |text|, b, true, true) == Start(|head|, b, negative)
      && !IsCharLiteral(text, |text|)
  {
    var head := if negative then "-" else "";
    var digits := Spelled(v, b, small);
    var text := head + digits + rest;
    FirstDigit(v, b, small);
    hide Spelled;
    assert text[|head|] == digits[0];
    assert negative ==> text[0] == '-';
  }

  lemma FirstDigit(v: nat, b: Base, small: bool)
    ensures var s := Spelled(v, b, small);
      && s != "" && s[0] !in "-'$#%"
      && (s[0] == '0' ==> v == 0 && |s| == 1)
  {
    NumeralReads(v, b);
    hide Numeral, Horner;
    var s := Numeral(v, b);
    assert AreDigits(s, b);
    DigitIsNamed(s[0]);
  }

  /** A character between quotes stands for its code, and 'c' takes three characters, whatever follows. */
  lemma CharacterReads(c: char, rest: string, base: int)
    requires c as int < 128
    ensures var text := ['\'', c, '\''] + rest;
      ReadNumber(text, |text|, base, true, true, true) == Reading(3, ToCell(c as int))
  {
  }

  /** A sign and a prefix are no number by themselves, and neither is what starts with no digit. */
  lemma NoDigits(negative: bool, prefix: string, b: Base, rest: string, base: int)
    requires IsPrefix(prefix, b) && rest != "" && EndsDigits(rest, b)
    ensures var text := (if negative then "-" else "") + prefix + rest;
      ReadNumber(text, |text|, base, true, true, true).count == 0
  {
    var head := (if negative then "-" else "") + prefix;
    EndIsNoDigit(rest, b);
    PrefixStarts(negative, prefix, b, rest, Clamp(base));
    assert (head + rest)[|head|] == rest[0];
  }

  // ----- the fixed-buffer formatter -----

  /** Text that does not fit a buffer of sz characters loses digits at its left end; the sign stays. */
  lemma CroppedLosesLeft(v: nat, base: Base, sz: nat)
    ensures var text := Numeral(v, base);
      && (|text| <= sz ==> Cropped(text, false, sz) == text)
      && (forall i :: 0 <= i < sz < |text| ==> Cropped(text, false, sz)[i] == text[|text| - sz + i])
    ensures var text := "-" + Numeral(v, base);
      && (|text| <= sz ==> Cropped(text, true, sz) == text)
      && (0 < sz < |text| ==> Cropped(text, true, sz)[0] == '-')
      && (forall i :: 1 <= i < sz < |text| ==> Cropped(text, true, sz)[i] == text[|text| - sz + i])
  {
    hide Numeral;
  }
}
