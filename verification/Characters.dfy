/** Letters without regard to case. */
module Characters {

  /** tolower, for the letters of ASCII. */
  function Lower(c: char): char {
    if 'A' <= c <= 'Z' then 'a' + (c - 'A') else c
  }

  /** The same character, or the two cases of one letter of ASCII. */
  predicate SameLetter(c: char, d: char) {
    var m, n := c as int, d as int;
    || m == n
    || (65 <= m <= 90 && n == m + 32)
    || (65 <= n <= 90 && m == n + 32)
  }

  /** The same text, but for the case of letters. */
  predicate Matches(a: string, b: string) {
    |a| == |b| && forall i :: 0 <= i < |a| ==> SameLetter(a[i], b[i])
  }

  lemma LowerJoinsCases(c: char, d: char)
    ensures Lower(c) == Lower(d) <==> SameLetter(c, d)
    ensures Lower(c) as int == if 65 <= c as int <= 90 then c as int + 32 else c as int
  {
  }
}
