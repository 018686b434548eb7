/** String.prototype.replaceAll for string patterns (leftmost, without overlap) and white space. */
module Strings {
  function ReplaceAll(s: string, pattern: string, replacement: string): string
    requires pattern != ""
    decreases |s|
  {
    if s == "" then ""
    else if pattern <= s then replacement + ReplaceAll(s[|pattern|..], pattern, replacement)
    else [s[0]] + ReplaceAll(s[1..], pattern, replacement)
  }

  lemma ReplaceSkips(c: char, s: string, pattern: string, replacement: string)
    requires pattern != "" && pattern[0] != c
    ensures ReplaceAll([c] + s, pattern, replacement) == [c] + ReplaceAll(s, pattern, replacement)
  {
    assert ([c] + s)[1..] == s && ([c] + s)[0] == c;
  }

  lemma ReplaceHits(s: string, pattern: string, replacement: string)
    requires pattern != ""
    ensures ReplaceAll(pattern + s, pattern, replacement) == replacement + ReplaceAll(s, pattern, replacement)
  {
    assert (pattern + s)[|pattern|..] == s;
  }

  /** White space as \s and String.prototype.trim know it. */
  predicate IsWhitespace(c: char) {
    var n := c as int;
    || 9 <= n <= 13 || n == 0x20 || n == 0xa0 || n == 0x1680 || 0x2000 <= n <= 0x200a
    || n == 0x2028 || n == 0x2029 || n == 0x202f || n == 0x205f || n == 0x3000 || n == 0xfeff
  }
}
