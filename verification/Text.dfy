/** Characters and runs of characters, as Python's `str` and `re` see them on ASCII text. */
module Text {

  /** The blanks beyond ASCII, as ranges. */
  const WIDE_BLANKS := [
    ('\U{0085}', '\U{0085}'), ('\U{00A0}', '\U{00A0}'), ('\U{1680}', '\U{1680}'), ('\U{2000}', '\U{200A}'),
    ('\U{2028}', '\U{2029}'), ('\U{202F}', '\U{202F}'), ('\U{205F}', '\U{205F}'), ('\U{3000}', '\U{3000}')]

  /** `str.isspace`, which `strip` and the class `\s` share. */
  predicate IsSpace(c: char) {
    || '\t' <= c <= '\r' || '\U{001C}' <= c <= ' '
    || (c > '~' && exists k | 0 <= k < |WIDE_BLANKS| :: WIDE_BLANKS[k].0 <= c <= WIDE_BLANKS[k].1)
  }

  predicate IsLetter(c: char) {
    'a' <= c <= 'z' || 'A' <= c <= 'Z'
  }

  predicate IsDigit(c: char) {
    '0' <= c <= '9'
  }

  function Lower(c: char): char {
    if 'A' <= c <= 'Z' then c - 'A' + 'a' else c
  }

  function LowerCase(s: string): (r: string)
    ensures |r| == |s|
  {
    seq(|s|, i requires 0 <= i < |s| => Lower(s[i]))
  }

  /** The length of the longest prefix of `s` whose characters all satisfy `p`. */
  function Run(p: char -> bool, s: string): (n: nat)
    ensures n <= |s| && (forall i | 0 <= i < n :: p(s[i])) && (n < |s| ==> !p(s[n]))
  {
    if s == "" || !p(s[0]) then 0 else 1 + Run(p, s[1..])
  }

  lemma {:induction false} RunIs(p: char -> bool, s: string, n: nat)
    requires n <= |s| && (forall i | 0 <= i < n :: p(s[i])) && (n < |s| ==> !p(s[n]))
    ensures Run(p, s) == n
  {
    if n > 0 {
      RunIs(p, s[1..], n - 1);
    }
  }

  lemma RunCons(p: char -> bool, c: char, s: string)
    requires p(c)
    ensures Run(p, [c] + s) == 1 + Run(p, s)
  {
    assert ([c] + s)[1..] == s;
  }

  predicate AllOf(p: char -> bool, s: string) {
    forall i | 0 <= i < |s| :: p(s[i])
  }

  lemma RunOf(p: char -> bool, a: string, b: string)
    requires AllOf(p, a) && (b == "" || !p(b[0]))
    ensures Run(p, a + b) == |a| && (a + b)[..|a|] == a && (a + b)[|a|..] == b
  {
    RunIs(p, a + b, |a|);
  }

  predicate StartsWith(s: string, prefix: string) {
    prefix <= s
  }
}
