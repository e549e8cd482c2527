/** The character classes of Text, letter by letter. */
module Alphabets {
  import opened Text

  const SMALL := "abcdefghijklmnopqrstuvwxyz"
  const CAPITALS := "ABCDEFGHIJKLMNOPQRSTUVWXYZ"
  const DIGITS := "0123456789"

  lemma SmallLetters(c: char)
    ensures c in SMALL <==> 'a' <= c <= 'z'
  {
    if 'a' <= c <= 'z' { assert SMALL[(c - 'a') as int] == c; }
  }

  lemma CapitalLetters(c: char)
    ensures c in CAPITALS <==> 'A' <= c <= 'Z'
  {
    if 'A' <= c <= 'Z' { assert CAPITALS[(c - 'A') as int] == c; }
  }

  lemma TenDigits(c: char)
    ensures c in DIGITS <==> IsDigit(c)
  {
    if IsDigit(c) { assert DIGITS[(c - '0') as int] == c; }
  }

  lemma Letters(c: char)
    ensures IsLetter(c) <==> c in SMALL + CAPITALS
  {
    SmallLetters(c);
    CapitalLetters(c);
  }

  lemma Alphanumeric(c: char)
    ensures IsLetter(c) || IsDigit(c) <==> c in SMALL + CAPITALS + DIGITS
  {
    Letters(c);
    TenDigits(c);
  }

  /** The ASCII blanks of Python. */
  const BLANKS := "\t\n\U{000B}\U{000C}\r\U{001C}\U{001D}\U{001E}\U{001F} "

  lemma AsciiBlanks(c: char)
    requires c <= '~'
    ensures IsSpace(c) <==> c in BLANKS
  {
  }

  lemma LowerCaseOfLetters()
    ensures LowerCase(CAPITALS) == SMALL
  {
  }

  /** Lower case changes capitals only. */
  lemma LowerCaseKeeps(s: string)
    requires forall c | c in s :: c !in CAPITALS
    ensures LowerCase(s) == s
  {
    forall i | 0 <= i < |s| ensures Lower(s[i]) == s[i] {
      CapitalLetters(s[i]);
      assert s[i] in s;
    }
  }
}
