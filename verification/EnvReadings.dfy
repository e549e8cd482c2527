/**
 What lines of an env file mean, sign by sign: keys, quotations, escapes, comments, repeated keys and line ends
 (agent/collectors/saad_deploy.py:38-70, scripts/deploy_metadata.py:35-59, scripts/control_helper.py:28-50).
 */
module EnvReadings {
  import opened Sequences
  import opened Text
  import opened Alphabets
  import opened Shlex
  import opened EnvFile
  import opened EnvTheorems

  /** A key is a word of ASCII letters, digits and underscores. */
  lemma KeyLetters(key: string)
    ensures ValidKey(key) <==> key != "" && forall c | c in key :: c in SMALL + CAPITALS + DIGITS + "_"
  {
    forall c ensures IsKeyChar(c) <==> c in SMALL + CAPITALS + DIGITS + "_" {
      Alphanumeric(c);
    }
  }

  // ----- Quotations -----

  /** The inside of a double quotation: quotes and backslashes behind a backslash. */
  function Escaping(v: string): string {
    if v == "" then ""
    else (if v[0] == '"' then "\\\"" else if v[0] == '\\' then "\\\\" else [v[0]]) + Escaping(v[1..])
  }

  function DoubleQuoted(v: string): string {
    "\"" + (Escaping(v) + "\"")
  }

  /** The inside of a single quotation as a shell prints it: an inner quote leaves the quotation, is escaped, and
      enters it again. */
  function Reentering(v: string): string {
    if v == "" then "" else (if v[0] == '\'' then "'\\''" else [v[0]]) + Reentering(v[1..])
  }

  function ShellQuoted(v: string): string {
    "'" + (Reentering(v) + "'")
  }

  lemma TwoMore(a: char, b: char, x: string)
    ensures ([a, b] + x)[0] == a && ([a, b] + x)[1..] == [b] + x && ([b] + x)[0] == b && ([b] + x)[1..] == x
  {
  }

  /** One escaped character inside a double quotation. */
  lemma LexEscape(c: char, x: string, token: string, quoted: bool)
    ensures Lex(['\\', c] + x, Quoted(DQUOTE), token, quoted)
         == Lex(x, Quoted(DQUOTE), token + (if c == '"' || c == '\\' then [c] else ['\\', c]), true)
  {
    TwoMore('\\', c, x);
    assert Lex(['\\', c] + x, Quoted(DQUOTE), token, quoted) == Lex([c] + x, Escaped(true), token, true);
  }

  lemma LexPlain(c: char, x: string, q: char, token: string, quoted: bool)
    requires c != q && (q == DQUOTE ==> c != '\\')
    ensures Lex([c] + x, Quoted(q), token, quoted) == Lex(x, Quoted(q), token + [c], true)
  {
    assert ([c] + x)[1..] == x;
  }

  lemma LexClose(x: string, q: char, token: string, quoted: bool)
    ensures Lex([q] + x, Quoted(q), token, quoted) == Lex(x, Word, token, true)
  {
    assert ([q] + x)[1..] == x;
  }

  lemma {:induction false} LexEscaping(v: string, x: string, token: string, quoted: bool)
    ensures Lex(Escaping(v) + ([DQUOTE] + x), Quoted(DQUOTE), token, quoted) == Lex(x, Word, token + v, true)
    decreases |v|
  {
    var close := [DQUOTE] + x;
    if v == "" {
      assert "" + close == close && token + v == token;
      LexClose(x, DQUOTE, token, quoted);
    } else {
      hide Lex;
      var c, rest := v[0], Escaping(v[1..]) + close;
      LexEscaping(v[1..], x, token + [c], true);
      assert token + [c] + v[1..] == token + v;
      if c == '"' || c == '\\' {
        Associative(['\\', c], Escaping(v[1..]), close);
        LexEscape(c, rest, token, quoted);
      } else {
        Associative([c], Escaping(v[1..]), close);
        LexPlain(c, rest, DQUOTE, token, quoted);
      }
    }
  }

  lemma LexReenter(x: string, token: string, quoted: bool)
    ensures Lex("'\\''" + x, Quoted(SQUOTE), token, quoted) == Lex(x, Quoted(SQUOTE), token + ['\''], true)
  {
    var s := "'\\''" + x;
    var s1, s2, s3 := s[1..], s[2..], s[3..];
    assert s[0] == SQUOTE && s1[0] == '\\' && s2[0] == SQUOTE && s3[0] == SQUOTE;
    assert s1[1..] == s2 && s2[1..] == s3 && s3[1..] == x;
    assert Lex(s, Quoted(SQUOTE), token, quoted) == Lex(s1, Word, token, true);
    assert Lex(s1, Word, token, true) == Lex(s2, Escaped(false), token, true);
    assert Lex(s2, Escaped(false), token, true) == Lex(s3, Word, token + [SQUOTE], true);
  }

  lemma {:induction false} LexReentering(v: string, x: string, token: string, quoted: bool)
    ensures Lex(Reentering(v) + ([SQUOTE] + x), Quoted(SQUOTE), token, quoted) == Lex(x, Word, token + v, true)
    decreases |v|
  {
    var close := [SQUOTE] + x;
    if v == "" {
      assert "" + close == close && token + v == token;
      LexClose(x, SQUOTE, token, quoted);
    } else {
      hide Lex;
      var c, rest := v[0], Reentering(v[1..]) + close;
      LexReentering(v[1..], x, token + [c], true);
      assert token + [c] + v[1..] == token + v;
      if c == '\'' {
        Associative("'\\''", Reentering(v[1..]), close);
        LexReenter(rest, token, quoted);
      } else {
        Associative([c], Reentering(v[1..]), close);
        LexPlain(c, rest, SQUOTE, token, quoted);
      }
    }
  }

  /** Splitting a quotation with something behind it goes on with that, the text of the quotation in hand. */
  lemma SplitBehind(v: string, x: string)
    ensures Split(DoubleQuoted(v) + x) == Lex(x, Word, v, true)
    ensures Split(ShellQuoted(v) + x) == Lex(x, Word, v, true)
  {
    hide Escaping, Reentering;
    assert "" + v == v;
    LexEscaping(v, x, "", false);
    LexReentering(v, x, "", false);
    assert (DoubleQuoted(v) + x)[1..] == Escaping(v) + ([DQUOTE] + x);
    assert (ShellQuoted(v) + x)[1..] == Reentering(v) + ([SQUOTE] + x);
  }

  lemma QuotationEnds(q: char, inside: string)
    requires IsQuote(q)
    ensures Strip([q] + (inside + [q])) == [q] + (inside + [q])
  {
    var s := [q] + (inside + [q]);
    assert s[0] == q && s[|s| - 1] == q;
    StripNothing(s);
  }

  /** A double-quoted value reads as what was quoted, a shell-quoted one too, in all parsers. */
  lemma QuotationsReadBack(v: string)
    ensures ReadValue(DoubleQuoted(v)) == Some(v) == ReadControlValue(DoubleQuoted(v))
    ensures ReadValue(ShellQuoted(v)) == Some(v) == ReadControlValue(ShellQuoted(v))
  {
    hide Lex, Strip, Escaping, Reentering;
    SplitBehind(v, "");
    assert DoubleQuoted(v) + "" == DoubleQuoted(v) && ShellQuoted(v) + "" == ShellQuoted(v);
    EndOfWord(v);
    QuotationEnds(DQUOTE, Escaping(v));
    QuotationEnds(SQUOTE, Reentering(v));
  }

  lemma {:induction false} LexVerbatim(v: string, x: string, token: string, quoted: bool)
    requires '"' !in v && '\\' !in v
    ensures Lex(v + x, Quoted(DQUOTE), token, quoted) == Lex(x, Quoted(DQUOTE), token + v, quoted || v != "")
  {
    if v == "" {
      assert "" + x == x && token + v == token;
    } else {
      hide Lex;
      HeadAndTail(v);
      assert forall c | c in v[1..] :: c in v;
      Associative([v[0]], v[1..], x);
      LexPlain(v[0], v[1..] + x, DQUOTE, token, quoted);
      LexVerbatim(v[1..], x, token + [v[0]], true);
      Associative(token, [v[0]], v[1..]);
    }
  }

  /** Inside double quotes a backslash in front of any other character stays. */
  lemma OtherBackslashesStay(before: string, c: char, behind: string)
    requires '"' !in before && '\\' !in before && '"' !in behind && '\\' !in behind && c != '"' && c != '\\'
    ensures var inside := before + (['\\', c] + behind);
            ReadValue("\"" + (inside + "\"")) == Some(inside) == ReadControlValue("\"" + (inside + "\""))
  {
    hide Lex, Strip;
    var inside := before + (['\\', c] + behind);
    QuotationEnds(DQUOTE, inside);
    LexInside(before, c, behind);
    SplitOpens(inside);
  }

  lemma SplitOpens(inside: string)
    ensures Split("\"" + (inside + "\"")) == Lex(inside + "\"", Quoted(DQUOTE), "", false)
  {
    assert ("\"" + (inside + "\""))[1..] == inside + "\"";
  }

  lemma LexInside(before: string, c: char, behind: string)
    requires '"' !in before && '\\' !in before && '"' !in behind && '\\' !in behind && c != '"' && c != '\\'
    ensures var inside := before + (['\\', c] + behind);
            Lex(inside + "\"", Quoted(DQUOTE), "", false) == Some([inside])
  {
    hide Lex;
    var inside := before + (['\\', c] + behind);
    var quoted, token := before != "", before + ['\\', c];
    Associative(before, ['\\', c] + behind, "\"");
    LexVerbatim(before, ['\\', c] + behind + "\"", "", false);
    Associative(['\\', c], behind, "\"");
    LexEscape(c, behind + "\"", "" + before, quoted);
    assert "" + before == before;
    LexVerbatim(behind, "\"", token, true);
    Associative(before, ['\\', c], behind);
    assert "\"" + "" == "\"";
    LexClose("", DQUOTE, token + behind, true);
    EndOfWord(token + behind);
  }

  lemma EndOfWord(token: string)
    ensures Lex("", Word, token, true) == Some([token])
  {
  }

  // ----- Behind a quotation -----

  /** A word behind a blank is not part of the value, but has to be splittable. */
  lemma OnlyTheFirstTokenCounts(v: string, blank: char, rest: string)
    requires blank in " \t\r\n" && rest != "" && !IsSpace(rest[|rest| - 1])
    ensures ReadValue(DoubleQuoted(v) + ([blank] + rest)) == if Split(rest) == None then None else Some(v)
    ensures ReadControlValue(DoubleQuoted(v) + ([blank] + rest)) == if Split(rest) == None then None else Some(v)
  {
    var s := DoubleQuoted(v) + ([blank] + rest);
    SplitBehind(v, [blank] + rest);
    assert ([blank] + rest)[1..] == rest;
    assert s[0] == '"' && s[|s| - 1] == rest[|rest| - 1];
    StripNothing(s);
  }

  lemma {:induction false} CommentIsDropped(comment: string)
    requires '\n' !in comment
    ensures AfterComment(comment) == ""
  {
    if comment != "" {
      assert comment[0] in comment && forall c | c in comment[1..] :: c in comment;
      CommentIsDropped(comment[1..]);
    }
  }

  /** So a comment behind the quotation changes nothing, whatever it holds. */
  lemma CommentBehindQuotation(v: string, comment: string)
    requires '\n' !in comment && (comment != "" ==> !IsSpace(comment[|comment| - 1]))
    ensures ReadValue(DoubleQuoted(v) + (" " + ("#" + comment))) == Some(v)
    ensures ReadControlValue(DoubleQuoted(v) + (" " + ("#" + comment))) == Some(v)
  {
    var rest := "#" + comment;
    assert rest[1..] == comment;
    CommentIsDropped(comment);
    assert Split(rest) == Lex("", Blank, "", false) == Some([]);
    OnlyTheFirstTokenCounts(v, ' ', rest);
  }

  predicate IsWordText(w: string) {
    forall i | 0 <= i < |w| :: w[i] !in " \t\r\n'\"\\#"
  }

  lemma {:induction false} LexWord(w: string, token: string)
    requires IsWordText(w)
    ensures Lex(w, Word, token, true) == Some([token + w])
  {
    if w == "" {
      assert token + w == token;
    } else {
      LexWord(w[1..], token + [w[0]]);
      assert token + [w[0]] + w[1..] == token + w;
    }
  }

  /** Text glued to a quotation belongs to the value. */
  lemma GluedTextBelongs(v: string, w: string)
    requires IsWordText(w) && (w != "" ==> !IsSpace(w[|w| - 1]))
    ensures ReadValue(DoubleQuoted(v) + w) == Some(v + w) == ReadControlValue(DoubleQuoted(v) + w)
  {
    var s := DoubleQuoted(v) + w;
    SplitBehind(v, w);
    LexWord(w, v);
    assert s[0] == '"' && s[|s| - 1] == if w == "" then '"' else w[|w| - 1];
    StripNothing(s);
  }

  // ----- Comments behind unquoted values -----

  lemma {:induction false} CutAtComment(v: string, behind: string)
    requires (v != "" ==> v[|v| - 1] != ' ') && !HasComment(v)
    ensures BeforeComment(v + (" #" + behind)) == v
  {
    var s := v + (" #" + behind);
    if v == "" {
      assert s[..2] == " #";
    } else {
      if v[0] == ' ' {
        assert v[0..] == v && !StartsWith(v, " #") && s[1] == v[1];
        assert v[..2] == [v[0], v[1]];
      }
      assert !StartsWith(s, " #");
      assert v[0..] == v;
      CommentInTail(v);
      CutAtComment(v[1..], behind);
      assert s[1..] == v[1..] + (" #" + behind);
    }
  }

  /** A blank and a hash end an unquoted value. */
  lemma CommentEndsTheValue(v: string, comment: string)
    requires Plain(v) && v != "" && (comment != "" ==> !IsSpace(comment[|comment| - 1]))
    ensures ReadValue(v + (" #" + comment)) == Some(v) == ReadControlValue(v + (" #" + comment))
  {
    var s := v + (" #" + comment);
    assert s[0] == v[0] && s[|s| - 1] == if comment == "" then '#' else comment[|comment| - 1];
    StripNothing(s);
    CutAtComment(v, comment);
    RStripIs(v, |v|);
  }

  // ----- Repeated keys -----

  /** Line `k` is the last one that assigns this key. */
  ghost predicate LastAssigns(lines: seq<string>, k: nat, key: string, control: bool) {
    && k < |lines| && Assigns(lines[k], key, control)
    && forall j | k < j < |lines| :: !Assigns(lines[j], key, control)
  }

  predicate Assigns(line: string, key: string, control: bool) {
    ReadLine(line, control).Some? && ReadLine(line, control).value.key == key
  }

  /** A key has the value of the last line that assigns it. */
  lemma {:induction false} LastLineWins(lines: seq<string>, k: nat, key: string, control: bool)
    requires LastAssigns(lines, k, key, control)
    ensures key in ReadLines(lines, control)
    ensures ReadLines(lines, control)[key] == ReadLine(lines[k], control).value.value
  {
    hide ReadLines, ReadLine;
    var n := |lines| - 1;
    var front := lines[..n];
    OneLineMore(front, lines[n], key, control);
    assert lines == front + [lines[n]];
    if k < n {
      LastLineWins(front, k, key, control);
    }
  }

  /** Keys that no line assigns are not read. */
  lemma {:induction false} UnassignedIsNotRead(lines: seq<string>, key: string, control: bool)
    requires forall k | 0 <= k < |lines| :: !Assigns(lines[k], key, control)
    ensures key !in ReadLines(lines, control)
  {
    if lines != [] {
      hide ReadLines, Assigns;
      var n := |lines| - 1;
      UnassignedIsNotRead(lines[..n], key, control);
      OneLineMore(lines[..n], lines[n], key, control);
      assert lines == lines[..n] + [lines[n]];
    }
  }

  lemma OneLineMore(front: seq<string>, line: string, key: string, control: bool)
    ensures var before, after := ReadLines(front, control), ReadLines(front + [line], control);
            if Assigns(line, key, control) then key in after && after[key] == ReadLine(line, control).value.value
            else (key in after <==> key in before) && (key in before ==> after[key] == before[key])
  {
    hide ReadLine;
    assert (front + [line])[..|front|] == front;
  }

  // ----- Line ends -----

  /** A line may end with a line feed, a carriage return, or both. */
  lemma LineEnds(line: string, rest: string)
    requires OneLine(line)
    ensures SplitLines(line + "\n" + rest) == [line] + SplitLines(rest)
    ensures SplitLines(line + "\r\n" + rest) == [line] + SplitLines(rest)
    ensures (rest == "" || rest[0] != '\n') ==> SplitLines(line + "\r" + rest) == [line] + SplitLines(rest)
  {
    hide SplitLines, OneLine;
    SplitFirstLine(line, rest);
    ReturnAndFeed(line, rest);
    if rest == "" || rest[0] != '\n' { ReturnAlone(line, rest); }
  }

  lemma ReturnAndFeed(line: string, rest: string)
    requires OneLine(line)
    ensures SplitLines(line + "\r\n" + rest) == [line] + SplitLines(rest)
  {
    var text := line + "\r\n" + rest;
    assert text[|line|] == '\r' && text[|line| + 1] == '\n';
    RunIs(IsNotBreak, text, |line|);
    assert text[..|line|] == line && text[|line| + 2..] == rest;
    assert SplitLines(text) == [line] + (if |line| + 2 < |text| then SplitLines(rest) else []);
  }

  lemma ReturnAlone(line: string, rest: string)
    requires OneLine(line) && (rest == "" || rest[0] != '\n')
    ensures SplitLines(line + "\r" + rest) == [line] + SplitLines(rest)
  {
    var text := line + "\r" + rest;
    assert text[|line|] == '\r' && (rest != "" ==> text[|line| + 1] == rest[0]);
    RunIs(IsNotBreak, text, |line|);
    assert text[..|line|] == line && text[|line| + 1..] == rest;
    assert SplitLines(text) == [line] + (if |line| + 1 < |text| then SplitLines(rest) else []);
  }
}
