/** What a declaration file survives, and when the three parsers agree on it. */
module EnvTheorems {
  import opened Sequences
  import opened Text
  import opened Shlex
  import opened EnvFile

  // ----- Stripping -----

  lemma StripNothing(s: string)
    requires s != "" ==> !IsSpace(s[0]) && !IsSpace(s[|s| - 1])
    ensures Strip(s) == s
  {
    RunIs(IsSpace, s, 0);
  }

  lemma RStripIs(s: string, n: nat)
    requires n <= |s| && (n > 0 ==> !IsSpace(s[n - 1])) && forall i | n <= i < |s| :: IsSpace(s[i])
    ensures RStrip(s) == s[..n]
  {
    hide RStrip, IsSpace;
    var r := RStrip(s);
    assert r != "" ==> r[|r| - 1] == s[|r| - 1];
    assert r == s[..|r|];
  }

  // ----- A line that starts with key= -----

  lemma AssignmentLine(key: string, v: string)
    requires ValidKey(key)
    ensures KeyAndRest(key + "=" + v) == Some((key, RStrip(v)))
  {
    hide Run, RStrip, Strip, IsSpace, StartsWith;
    var r := RStrip(v);
    StrippedAssignment(key, v);
    NotExported(key, r);
    KeyEndsAtEquals(key, r);
    KeyCharIsPlain(key[0]);
    KeyCharIsPlain(key[|key| - 1]);
    StripNothing(key);
  }

  lemma KeyEndsAtEquals(key: string, r: string)
    requires ValidKey(key)
    ensures var line := key + "=" + r;
            Run(IsNotEquals, line) == |key| && line[0] == key[0] && line[|key|] == '='
            && line[..|key|] == key && line[|key| + 1..] == r
  {
    var line := key + "=" + r;
    forall i | 0 <= i < |key| ensures IsNotEquals(line[i]) {
      KeyCharIsPlain(key[i]);
    }
    assert line[|key|] == '=';
    RunIs(IsNotEquals, line, |key|);
  }

  lemma KeyCharIsPlain(c: char)
    requires IsKeyChar(c)
    ensures !IsSpace(c) && c != '#' && c != '='
  {
  }

  lemma StrippedAssignment(key: string, v: string)
    requires ValidKey(key)
    ensures Strip(key + "=" + v) == key + "=" + RStrip(v)
  {
    var s, r := key + "=" + v, RStrip(v);
    KeyCharIsPlain(key[0]);
    assert s[0] == key[0];
    RunIs(IsSpace, s, 0);
    RStripBehind(key + "=", v);
    Associative(key, "=", v);
    Associative(key, "=", r);
  }

  /** Blanks are stripped only from what follows a text that ends in none. */
  lemma {:induction false} RStripBehind(w: string, v: string)
    requires w != "" && !IsSpace(w[|w| - 1])
    ensures RStrip(w + v) == w + RStrip(v)
  {
    if v == "" {
      assert w + v == w;
    } else if IsSpace(v[|v| - 1]) {
      RStripBehind(w, v[..|v| - 1]);
      assert (w + v)[..|w + v| - 1] == w + v[..|v| - 1];
    }
  }

  lemma NotExported(key: string, r: string)
    requires ValidKey(key)
    ensures !StartsWith(key + "=" + r, "export ")
  {
    var line := key + "=" + r;
    if |key| > 6 {
      KeyCharIsPlain(key[6]);
      assert line[6] == key[6];
    } else {
      assert line[|key|] == '=' && "export "[|key|] != '=';
    }
  }

  // ----- Single-quoted printing -----

  const SPLICE := ['\'', '"', '\'', '"', '\'']

  /** Inner single quotes leave the quotation, are quoted otherwise, and re-enter it. */
  function Spliced(v: string): string {
    if v == "" then ""
    else (if v[0] == SQUOTE then SPLICE else [v[0]]) + Spliced(v[1..])
  }

  function Quote(v: string): string {
    [SQUOTE] + Spliced(v) + [SQUOTE]
  }

  lemma LexSplice(x: string, token: string, quoted: bool)
    ensures Lex(SPLICE + x, Quoted(SQUOTE), token, quoted) == Lex(x, Quoted(SQUOTE), token + [SQUOTE], true)
  {
    var s := SPLICE + x;
    var s1, s2, s3, s4 := s[1..], s[2..], s[3..], s[4..];
    assert s[0] == SQUOTE && s1[1..] == s2 && s2[1..] == s3 && s3[1..] == s4 && s4[1..] == x;
    assert s1[0] == DQUOTE && s2[0] == SQUOTE && s3[0] == DQUOTE && s4[0] == SQUOTE;
    assert Lex(s, Quoted(SQUOTE), token, quoted) == Lex(s1, Word, token, true);
    assert Lex(s1, Word, token, true) == Lex(s2, Quoted(DQUOTE), token, true);
    assert Lex(s2, Quoted(DQUOTE), token, true) == Lex(s3, Quoted(DQUOTE), token + [SQUOTE], true);
    assert Lex(s3, Quoted(DQUOTE), token + [SQUOTE], true) == Lex(s4, Word, token + [SQUOTE], true);
  }

  lemma {:induction false} LexSpliced(v: string, token: string, quoted: bool)
    ensures Lex(Spliced(v) + [SQUOTE], Quoted(SQUOTE), token, quoted) == Some([token + v])
    decreases |v|
  {
    if v == "" {
      assert Spliced(v) + [SQUOTE] == [SQUOTE];
      assert [SQUOTE][1..] == "";
      assert token + v == token;
      assert Lex("", Word, token, true) == Some([token]);
    } else {
      var rest := Spliced(v[1..]) + [SQUOTE];
      LexSpliced(v[1..], token + [v[0]], true);
      Associative([token], [[v[0]]], [v[1..]]);
      assert token + [v[0]] + v[1..] == token + v;
      if v[0] == SQUOTE {
        Associative(SPLICE, Spliced(v[1..]), [SQUOTE]);
        LexSplice(rest, token, quoted);
      } else {
        Associative([v[0]], Spliced(v[1..]), [SQUOTE]);
        assert ([v[0]] + rest)[1..] == rest;
      }
    }
  }

  lemma SplitQuote(v: string)
    ensures Split(Quote(v)) == Some([v])
  {
    LexSpliced(v, "", false);
    assert Quote(v)[1..] == Spliced(v) + [SQUOTE];
    assert "" + v == v;
  }

  lemma ReadQuote(v: string)
    ensures RStrip(Quote(v)) == Quote(v)
    ensures ReadValue(Quote(v)) == Some(v) && ReadControlValue(Quote(v)) == Some(v)
  {
    var q := Quote(v);
    assert q[0] == SQUOTE && q[|q| - 1] == SQUOTE;
    RStripIs(q, |q|);
    StripNothing(q);
    SplitQuote(v);
  }

  /** A quoted line is read back by every parser. */
  lemma {:induction false} QuotedLine(key: string, v: string, control: bool)
    requires ValidKey(key)
    ensures ReadLine(key + "=" + Quote(v), control) == Some(Assignment(key, v))
  {
    AssignmentLine(key, Quote(v));
    ReadQuote(v);
  }

  // ----- Whole files -----

  predicate OneLine(s: string) {
    forall i | 0 <= i < |s| :: !IsLineBreak(s[i])
  }

  lemma SplitFirstLine(line: string, rest: string)
    requires OneLine(line)
    ensures SplitLines(line + "\n" + rest) == [line] + SplitLines(rest)
  {
    var text := line + "\n" + rest;
    assert text[|line|] == '\n';
    RunIs(IsNotBreak, text, |line|);
    assert text[..|line|] == line && text[|line| + 1..] == rest;
    assert SplitLines(text) == [line] + (if |line| + 1 < |text| then SplitLines(rest) else []);
  }

  function PrintLine(a: Assignment): string {
    a.key + "=" + Quote(a.value)
  }

  function Print(pairs: seq<Assignment>): string {
    if pairs == [] then "" else PrintLine(pairs[0]) + "\n" + Print(pairs[1..])
  }

  function PrintedLines(pairs: seq<Assignment>): seq<string> {
    seq(|pairs|, i requires 0 <= i < |pairs| => PrintLine(pairs[i]))
  }

  predicate Printable(pairs: seq<Assignment>) {
    forall i | 0 <= i < |pairs| :: ValidKey(pairs[i].key) && OneLine(pairs[i].value)
  }

  lemma {:induction false} SplicedOneLine(v: string)
    requires OneLine(v)
    ensures OneLine(Spliced(v))
  {
    if v != "" {
      SplicedOneLine(v[1..]);
      assert OneLine(SPLICE);
    }
  }

  lemma LineOneLine(a: Assignment)
    requires ValidKey(a.key) && OneLine(a.value)
    ensures OneLine(PrintLine(a))
  {
    SplicedOneLine(a.value);
    assert OneLine(Quote(a.value));
    assert OneLine(a.key + "=");
  }

  lemma PrintedHead(pairs: seq<Assignment>)
    requires pairs != []
    ensures PrintedLines(pairs) == [PrintLine(pairs[0])] + PrintedLines(pairs[1..])
  {
  }

  lemma {:induction false} PrintSplits(pairs: seq<Assignment>)
    requires Printable(pairs)
    ensures SplitLines(Print(pairs)) == PrintedLines(pairs)
  {
    if pairs != [] {
      PrintSplits(pairs[1..]);
      LineOneLine(pairs[0]);
      SplitFirstLine(PrintLine(pairs[0]), Print(pairs[1..]));
      PrintedHead(pairs);
    }
  }

  /** Every value read belongs to `m`, and every printed key was read. */
  predicate ReadsBack(r: map<string, string>, pairs: seq<Assignment>, m: map<string, string>) {
    && (forall k | k in r :: k in m && r[k] == m[k])
    && (forall i | 0 <= i < |pairs| :: pairs[i].key in r)
  }

  lemma LineReadsBack(pairs: seq<Assignment>, m: map<string, string>, control: bool)
    requires pairs != [] && Printable(pairs)
    ensures var n := |pairs| - 1;
            ReadLines(PrintedLines(pairs), control)
            == ReadLines(PrintedLines(pairs[..n]), control)[pairs[n].key := pairs[n].value]
  {
    var n := |pairs| - 1;
    PrintedFront(pairs);
    QuotedLine(pairs[n].key, pairs[n].value, control);
    assert PrintedLines(pairs)[n] == PrintLine(pairs[n]);
  }

  lemma {:induction false} LinesRoundTrip(pairs: seq<Assignment>, m: map<string, string>, control: bool)
    requires Printable(pairs) && forall i | 0 <= i < |pairs| :: pairs[i].key in m && m[pairs[i].key] == pairs[i].value
    ensures ReadsBack(ReadLines(PrintedLines(pairs), control), pairs, m)
  {
    if pairs != [] {
      var n := |pairs| - 1;
      LinesRoundTrip(pairs[..n], m, control);
      LineReadsBack(pairs, m, control);
      ReadsBackOneMore(ReadLines(PrintedLines(pairs[..n]), control), pairs, m);
    }
  }

  lemma ReadsBackOneMore(r: map<string, string>, pairs: seq<Assignment>, m: map<string, string>)
    requires pairs != [] && ReadsBack(r, pairs[..|pairs| - 1], m)
    requires var last := pairs[|pairs| - 1]; last.key in m && m[last.key] == last.value
    ensures var last := pairs[|pairs| - 1]; ReadsBack(r[last.key := last.value], pairs, m)
  {
    var n := |pairs| - 1;
    assert forall i | 0 <= i < n :: pairs[i] == pairs[..n][i];
  }

  lemma PrintedFront(pairs: seq<Assignment>)
    requires pairs != []
    ensures PrintedLines(pairs)[..|pairs| - 1] == PrintedLines(pairs[..|pairs| - 1])
  {
  }

  /** Printing a map, in any order, as single-quoted lines and parsing the text returns the map:
      for the agent, the metadata helper and the control helper alike. */
  lemma {:induction false} EnvRoundTrip(m: map<string, string>, pairs: seq<Assignment>, control: bool)
    requires forall k | k in m :: ValidKey(k) && OneLine(m[k])
    requires forall i | 0 <= i < |pairs| :: pairs[i].key in m && m[pairs[i].key] == pairs[i].value
    requires forall k | k in m :: Assignment(k, m[k]) in pairs
    ensures ReadLines(SplitLines(Print(pairs)), control) == m
  {
    PrintSplits(pairs);
    LinesRoundTrip(pairs, m, control);
    AllRead(ReadLines(PrintedLines(pairs), control), pairs, m);
  }

  lemma AllRead(r: map<string, string>, pairs: seq<Assignment>, m: map<string, string>)
    requires ReadsBack(r, pairs, m) && forall k | k in m :: Assignment(k, m[k]) in pairs
    ensures r == m
  {
    forall k | k in m ensures k in r {
      var i :| 0 <= i < |pairs| && pairs[i] == Assignment(k, m[k]);
      assert pairs[i].key in r;
    }
  }

  // ----- Unquoted values -----

  predicate HasComment(s: string) {
    exists i | 0 <= i <= |s| :: StartsWith(s[i..], " #")
  }

  predicate StartsQuoted(v: string) {
    v != "" && IsQuote(v[0])
  }

  lemma {:induction false} BeforeCommentIsAll(s: string)
    ensures BeforeComment(s) == s <==> !HasComment(s)
  {
    assert s[0..] == s;
    if s != "" && !StartsWith(s, " #") {
      BeforeCommentIsAll(s[1..]);
      HeadAndTail(s);
      CommentInTail(s);
      if BeforeComment(s) == s {
        assert BeforeComment(s)[1..] == BeforeComment(s[1..]);
      }
    }
  }

  lemma CommentInTail(s: string)
    requires s != "" && !StartsWith(s, " #")
    ensures HasComment(s) <==> HasComment(s[1..])
  {
    assert s[0..] == s;
    forall i | 0 <= i <= |s[1..]| ensures s[1..][i..] == s[i + 1..] {}
    if HasComment(s) {
      var i :| 0 <= i <= |s| && StartsWith(s[i..], " #");
      assert s[1..][i - 1..] == s[i..];
    }
    if HasComment(s[1..]) {
      var i :| 0 <= i <= |s[1..]| && StartsWith(s[1..][i..], " #");
      assert StartsWith(s[i + 1..], " #");
    }
  }

  /** The values that survive without quotes. */
  predicate Plain(v: string) {
    Strip(v) == v && !HasComment(v) && !StartsQuoted(v)
  }

  lemma StripOfRStrip(v: string)
    ensures Strip(RStrip(v)) == Strip(v)
  {
    hide RStrip, Run, Strip;
    var r, a := RStrip(v), Run(IsSpace, v);
    if r == "" {
      BlanksStrip(v);
      BlanksStrip(r);
    } else {
      BlanksBefore(v, r);
      StripBetween(v, a, |r|);
      StripBetween(r, a, |r|);
      SlicesOfPrefix(v, r, a);
    }
  }

  lemma BlanksStrip(v: string)
    requires forall i | 0 <= i < |v| :: IsSpace(v[i])
    ensures Strip(v) == ""
  {
    RunIs(IsSpace, v, |v|);
  }

  lemma SlicesOfPrefix(v: string, r: string, a: nat)
    requires r <= v && a <= |r|
    ensures v[a..|r|] == r[a..|r|]
  {
    assert r == v[..|r|];
  }

  lemma BlanksBefore(v: string, r: string)
    requires r <= v && r != "" && !IsSpace(r[|r| - 1])
    ensures var a := Run(IsSpace, v); a < |r| && !IsSpace(v[a]) && v[a] == r[a] && v[|r| - 1] == r[|r| - 1]
    ensures forall i | 0 <= i < Run(IsSpace, v) :: IsSpace(r[i])
  {
    assert v[|r| - 1] == r[|r| - 1];
  }

  lemma StripBetween(v: string, a: nat, b: nat)
    requires a < b <= |v| && !IsSpace(v[a]) && !IsSpace(v[b - 1])
    requires (forall i | 0 <= i < a :: IsSpace(v[i])) && (forall i | b <= i < |v| :: IsSpace(v[i]))
    ensures Strip(v) == v[a..b]
  {
    RunIs(IsSpace, v, a);
    RStripIs(v[a..], b - a);
  }

  /** An unquoted value survives exactly when it has no blank at either end, no comment
      and no quote at its start. */
  lemma {:induction false} PlainValueSurvives(key: string, v: string)
    requires ValidKey(key)
    ensures ReadLine(key + "=" + v, false) == Some(Assignment(key, v)) <==> Plain(v)
  {
    AssignmentLine(key, v);
    StripOfRStrip(v);
    ReadStripped(v);
  }

  lemma StripShortens(v: string)
    ensures |Strip(v)| <= |v| && (|Strip(v)| == |v| ==> Strip(v) == v)
  {
  }

  lemma ReadStripped(v: string)
    ensures ReadValue(RStrip(v)) == Some(v) <==> Plain(v)
  {
    StripOfRStrip(v);
    StripShortens(v);
    if StartsQuoted(Strip(v)) {
      QuotedIsShorter(Strip(v));
    } else {
      UnquotedIsCut(Strip(v));
    }
  }

  /** The agent skips a line exactly when its value starts with a quote and ends inside a quotation or behind an
      escape. */
  lemma SkippedIff(raw: string)
    ensures ReadValue(raw) == None <==>
            StartsQuoted(Strip(raw)) && !EndState(Strip(raw), Blank).Blank? && !EndState(Strip(raw), Blank).Word?
  {
    hide Strip;
    LexFailsIff(Strip(raw), Blank, "", false);
  }

  /** A quotation that is never closed makes every parser skip the line. */
  lemma UnclosedIsSkipped(q: char, body: string)
    requires IsQuote(q) && q !in body
    ensures ReadTrimmed([q] + body) == None && ReadControlValue([q] + body) == None
  {
    assert ([q] + body)[1..] == body;
    NeverClosed(body, q, Quoted(q));
    LexFailsIff([q] + body, Blank, "", false);
  }

  lemma UnquotedIsCut(t: string)
    requires !StartsQuoted(t) && (t != "" ==> !IsSpace(t[|t| - 1]))
    ensures ReadTrimmed(t).Some? && |ReadTrimmed(t).value| <= |t|
    ensures ReadTrimmed(t) == Some(t) <==> !HasComment(t)
  {
    BeforeCommentIsAll(t);
    RStripIs(t, |t|);
  }

  lemma QuotedIsShorter(t: string)
    requires StartsQuoted(t)
    ensures ReadTrimmed(t).Some? ==> |ReadTrimmed(t).value| < |t|
  {
    if Split(t).Some? {
      QuotedHasFirstToken(t);
    }
  }
}
