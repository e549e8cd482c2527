/** The grammar of the lines that assign something, and of what they assign. */
module EnvLines {
  import opened Sequences
  import opened Text
  import opened Shlex
  import opened EnvFile
  import opened EnvTheorems
  import opened EnvAgreement

  predicate Blanks(s: string) {
    forall i | 0 <= i < |s| :: IsSpace(s[i])
  }

  /** The parts of a line: blanks, an optional `export` with the blanks behind its space, the key, blanks, the
      equals sign, the raw value, blanks. */
  datatype Line = Line(before: string, exported: Option<string>, key: string, gap: string, rest: string, after: string)
  {
    predicate Valid() {
      && Blanks(before) && Blanks(gap) && Blanks(after) && (exported.Some? ==> Blanks(exported.value))
      && ValidKey(key) && (rest != "" ==> !IsSpace(rest[|rest| - 1]))
      && (exported.None? && key == "export" && gap != "" ==> gap[0] != ' ')
    }

    function Tail(): string {
      "=" + rest
    }

    /** The line from its key on. */
    function Declaration(): string {
      key + (gap + Tail())
    }

    function Prefix(): string {
      if exported.Some? then "export " + exported.value else ""
    }

    function Stripped(): string {
      Prefix() + Declaration()
    }

    function Text(): string {
      before + (Stripped() + after)
    }
  }

  // ----- Lines of this shape are read -----

  lemma DeclarationEnds(l: Line)
    requires l.Valid()
    ensures var d := l.Declaration();
            && d != "" && !IsSpace(d[0]) && d[0] != '#' && d[0] == l.key[0]
            && !IsSpace(d[|d| - 1])
  {
    KeyCharIsPlain(l.key[0]);
    var t := l.Tail();
    assert t[|t| - 1] == if l.rest == "" then '=' else l.rest[|l.rest| - 1];
    assert l.Declaration()[|l.Declaration()| - 1] == t[|t| - 1];
  }

  lemma StrippedEnds(l: Line)
    requires l.Valid()
    ensures var s := l.Stripped(); s != "" && !IsSpace(s[0]) && s[0] != '#' && !IsSpace(s[|s| - 1])
  {
    DeclarationEnds(l);
    var s, d := l.Stripped(), l.Declaration();
    assert s[|s| - 1] == d[|d| - 1];
    assert l.exported.Some? ==> s[0] == 'e';
  }

  lemma StripText(l: Line)
    requires l.Valid()
    ensures Strip(l.Text()) == l.Stripped()
  {
    StrippedEnds(l);
    SurroundedByBlanks(l.before, l.Stripped(), l.after);
  }

  lemma SurroundedByBlanks(before: string, s: string, after: string)
    requires Blanks(before) && Blanks(after) && s != "" && !IsSpace(s[0]) && !IsSpace(s[|s| - 1])
    ensures Strip(before + (s + after)) == s
  {
    var v, a, b := before + (s + after), |before|, |before| + |s|;
    assert v[a] == s[0] && v[b - 1] == s[|s| - 1];
    assert forall i | 0 <= i < a :: v[i] == before[i];
    assert forall i | b <= i < |v| :: v[i] == after[i - b];
    StripBetween(v, a, b);
    assert v[a..b] == s;
  }

  lemma NoExport(l: Line)
    requires l.Valid() && l.exported.None?
    ensures !StartsWith(l.Declaration(), "export ")
  {
    var d, e := l.Declaration(), "export ";
    if StartsWith(d, e) {
      assert forall i | 0 <= i < 7 :: d[i] == e[i];
      KeyIsExport(l.key, l.gap + l.Tail());
    }
  }

  lemma KeyIsExport(key: string, x: string)
    requires ValidKey(key) && x != "" && (IsSpace(x[0]) || x[0] == '=') && StartsWith(key + x, "export ")
    ensures key == "export" && x[0] == ' '
  {
    var d, e := key + x, "export ";
    assert forall i | 0 <= i < 7 :: d[i] == e[i];
    assert d[|key|] == x[0] && !IsKeyChar(x[0]);
    assert forall i | 0 <= i < |key| :: d[i] == key[i];
    forall c | IsKeyChar(c) ensures !IsSpace(c) && c != '=' {
      KeyCharIsPlain(c);
    }
    assert forall i | 0 <= i < 6 :: IsKeyChar(e[i]) && d[i] == e[i];
    assert d[6] == ' ';
    assert key == d[..|key|];
    assert d[..6] == e[..6];
  }

  lemma BodyOfStripped(l: Line)
    requires l.Valid()
    ensures Body(l.Stripped()) == l.Declaration()
  {
    match l.exported
    case None =>
      assert l.Stripped() == l.Declaration();
      NoExport(l);
    case Some(blanks) =>
      DeclarationEnds(l);
      ExportIsCut(blanks, l.Declaration());
  }

  lemma ExportIsCut(blanks: string, d: string)
    requires Blanks(blanks) && d != "" && !IsSpace(d[0])
    ensures Body("export " + blanks + d) == d
  {
    hide Run, LStrip;
    Associative("export ", blanks, d);
    BehindFirst("export ", blanks + d, 0);
    BlanksAreCut(blanks, d);
  }

  lemma BlanksAreCut(blanks: string, d: string)
    requires Blanks(blanks) && d != "" && !IsSpace(d[0])
    ensures LStrip(blanks + d) == d
  {
    assert (blanks + d)[|blanks|] == d[0];
    RunIs(IsSpace, blanks + d, |blanks|);
  }

  lemma SplitAtEquals(l: Line)
    requires l.Valid()
    ensures var d, n := l.Declaration(), |l.key| + |l.gap|;
            Run(IsNotEquals, d) == n && n < |d| && d[..n] == l.key + l.gap && d[n + 1..] == l.rest
  {
    var d, n := l.Declaration(), |l.key| + |l.gap|;
    assert d == (l.key + l.gap) + l.Tail();
    forall i | 0 <= i < n ensures IsNotEquals(d[i]) {
      if i < |l.key| {
        KeyCharIsPlain(l.key[i]);
        assert d[i] == l.key[i];
      } else {
        assert d[i] == l.gap[i - |l.key|];
      }
    }
    assert d[n] == l.Tail()[0];
    RunIs(IsNotEquals, d, n);
    assert l.Tail()[1..] == l.rest;
  }

  lemma StrippedKey(key: string, gap: string)
    requires ValidKey(key) && Blanks(gap)
    ensures Strip(key + gap) == key
  {
    KeyCharIsPlain(key[0]);
    KeyCharIsPlain(key[|key| - 1]);
    SurroundedByBlanks("", key, gap);
    assert "" + (key + gap) == key + gap;
  }

  /** Every line of this shape assigns its raw value to its key. */
  lemma LineIsRead(l: Line)
    requires l.Valid()
    ensures KeyAndRest(l.Text()) == Some((l.key, l.rest))
  {
    StripText(l);
    StrippedEnds(l);
    BodyOfStripped(l);
    DeclarationIsSplit(l);
  }

  lemma DeclarationIsSplit(l: Line)
    requires l.Valid()
    ensures SplitBody(l.Declaration()) == Some((l.key, l.rest))
  {
    hide Run, Strip;
    SplitAtEquals(l);
    StrippedKey(l.key, l.gap);
  }

  // ----- Only lines of this shape are read -----

  lemma StripSplits(s: string) returns (before: string, after: string)
    ensures Blanks(before) && Blanks(after)
    ensures Strip(s) != "" ==> s == before + (Strip(s) + after)
  {
    hide RStrip;
    before := LStripSplits(s);
    after := RStripSplits(LStrip(s));
  }

  lemma BodySplits(line: string) returns (exported: Option<string>)
    ensures exported.Some? ==> Blanks(exported.value)
    ensures line == (if exported.Some? then "export " + exported.value else "") + Body(line)
    ensures exported.None? <==> !StartsWith(line, "export ")
  {
    exported := None;
    if StartsWith(line, "export ") {
      var blanks := LStripSplits(line[7..]);
      exported := Some(blanks);
      ExportSplits(line, blanks, LStrip(line[7..]));
    } else {
      assert "" + line == line;
    }
  }

  lemma LStripSplits(r: string) returns (blanks: string)
    ensures Blanks(blanks) && r == blanks + LStrip(r)
  {
    blanks := r[..Run(IsSpace, r)];
  }

  lemma ExportSplits(line: string, blanks: string, body: string)
    requires StartsWith(line, "export ") && line[7..] == blanks + body
    ensures line == "export " + blanks + body
  {
    assert line == "export " + line[7..];
    Associative("export ", blanks, body);
  }

  /** What is stripped off the key is the gap: the body itself starts without a blank. */
  lemma KeySplits(k: string) returns (gap: string)
    requires Strip(k) != "" && (k != "" ==> !IsSpace(k[0]))
    ensures k == Strip(k) + gap && Blanks(gap)
  {
    hide Run, RStrip, LStrip;
    LStripKeeps(k);
    gap := RStripSplits(k);
  }

  lemma LStripKeeps(k: string)
    requires k != "" ==> !IsSpace(k[0])
    ensures LStrip(k) == k
  {
    RunIs(IsSpace, k, 0);
  }

  lemma RStripSplits(r: string) returns (after: string)
    ensures Blanks(after) && r == RStrip(r) + after
  {
    hide RStrip;
    after := r[|RStrip(r)|..];
  }

  lemma BodyStart(line: string)
    requires line != "" && !IsSpace(line[0]) && Body(line) != ""
    ensures !IsSpace(Body(line)[0])
  {
  }

  lemma LineSplits(line: string) returns (l: Line)
    requires KeyAndRest(line).Some?
    ensures l.key == KeyAndRest(line).value.0 && l.rest == KeyAndRest(line).value.1
    ensures Blanks(l.before) && Blanks(l.gap) && Blanks(l.after) && (l.exported.Some? ==> Blanks(l.exported.value))
    ensures l.Text() == line && l.Stripped() == Strip(line)
    ensures l.exported.None? <==> !StartsWith(Strip(line), "export ")
  {
    var before, after := StripSplits(line);
    var exported := BodySplits(Strip(line));
    var gap := DeclarationSplits(Strip(line));
    l := Line(before, exported, KeyAndRest(line).value.0, gap, KeyAndRest(line).value.1, after);
  }

  lemma DeclarationSplits(line: string) returns (gap: string)
    requires line != "" && !IsSpace(line[0]) && SplitBody(Body(line)).Some?
    ensures Blanks(gap)
    ensures var split := SplitBody(Body(line)).value; Body(line) == split.0 + (gap + ("=" + split.1))
  {
    BodyStart(line);
    gap := BodyIsDeclaration(Body(line));
  }

  lemma BodyIsDeclaration(body: string) returns (gap: string)
    requires SplitBody(body).Some? && (body != "" ==> !IsSpace(body[0]))
    ensures Blanks(gap)
    ensures body == SplitBody(body).value.0 + (gap + ("=" + SplitBody(body).value.1))
  {
    var n := Run(IsNotEquals, body);
    gap := KeySplits(body[..n]);
    EqualsSplits(body, n);
    Associative(Strip(body[..n]), gap, "=" + body[n + 1..]);
  }

  lemma EqualsSplits(body: string, n: nat)
    requires n < |body| && body[n] == '='
    ensures body == body[..n] + ("=" + body[n + 1..])
  {
  }

  /** Only lines of this shape are read: the rest are skipped. */
  lemma LineIsOfThisShape(line: string) returns (l: Line)
    requires KeyAndRest(line).Some?
    ensures l.Valid() && l.Text() == line && KeyAndRest(line) == Some((l.key, l.rest))
  {
    hide KeyAndRest, ValidKey, IsSpace;
    l := LineSplits(line);
    KeyIsValid(line);
    RestIsStripped(line);
    if l.exported.None? {
      assert l.Stripped() == l.Declaration();
      ExportThenBlank(l.key, l.gap, l.Tail());
    }
  }

  lemma KeyIsValid(line: string)
    requires KeyAndRest(line).Some?
    ensures ValidKey(KeyAndRest(line).value.0)
  {
    hide Run, Strip, LStrip;
  }

  lemma ExportThenBlank(key: string, gap: string, tail: string)
    requires !StartsWith(key + (gap + tail), "export ")
    ensures key == "export" && gap != "" ==> gap[0] != ' '
  {
    if key == "export" && gap != "" {
      var t := key + (gap + tail);
      assert t[..6] == "export" && t[6] == gap[0];
      assert t[..7] == t[..6] + [t[6]];
    }
  }

  // ----- An input that fails -----

  /** A blank in front of a quote: the agent unquotes, the control helper does not. */
  lemma QuotedBehindBlank(key: string, v: string)
    requires ValidKey(key)
    ensures var line := key + "=" + (" " + Quote(v));
            && ReadLine(line, false) == Some(Assignment(key, v))
            && ReadLine(line, true) == Some(Assignment(key, RStrip(BeforeComment(Quote(v)))))
            && ReadLine(line, false) != ReadLine(line, true)
  {
    var q := Quote(v);
    var raw := " " + q;
    assert q[0] == SQUOTE && q[|q| - 1] == SQUOTE;
    assert raw[|raw| - 1] == SQUOTE;
    RStripIs(raw, |raw|);
    AssignmentLine(key, raw);
    QuotedReadings(v);
  }

  lemma QuotedReadings(v: string)
    ensures ReadValue(" " + Quote(v)) == Some(v)
    ensures ReadControlValue(" " + Quote(v)) == Some(RStrip(BeforeComment(Quote(v))))
    ensures v != RStrip(BeforeComment(Quote(v)))
  {
    var q := Quote(v);
    assert q[0] == SQUOTE && q[|q| - 1] == SQUOTE;
    AgentReading(" ", q);
    ControlReading(" ", q);
    StripNothing(q);
    ReadQuote(v);
    SplitQuote(v);
    TokenIsNotTheText(q);
  }

  /** The line `A= 'x'` gives `x` to the agent and `'x'` to the control helper. */
  lemma BlankBeforeQuote()
    ensures ReadLine("A= 'x'", false) == Some(Assignment("A", "x"))
    ensures ReadLine("A= 'x'", true) == Some(Assignment("A", "'x'"))
  {
    QuotedLetter();
    assert "A" + "=" + (" " + "'x'") == "A= 'x'";
    assert ValidKey("A");
    NothingToCut("'x'");
    QuotedWithoutComment("A= 'x'", "A", "x", "'x'");
  }

  lemma QuotedWithoutComment(line: string, key: string, v: string, q: string)
    requires ValidKey(key) && line == key + "=" + (" " + q) && q == Quote(v) && RStrip(BeforeComment(q)) == q
    ensures ReadLine(line, false) == Some(Assignment(key, v)) && ReadLine(line, true) == Some(Assignment(key, q))
  {
    QuotedBehindBlank(key, v);
  }

  lemma QuotedLetter()
    ensures Quote("x") == "'x'"
  {
  }

  lemma NothingToCut(s: string)
    requires |s| == 3 && s[0] != ' ' && s[1] != ' ' && s[2] != ' ' && !IsSpace(s[2])
    ensures RStrip(BeforeComment(s)) == s
  {
    forall i | 0 <= i <= 3 ensures !StartsWith(s[i..], " #") {
      CommentSign(s[i..]);
    }
    BeforeCommentIsAll(s);
    RStripIs(s, 3);
  }
}
