/** When the control helper reads a declaration as the agent and the metadata helper do. */
module EnvAgreement {
  import opened Sequences
  import opened Text
  import opened Shlex
  import opened EnvFile
  import opened EnvTheorems

  /** A value the control helper reads differently: it is preceded by blanks, and then starts with
      a quote, or with a hash directly behind a space. */
  predicate Troubled(raw: string) {
    var a := Run(IsSpace, raw);
    0 < a < |raw| && (IsQuote(raw[a]) || (raw[a] == '#' && raw[a - 1] == ' '))
  }

  // ----- Values behind blanks, without a quote -----

  /** `blanks + v` has no comment sign before `v` unless `v` makes one with the last blank. */
  lemma {:induction false} CommentBehindBlanks(blanks: string, v: string)
    requires (forall i | 0 <= i < |blanks| :: IsSpace(blanks[i])) && v != "" && !IsSpace(v[0])
    requires !(blanks != "" && blanks[|blanks| - 1] == ' ' && v[0] == '#')
    ensures BeforeComment(blanks + v) == blanks + BeforeComment(v)
  {
    hide StartsWith, IsSpace;
    var s := blanks + v;
    if blanks == "" {
      assert s == v;
    } else {
      CommentBehindBlanks(blanks[1..], v);
      assert s[1..] == blanks[1..] + v;
      NoCommentSign(blanks, v);
      HeadAndTail(blanks);
      Associative([blanks[0]], blanks[1..], BeforeComment(v));
    }
  }

  lemma CommentSign(s: string)
    ensures StartsWith(s, " #") <==> |s| > 1 && s[0] == ' ' && s[1] == '#'
  {
    if |s| > 1 {
      assert s[..2] == [s[0], s[1]];
    }
  }

  lemma NoCommentSign(blanks: string, v: string)
    requires blanks != "" && v != "" && (forall i | 0 <= i < |blanks| :: IsSpace(blanks[i]))
    requires !(blanks[|blanks| - 1] == ' ' && v[0] == '#')
    ensures !StartsWith(blanks + v, " #")
  {
    CommentSign(blanks + v);
    assert (blanks + v)[1] == if |blanks| > 1 then blanks[1] else v[0];
  }

  lemma {:induction false} CommentAtOnce(blanks: string, v: string)
    requires (forall i | 0 <= i < |blanks| :: IsSpace(blanks[i])) && blanks != "" && v != ""
    requires blanks[|blanks| - 1] == ' ' && v[0] == '#'
    ensures BeforeComment(blanks + v) == blanks[..|blanks| - 1]
  {
    var s := blanks + v;
    CommentSign(s);
    if |blanks| > 1 {
      CommentAtOnce(blanks[1..], v);
      assert s[1..] == blanks[1..] + v;
      assert s[1] == blanks[1];
      FirstAndMiddle(blanks);
    }
  }

  lemma FirstAndMiddle(s: string)
    requires |s| > 1
    ensures [s[0]] + s[1..][..|s| - 2] == s[..|s| - 1]
  {
  }

  lemma StripBlanksBefore(blanks: string, w: string)
    requires (forall i | 0 <= i < |blanks| :: IsSpace(blanks[i])) && w != "" && !IsSpace(w[0])
    ensures Strip(blanks + w) == RStrip(w)
  {
    assert (blanks + w)[|blanks|] == w[0];
    RunIs(IsSpace, blanks + w, |blanks|);
    assert (blanks + w)[|blanks|..] == w;
  }

  lemma StartKept(v: string)
    requires v != "" && !IsSpace(v[0])
    ensures BeforeComment(v) != "" && BeforeComment(v)[0] == v[0]
    ensures RStrip(BeforeComment(v)) != "" && RStrip(BeforeComment(v))[0] == v[0]
  {
    var w := BeforeComment(v);
    assert w[0] == v[0];
  }

  // ----- Quoted values: the token never equals the unparsed text -----

  /** What the text up to a comment never is: ending in a blank, or holding a comment sign. */
  predicate Tainted(t: string) {
    (t != "" && IsSpace(t[|t| - 1])) || HasComment(t)
  }

  lemma HashTaints(token: string, t: string)
    requires token + " #" <= t
    ensures Tainted(t)
  {
    assert t[|token|..][..2] == " #";
  }

  /** Reading on over blanks adds nothing to the token, or taints it. */
  lemma {:induction false} TokenOverBlanks(blanks: string, tail: string, state: State, token: string, quoted: bool)
    requires forall i | 0 <= i < |blanks| :: IsSpace(blanks[i])
    requires tail == "" || StartsWith(tail, " #")
    requires state != Blank && (quoted || state.Quoted?) && (state.Quoted? ==> IsQuote(state.quote))
    requires Lex(blanks + tail, state, token, quoted).Some?
    ensures var tokens := Lex(blanks + tail, state, token, quoted).value;
            tokens != [] && (tokens[0] == token || Tainted(tokens[0]))
  {
    var s := blanks + tail;
    FirstToken(s, state, token, quoted);
    if blanks != "" {
      assert s[0] == blanks[0] && s[1..] == blanks[1..] + tail;
      var c := s[0];
      match state
      case Word =>
        if !IsBlank(c) { TokenOverBlanks(blanks[1..], tail, Word, token + [c], quoted); }
      case Quoted(q) =>
        TokenOverBlanks(blanks[1..], tail, Quoted(q), token + [c], true);
      case Escaped(inQuotes) =>
        var kept := if inQuotes then token + ['\\', c] else token + [c];
        TokenOverBlanks(blanks[1..], tail, if inQuotes then Quoted(DQUOTE) else Word, kept, quoted);
    } else if tail != "" {
      assert s == tail;
      TokenIntoComment(tail, state, token, quoted);
    }
  }

  lemma TokenIntoComment(s: string, state: State, token: string, quoted: bool)
    requires StartsWith(s, " #")
    requires state != Blank && (quoted || state.Quoted?) && (state.Quoted? ==> IsQuote(state.quote))
    requires Lex(s, state, token, quoted).Some?
    ensures var tokens := Lex(s, state, token, quoted).value;
            tokens != [] && (tokens[0] == token || Tainted(tokens[0]))
  {
    var rest := s[1..];
    assert s[0] == ' ' && rest[0] == '#';
    FirstToken(s, state, token, quoted);
    match state
    case Word =>
    case Quoted(q) =>
      FirstToken(rest[1..], Quoted(q), token + [' '] + ['#'], true);
      assert token + [' '] + ['#'] == token + " #";
      HashTaints(token, Lex(s, state, token, quoted).value[0]);
    case Escaped(inQuotes) =>
      if inQuotes {
        var kept := token + ['\\', ' '];
        FirstToken(rest[1..], Quoted(DQUOTE), kept + ['#'], true);
        assert kept + ['#'] == token + ['\\'] + " #";
        HashTaints(token + ['\\'], Lex(s, state, token, quoted).value[0]);
      } else {
        assert Lex(s, state, token, quoted) == Lex(rest, Word, token + [' '], quoted);
      }
  }

  /** Reading a text of which the token already misses a character: it stays shorter than the text,
      unless it runs on behind it. */
  lemma {:induction false} TokenFallsShort(
    text: string, blanks: string, tail: string, state: State, token: string, quoted: bool, n: nat)
    requires forall i | 0 <= i < |blanks| :: IsSpace(blanks[i])
    requires tail == "" || StartsWith(tail, " #")
    requires state != Blank && (quoted || state.Quoted?) && (state.Quoted? ==> IsQuote(state.quote))
    requires Lex(text + (blanks + tail), state, token, quoted).Some?
    requires |token| + |text| + (if state == Escaped(true) then 1 else 0) < n
    ensures var tokens := Lex(text + (blanks + tail), state, token, quoted).value;
            tokens != [] && (|tokens[0]| < n || Tainted(tokens[0]))
    decreases |text|
  {
    var s := text + (blanks + tail);
    FirstToken(s, state, token, quoted);
    if text == "" {
      assert s == blanks + tail;
      TokenOverBlanks(blanks, tail, state, token, quoted);
    } else {
      var c, rest := text[0], text[1..];
      assert s[0] == c && s[1..] == rest + (blanks + tail);
      match state
      case Word =>
        if IsQuote(c) { TokenFallsShort(rest, blanks, tail, Quoted(c), token, quoted, n); }
        else if c == '\\' { TokenFallsShort(rest, blanks, tail, Escaped(false), token, quoted, n); }
        else if !IsBlank(c) && c != '#' { TokenFallsShort(rest, blanks, tail, Word, token + [c], quoted, n); }
      case Quoted(q) =>
        if c == q { TokenFallsShort(rest, blanks, tail, Word, token, true, n); }
        else if c == '\\' && q == DQUOTE { TokenFallsShort(rest, blanks, tail, Escaped(true), token, true, n); }
        else { TokenFallsShort(rest, blanks, tail, Quoted(q), token + [c], true, n); }
      case Escaped(inQuotes) =>
        var kept := if inQuotes && c != '\\' && c != DQUOTE then token + ['\\', c] else token + [c];
        TokenFallsShort(rest, blanks, tail, if inQuotes then Quoted(DQUOTE) else Word, kept, quoted, n);
    }
  }

  // ----- The two readings of one value -----

  lemma {:induction false} CommentCut(v: string) returns (tail: string)
    ensures v == BeforeComment(v) + tail && (tail == "" || StartsWith(tail, " #"))
    ensures !HasComment(BeforeComment(v))
  {
    if v == "" {
      tail := "";
      BeforeCommentIsAll("");
    } else if StartsWith(v, " #") {
      tail := v;
      BeforeCommentIsAll("");
    } else {
      tail := CommentCut(v[1..]);
      var w := BeforeComment(v[1..]);
      HeadAndTail(v);
      Associative([v[0]], w, tail);
      assert ([v[0]] + w)[1..] == w;
      NoCommentFront(v, w);
      CommentInTail([v[0]] + w);
    }
  }

  lemma NoCommentFront(v: string, w: string)
    requires v != "" && !StartsWith(v, " #") && w <= v[1..]
    ensures !StartsWith([v[0]] + w, " #")
  {
    var s := [v[0]] + w;
    if |s| >= 2 {
      assert s[..2] == v[..2];
    }
  }

  /** For a value that starts with a quote, the first token is never the text up to the comment. */
  lemma TokenIsNotTheText(v: string)
    requires StartsQuoted(v) && Split(v).Some?
    ensures Split(v).value != [] && Split(v).value[0] != RStrip(BeforeComment(v))
  {
    var tail := CommentCut(v);
    var w := BeforeComment(v);
    var c := RStrip(w);
    var blanks := w[|c|..];
    QuotedStart(v);
    assert w == c + blanks;
    TextFallsShort(v, c, blanks, tail);
    NoTaint(w, c);
  }

  lemma TextFallsShort(v: string, c: string, blanks: string, tail: string)
    requires StartsQuoted(v) && Split(v).Some? && c != "" && v == c + blanks + tail
    requires (forall i | 0 <= i < |blanks| :: IsSpace(blanks[i])) && (tail == "" || StartsWith(tail, " #"))
    ensures Split(v).value != [] && (|Split(v).value[0]| < |c| || Tainted(Split(v).value[0]))
  {
    AfterStart(v, c, blanks, tail);
    TokenFallsShort(c[1..], blanks, tail, Quoted(v[0]), "", false, |c|);
  }

  /** The text up to the comment keeps the quote. */
  lemma QuotedStart(v: string)
    requires StartsQuoted(v)
    ensures RStrip(BeforeComment(v)) != ""
  {
    QuoteIsNoSpace(v[0]);
    StartKept(v);
  }

  lemma AfterStart(v: string, c: string, blanks: string, tail: string)
    requires c != "" && v == c + blanks + tail
    ensures v[1..] == c[1..] + (blanks + tail)
  {
  }

  lemma QuoteIsNoSpace(c: char)
    requires IsQuote(c)
    ensures !IsSpace(c)
  {
  }

  lemma NoTaint(w: string, c: string)
    requires !HasComment(w) && c == RStrip(w)
    ensures !Tainted(c)
  {
    forall i | 0 <= i <= |c| ensures !StartsWith(c[i..], " #") {
      if i + 2 <= |c| {
        assert w[i..][..2] == c[i..][..2];
      }
    }
  }

  lemma NoBlankBefore(raw: string)
    requires raw != "" ==> !IsSpace(raw[|raw| - 1])
    requires Run(IsSpace, raw) == 0
    ensures ReadValue(raw) == ReadControlValue(raw)
  {
    StripNothing(raw);
    if !StartsQuoted(raw) {
      UnquotedReading(raw);
    }
  }

  lemma UnquotedReading(raw: string)
    requires Run(IsSpace, raw) == 0
    ensures Strip(BeforeComment(raw)) == RStrip(BeforeComment(raw))
  {
    if raw != "" {
      StartKept(raw);
    }
    RunIs(IsSpace, BeforeComment(raw), 0);
  }

  /** A value behind blanks, as both readings find it. */
  ghost predicate BehindBlanks(blanks: string, v: string) {
    && blanks != "" && (forall i | 0 <= i < |blanks| :: IsSpace(blanks[i]))
    && v != "" && !IsSpace(v[0]) && !IsSpace(v[|v| - 1])
  }

  lemma AgentReading(blanks: string, v: string)
    requires BehindBlanks(blanks, v)
    ensures Strip(blanks + v) == v && !StartsQuoted(blanks + v)
    ensures !IsQuote(v[0]) ==> ReadValue(blanks + v) == Some(RStrip(BeforeComment(v)))
  {
    assert (blanks + v)[0] == blanks[0];
    StripBlanksBefore(blanks, v);
    RStripIs(v, |v|);
  }

  lemma ControlReading(blanks: string, v: string)
    requires BehindBlanks(blanks, v)
    ensures ReadControlValue(blanks + v)
         == Some(if v[0] == '#' && blanks[|blanks| - 1] == ' ' then "" else RStrip(BeforeComment(v)))
  {
    assert (blanks + v)[0] == blanks[0];
    if v[0] == '#' && blanks[|blanks| - 1] == ' ' {
      CommentAtOnce(blanks, v);
      RunIs(IsSpace, blanks[..|blanks| - 1], |blanks| - 1);
    } else {
      CommentBehindBlanks(blanks, v);
      StartKept(v);
      StripBlanksBefore(blanks, BeforeComment(v));
    }
  }

  lemma BlankBefore(blanks: string, v: string)
    requires BehindBlanks(blanks, v)
    ensures ReadValue(blanks + v) == ReadControlValue(blanks + v)
        <==> !(IsQuote(v[0]) || (v[0] == '#' && blanks[|blanks| - 1] == ' '))
  {
    AgentReading(blanks, v);
    ControlReading(blanks, v);
    StartKept(v);
    if IsQuote(v[0]) && Split(v).Some? {
      TokenIsNotTheText(v);
    }
  }

  /** On a value without blanks behind it, the two readings differ exactly when it is troubled. */
  lemma {:induction false} ReadingsAgreeIff(raw: string)
    requires raw != "" ==> !IsSpace(raw[|raw| - 1])
    ensures ReadValue(raw) == ReadControlValue(raw) <==> !Troubled(raw)
  {
    var a := Run(IsSpace, raw);
    if a == 0 {
      NoBlankBefore(raw);
    } else {
      assert raw == raw[..a] + raw[a..];
      BlankBefore(raw[..a], raw[a..]);
    }
  }

  /** The lines that the control helper reads differently. */
  predicate TroubledLine(line: string) {
    KeyAndRest(line).Some? && Troubled(KeyAndRest(line).value.1)
  }

  lemma RestIsStripped(line: string)
    requires KeyAndRest(line).Some?
    ensures var raw := KeyAndRest(line).value.1; raw != "" ==> !IsSpace(raw[|raw| - 1])
  {
    BodyKeepsEnd(Strip(line));
    RestEndsBody(line);
  }

  lemma RestEndsBody(line: string)
    requires KeyAndRest(line).Some?
    ensures var raw, body := KeyAndRest(line).value.1, Body(Strip(line));
            raw != "" ==> body != "" && raw[|raw| - 1] == body[|body| - 1]
  {
    hide Run, Strip, LStrip, ValidKey;
  }

  lemma BodyKeepsEnd(s: string)
    requires s != ""
    ensures var body := Body(s); body != "" ==> body[|body| - 1] == s[|s| - 1]
  {
  }

  /** The control helper agrees with the other two on a line exactly when its value is not one that
      is preceded by blanks and then quoted or commented. */
  lemma {:induction false} LinesAgreeIff(line: string)
    ensures ReadLine(line, false) == ReadLine(line, true) <==> !TroubledLine(line)
  {
    match KeyAndRest(line)
    case None =>
    case Some((key, raw)) =>
      RestIsStripped(line);
      RestsAgreeIff(key, raw);
  }

  lemma RestsAgreeIff(key: string, raw: string)
    requires raw != "" ==> !IsSpace(raw[|raw| - 1])
    ensures ReadRest(key, raw, false) == ReadRest(key, raw, true) <==> !Troubled(raw)
  {
    ReadingsAgreeIff(raw);
  }

  /** Hence the parsers return equal maps on every file without such a line. */
  lemma {:induction false} ParsersAgree(lines: seq<string>)
    requires forall i | 0 <= i < |lines| :: !TroubledLine(lines[i])
    ensures ReadLines(lines, false) == ReadLines(lines, true)
  {
    if lines != [] {
      ParsersAgree(lines[..|lines| - 1]);
      LinesAgreeIff(lines[|lines| - 1]);
    }
  }
}
