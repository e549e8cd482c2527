/**
 `shlex.split(value, comments=True, posix=True)` on one line of text, which all three env-file
 parsers use for quoted values.
 */
module Shlex {
  import opened Sequences

  const SQUOTE := '\''
  const DQUOTE := '"'

  /** Where the lexer stands; an escape returns to a word or to double quotes. */
  datatype State = Blank | Word | Quoted(quote: char) | Escaped(inQuotes: bool)

  predicate IsBlank(c: char) {
    c == ' ' || c == '\t' || c == '\r' || c == '\n'
  }

  predicate IsQuote(c: char) {
    c == SQUOTE || c == DQUOTE
  }

  /** The rest of the input behind a comment sign: everything up to the end of the line is dropped. */
  function AfterComment(s: string): (r: string)
    ensures |r| <= |s|
  {
    if s == "" then "" else if s[0] == '\n' then s[1..] else AfterComment(s[1..])
  }

  /** The tokens still to come, given the token read so far and whether it had quotes;
      None when a quotation or an escape is left open (ValueError). */
  function Lex(s: string, state: State, token: string, quoted: bool): Option<seq<string>>
    decreases |s|
  {
    if s == "" then
      if state.Quoted? || state.Escaped? then None
      else Some(Emitted(token, quoted))
    else
      var c, rest := s[0], s[1..];
      match state
      case Blank =>
        if IsBlank(c) then Lex(rest, Blank, "", false)
        else if c == '#' then Lex(AfterComment(rest), Blank, "", false)
        else if c == '\\' then Lex(rest, Escaped(false), "", false)
        else if IsQuote(c) then Lex(rest, Quoted(c), "", false)
        else Lex(rest, Word, [c], false)
      case Quoted(q) =>
        if c == q then Lex(rest, Word, token, true)
        else if c == '\\' && q == DQUOTE then Lex(rest, Escaped(true), token, true)
        else Lex(rest, Quoted(q), token + [c], true)
      case Escaped(inQuotes) =>
        var kept := if inQuotes && c != '\\' && c != DQUOTE then token + ['\\', c] else token + [c];
        Lex(rest, if inQuotes then Quoted(DQUOTE) else Word, kept, quoted)
      case Word =>
        if IsBlank(c) then Then(Emitted(token, quoted), Lex(rest, Blank, "", false))
        else if c == '#' then Then(Emitted(token, quoted), Lex(AfterComment(rest), Blank, "", false))
        else if IsQuote(c) then Lex(rest, Quoted(c), token, quoted)
        else if c == '\\' then Lex(rest, Escaped(false), token, quoted)
        else Lex(rest, Word, token + [c], quoted)
  }

  /** The finished token, if there is one: an empty one counts only when it was quoted. */
  function Emitted(token: string, quoted: bool): seq<string> {
    if token != "" || quoted then [token] else []
  }

  function Then(first: seq<string>, rest: Option<seq<string>>): Option<seq<string>> {
    match rest
    case None => None
    case Some(tokens) => Some(first + tokens)
  }

  function Split(s: string): Option<seq<string>> {
    Lex(s, Blank, "", false)
  }

  // ----- A quoted value always has a first token -----

  /** Once quotes were opened a token follows, and it starts with what was read so far; every
      character of input adds at most one to it. */
  lemma {:induction false} FirstToken(s: string, state: State, token: string, quoted: bool)
    requires state != Blank && (quoted || state.Quoted?) && Lex(s, state, token, quoted).Some?
    ensures var tokens := Lex(s, state, token, quoted).value;
            && tokens != [] && token <= tokens[0]
            && |tokens[0]| <= |token| + |s| + (if state == Escaped(true) then 1 else 0)
    decreases |s|
  {
    if s != "" {
      var c, rest := s[0], s[1..];
      match state
      case Quoted(q) =>
        if c == q { FirstToken(rest, Word, token, true); }
        else if c == '\\' && q == DQUOTE { FirstToken(rest, Escaped(true), token, true); }
        else { FirstToken(rest, Quoted(q), token + [c], true); }
      case Escaped(inQuotes) =>
        var kept := if inQuotes && c != '\\' && c != DQUOTE then token + ['\\', c] else token + [c];
        FirstToken(rest, if inQuotes then Quoted(DQUOTE) else Word, kept, quoted);
      case Word =>
        if IsQuote(c) { FirstToken(rest, Quoted(c), token, quoted); }
        else if c == '\\' { FirstToken(rest, Escaped(false), token, quoted); }
        else if !IsBlank(c) && c != '#' { FirstToken(rest, Word, token + [c], quoted); }
    }
  }

  /** A text that starts with a quote is malformed, or has a first token shorter than itself. */
  lemma QuotedHasFirstToken(value: string)
    requires value != "" && IsQuote(value[0]) && Split(value).Some?
    ensures Split(value).value != [] && |Split(value).value[0]| < |value|
  {
    FirstToken(value[1..], Quoted(value[0]), "", false);
  }

  // ----- Malformed quotations -----

  /** Where the lexer stands at the end of the text, whatever the tokens are. */
  function EndState(s: string, state: State): State
    decreases |s|
  {
    if s == "" then state
    else if (state == Blank || state == Word) && s[0] == '#' then EndState(AfterComment(s[1..]), Blank)
    else EndState(s[1..], Next(state, s[0]))
  }

  function Next(state: State, c: char): State {
    match state
    case Quoted(q) =>
      if c == q then Word else if c == '\\' && q == DQUOTE then Escaped(true) else state
    case Escaped(inQuotes) => if inQuotes then Quoted(DQUOTE) else Word
    case _ =>
      if IsBlank(c) then Blank
      else if IsQuote(c) then Quoted(c)
      else if c == '\\' then Escaped(false)
      else Word
  }

  /** The text is rejected exactly when it ends inside a quotation or behind an escape. */
  lemma {:induction false} LexFailsIff(s: string, state: State, token: string, quoted: bool)
    ensures Lex(s, state, token, quoted) == None <==> EndState(s, state).Quoted? || EndState(s, state).Escaped?
    decreases |s|
  {
    if s != "" {
      var c, rest := s[0], s[1..];
      match state
      case Blank =>
        if !IsBlank(c) && c == '#' { LexFailsIff(AfterComment(rest), Blank, "", false); }
        else { LexFailsIff(rest, Next(state, c), if Next(state, c) == Word then [c] else "", false); }
      case Quoted(q) =>
        LexFailsIff(rest, Next(state, c), if Next(state, c) == state then token + [c] else token, true);
      case Escaped(inQuotes) =>
        var kept := if inQuotes && c != '\\' && c != DQUOTE then token + ['\\', c] else token + [c];
        LexFailsIff(rest, Next(state, c), kept, quoted);
      case Word =>
        if !IsBlank(c) && c == '#' { LexFailsIff(AfterComment(rest), Blank, "", false); }
        else if IsBlank(c) { LexFailsIff(rest, Blank, "", false); }
        else { LexFailsIff(rest, Next(state, c), if Next(state, c) == Word then token + [c] else token, quoted); }
    }
  }

  /** A quotation that is never closed is still open at the end. */
  lemma {:induction false} NeverClosed(body: string, q: char, state: State)
    requires IsQuote(q) && q !in body && (state == Quoted(q) || (q == DQUOTE && state == Escaped(true)))
    ensures EndState(body, state) == Quoted(q) || EndState(body, state) == Escaped(true)
  {
    if body != "" {
      assert body[0] in body && forall c | c in body[1..] :: c in body;
      NeverClosed(body[1..], q, Next(state, body[0]));
    }
  }
}
