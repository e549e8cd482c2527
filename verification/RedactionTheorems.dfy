/** A redacted text holds no secret the patterns recognise, and redacting it again changes nothing. */
module RedactionTheorems {
  import opened Sequences
  import opened Text
  import opened Redaction

  // ----- Texts in which every key/value match is already hidden -----

  predicate HiddenHere(s: string) {
    KeyValue(s).Some? ==> s[KeyValue(s).value.kept..KeyValue(s).value.length] == HIDDEN
  }

  predicate ValuesHidden(s: string) {
    forall p | 0 <= p <= |s| :: HiddenHere(s[p..])
  }

  lemma ValuesHiddenCons(c: char, s: string)
    requires ValuesHidden(s) && HiddenHere([c] + s)
    ensures ValuesHidden([c] + s)
  {
    hide HiddenHere;
    var t := [c] + s;
    forall p | 0 <= p <= |t| ensures HiddenHere(t[p..]) {
      if p > 0 {
        assert t[p..] == s[p - 1..];
      } else {
        assert t[0..] == t;
      }
    }
  }

  lemma ValuesHiddenDrop(s: string, n: nat)
    requires ValuesHidden(s) && n <= |s|
    ensures ValuesHidden(s[n..]) && HiddenHere(s)
  {
    assert s[0..] == s;
    forall p | 0 <= p <= |s[n..]| ensures HiddenHere(s[n..][p..]) {
      assert s[n..][p..] == s[n + p..];
    }
  }

  lemma Reassemble(s: string, k: nat, n: nat)
    requires k <= n <= |s|
    ensures s[..k] + s[k..n] + s[n..] == s
  {
  }

  lemma {:induction false} HidingAgain(s: string)
    requires ValuesHidden(s)
    ensures HideValues(s) == s
    decreases |s|
  {
    if s != "" {
      match KeyValue(s)
      case None =>
        ValuesHiddenDrop(s, 1);
        HidingAgain(s[1..]);
      case Some(f) =>
        ValuesHiddenDrop(s, f.length);
        HidingAgain(s[f.length..]);
        Reassemble(s, f.kept, f.length);
    }
  }

  // ----- Words and assignments in front of unchanged text -----

  lemma NoWordNoMatch(s: string)
    requires s == "" || !IsWord(s[0])
    ensures KeyValue(s) == None
  {
  }

  /** A word closed by a bracket is no key. */
  lemma {:induction false} BracketedWord(w: string, z: string)
    requires (forall i | 0 <= i < |w| :: IsWord(w[i])) && ValuesHidden("]" + z)
    ensures ValuesHidden(w + "]" + z)
  {
    var t := w + "]" + z;
    if w == "" {
      assert t == "]" + z;
    } else {
      BracketedWord(w[1..], z);
      assert t == [w[0]] + (w[1..] + "]" + z);
      Associative(w, "]", z);
      BracketEndsWord(w, z);
      ValuesHiddenCons(w[0], w[1..] + "]" + z);
    }
  }

  lemma WordEnds(w: string, x: string)
    requires WordChars(w) && (x == "" || !IsWord(x[0]))
    ensures Run(IsWord, w + x) == |w| && (w + x)[..|w|] == w && (w + x)[|w|..] == x
  {
    RunIs(IsWord, w + x, |w|);
  }

  lemma BracketEndsWord(w: string, z: string)
    requires WordChars(w)
    ensures KeyValue(w + ("]" + z)) == None
  {
    WordEnds(w, "]" + z);
    assert Run(IsSpace, "]" + z) == 0;
  }

  lemma SymbolThenHidden(c: char, z: string)
    requires ValuesHidden(z) && !IsWord(c)
    ensures ValuesHidden([c] + z)
  {
    NoWordNoMatch([c] + z);
    ValuesHiddenCons(c, z);
  }

  lemma EmptyHidden()
    ensures ValuesHidden("")
  {
    NoWordNoMatch("");
  }

  lemma HiddenMarker(z: string)
    requires ValuesHidden(z)
    ensures ValuesHidden(HIDDEN + z)
  {
    SymbolThenHidden(']', z);
    BracketedWord("redacted", z);
    SymbolThenHidden('[', "redacted" + "]" + z);
    SymbolThenHidden('=', "[" + ("redacted" + "]" + z));
    assert HIDDEN + z == "=" + ("[" + ("redacted" + "]" + z));
  }

  lemma MaskedMarker(z: string)
    requires ValuesHidden(z)
    ensures ValuesHidden(MASKED + z)
  {
    SymbolThenHidden('@', z);
    SymbolThenHidden(']', "@" + z);
    BracketedWord("redacted", "@" + z);
    SymbolThenHidden('[', "redacted" + "]" + ("@" + z));
    assert MASKED + z == "[" + ("redacted" + "]" + ("@" + z));
  }

  lemma HiddenHasNoBlank()
    ensures forall i | 0 <= i < |HIDDEN| :: IsNonSpace(HIDDEN[i])
  {
    assert HIDDEN == ['=', '[', 'r', 'e', 'd', 'a', 'c', 't', 'e', 'd', ']'];
  }

  /** `HIDDEN` in front of a blank or the end is assigned as it stands. */
  lemma HiddenIsAssigned(z: string)
    requires z == "" || IsSpace(z[0])
    ensures Assigned(HIDDEN + z) == Some(|HIDDEN|)
  {
    hide Run;
    var t := HIDDEN + z;
    assert t[0] == '=' && t[1] == '[';
    RunIs(IsSpace, t, 0);
    assert t[1..][0] == '[';
    RunIs(IsSpace, t[1..], 0);
    HiddenHasNoBlank();
    assert forall i | 0 <= i < |HIDDEN| - 1 :: t[1..][i] == HIDDEN[i + 1];
    assert z != "" ==> t[1..][|HIDDEN| - 1] == z[0];
    RunIs(IsNonSpace, t[1..], |HIDDEN| - 1);
  }

  lemma {:induction false} KeyThenHidden(key: string, z: string)
    requires (forall i | 0 <= i < |key| :: IsWord(key[i])) && ValuesHidden(z) && (z == "" || IsSpace(z[0]))
    ensures ValuesHidden(key + HIDDEN + z)
  {
    var t := key + HIDDEN + z;
    if key == "" {
      HiddenMarker(z);
      assert t == HIDDEN + z;
    } else {
      KeyThenHidden(key[1..], z);
      assert t == [key[0]] + (key[1..] + HIDDEN + z);
      Associative(key, HIDDEN, z);
      KeyThenHiddenIsHidden(key, z);
      ValuesHiddenCons(key[0], key[1..] + HIDDEN + z);
    }
  }

  lemma KeyThenHiddenIsHidden(key: string, z: string)
    requires WordChars(key) && (z == "" || IsSpace(z[0]))
    ensures HiddenHere(key + (HIDDEN + z))
  {
    HiddenIsAssigned(z);
    FoundAfterKey(key, HIDDEN + z, |HIDDEN|);
  }

  lemma FoundAfterKey(key: string, x: string, n: nat)
    requires WordChars(key) && x != "" && !IsWord(x[0]) && Assigned(x) == Some(n)
    ensures n <= |x| && (x[..n] == HIDDEN ==> HiddenHere(key + x))
  {
    hide Run, Assigned, Sensitive;
    KeyIsFound(key, x, n);
    BehindFirst(key, x, n);
  }

  lemma KeyIsFound(key: string, x: string, n: nat)
    requires WordChars(key) && x != "" && !IsWord(x[0]) && Assigned(x) == Some(n)
    ensures KeyValue(key + x) == if key != "" && Sensitive(key) then Some(Found(|key|, |key| + n)) else None
  {
    WordEnds(key, x);
    KeyValueFrom(key + x, key, x);
  }

  lemma KeyValueFrom(s: string, key: string, x: string)
    requires Run(IsWord, s) == |key| && s[..|key|] == key && s[|key|..] == x
    ensures KeyValue(s) == if key == "" || !Sensitive(key) || Assigned(x) == None then None
                           else Some(Found(|key|, |key| + Assigned(x).value))
  {
    hide Run, Assigned, Sensitive;
  }

  // ----- Hiding values leaves words and failed assignments alone -----

  lemma {:induction false} WordsKept(s: string)
    ensures Run(IsWord, HideValues(s)) == Run(IsWord, s)
    ensures HideValues(s)[..Run(IsWord, s)] == s[..Run(IsWord, s)]
    decreases |s|
  {
    hide KeyValue;
    if s != "" && IsWord(s[0]) {
      match KeyValue(s)
      case None =>
        WordsKept(s[1..]);
        OneMore(s[0], s[1..], HideValues(s[1..]));
        assert s == [s[0]] + s[1..];
      case Some(f) =>
        MatchKeepsWord(s);
        KeyInFront(s[..f.kept], HideValues(s[f.length..]));
    }
  }

  lemma MatchKeepsWord(s: string)
    requires KeyValue(s).Some?
    ensures KeyValue(s).value.kept == Run(IsWord, s)
  {
    hide Sensitive, Assigned, Run;
  }

  lemma OneMore(c: char, s: string, t: string)
    requires IsWord(c) && Run(IsWord, t) == Run(IsWord, s) && t[..Run(IsWord, s)] == s[..Run(IsWord, s)]
    ensures Run(IsWord, [c] + s) == Run(IsWord, [c] + t) == Run(IsWord, s) + 1
    ensures ([c] + t)[..Run(IsWord, s) + 1] == ([c] + s)[..Run(IsWord, s) + 1]
  {
    assert ([c] + s)[1..] == s && ([c] + t)[1..] == t;
  }

  lemma KeyInFront(key: string, z: string)
    requires forall i | 0 <= i < |key| :: IsWord(key[i])
    ensures Run(IsWord, key + HIDDEN + z) == |key| && (key + HIDDEN + z)[..|key|] == key
  {
    assert (key + HIDDEN + z)[|key|] == '=';
    RunIs(IsWord, key + HIDDEN + z, |key|);
  }

  lemma {:induction false} BlanksKept(s: string)
    requires forall i | 0 <= i < |s| :: IsSpace(s[i])
    ensures HideValues(s) == s
  {
    if s != "" {
      assert !IsWord(s[0]);
      NoWordNoMatch(s);
      BlanksKept(s[1..]);
    }
  }

  lemma AssignedBehindBlank(s: string)
    requires s != "" && IsSpace(s[0])
    ensures Assigned(s).Some? <==> Assigned(s[1..]).Some?
  {
    var a := Run(IsSpace, s);
    if a < |s| {
      assert s[1..][a - 1] == s[a];
      assert s[1..][a..] == s[a + 1..];
    }
  }

  lemma UnassignedSeparator(s: string)
    requires s != "" && (s[0] == ':' || s[0] == '=') && Assigned(s) == None
    ensures forall i | 0 <= i < |s[1..]| :: IsSpace(s[1..][i])
  {
  }

  lemma SymbolKept(s: string)
    requires s != "" && !IsWord(s[0])
    ensures var t := HideValues(s); t != "" && t[0] == s[0] && t[1..] == HideValues(s[1..])
  {
    NoWordNoMatch(s);
  }

  lemma {:induction false} UnassignedStaysSo(s: string)
    requires Assigned(s) == None
    ensures Assigned(HideValues(s)) == None
    decreases |s|
  {
    hide Assigned, KeyValue;
    if s == "" {
      OtherIsUnassigned("");
    } else {
      var t := HideValues(s);
      if IsSpace(s[0]) {
        SymbolKept(s);
        AssignedBehindBlank(s);
        UnassignedStaysSo(s[1..]);
        AssignedBehindBlank(t);
      } else if s[0] == ':' || s[0] == '=' {
        SeparatorKept(s);
      } else {
        OtherIsUnassigned(t);
      }
    }
  }

  lemma SeparatorKept(s: string)
    requires s != "" && (s[0] == ':' || s[0] == '=') && Assigned(s) == None
    ensures HideValues(s) == s
  {
    NoWordNoMatch(s);
    UnassignedSeparator(s);
    BlanksKept(s[1..]);
    HeadAndTail(s);
  }

  lemma HideNone(c: char, s: string)
    requires KeyValue([c] + s) == None
    ensures HideValues([c] + s) == [c] + HideValues(s)
  {
    assert ([c] + s)[1..] == s;
  }

  lemma HideCons(c: char, w: string, z: string)
    requires KeyValue([c] + w + z) == None && HideValues(w + z) == w + HideValues(z)
    ensures HideValues([c] + w + z) == [c] + w + HideValues(z)
  {
    Associative([c], w, z);
    HideNone(c, w + z);
    Associative([c], w, HideValues(z));
  }

  lemma UnassignedWordIsNoMatch(w: string, z: string)
    requires (forall i | 0 <= i < |w| :: IsWord(w[i])) && (z == "" || !IsWord(z[0]))
    requires Assigned(z) == None
    ensures KeyValue(w + z) == None
  {
    assert z != "" ==> (w + z)[|w|] == z[0];
    RunIs(IsWord, w + z, |w|);
    assert (w + z)[|w|..] == z;
  }

  /** Without an assignment behind it, the word at the start is copied. */
  lemma {:induction false} UnassignedWordCopied(w: string, z: string)
    requires (forall i | 0 <= i < |w| :: IsWord(w[i])) && (z == "" || !IsWord(z[0]))
    requires Assigned(z) == None
    ensures HideValues(w + z) == w + HideValues(z)
  {
    if w == "" {
      assert w + z == z;
    } else {
      UnassignedWordCopied(w[1..], z);
      UnassignedWordIsNoMatch(w, z);
      HeadAndTail(w);
      HideCons(w[0], w[1..], z);
    }
  }

  lemma NoMatchBefore(s: string)
    requires s != "" && KeyValue(s) == None
    ensures KeyValue(HideValues(s)) == None
  {
    var k, t := Run(IsWord, s), HideValues(s);
    WordsKept(s);
    if k > 0 && Sensitive(s[..k]) {
      UnassignedBehindKey(s, k);
      assert Run(IsWord, t) == k;
    }
  }

  lemma UnassignedBehindKey(s: string, k: nat)
    requires 0 < k == Run(IsWord, s) && Assigned(s[k..]) == None
    ensures k <= |HideValues(s)| && Assigned(HideValues(s)[k..]) == None
  {
    assert s == s[..k] + s[k..];
    UnassignedWordCopied(s[..k], s[k..]);
    UnassignedStaysSo(s[k..]);
    assert HideValues(s)[k..] == HideValues(s[k..]);
  }

  /** After the key/value pass, every match left in the text is a hidden one. */
  lemma {:induction false} ValuesAreHidden(s: string)
    ensures ValuesHidden(HideValues(s))
    decreases |s|
  {
    if s == "" {
      EmptyHidden();
    } else {
      match KeyValue(s)
      case None =>
        ValuesAreHidden(s[1..]);
        NoMatchBefore(s);
        ValuesHiddenCons(s[0], HideValues(s[1..]));
      case Some(f) =>
        ValuesAreHidden(s[f.length..]);
        KeyThenHidden(s[..f.kept], HideValues(s[f.length..]));
    }
  }

  // ----- Texts without URL credentials -----

  predicate NoCredentials(s: string) {
    forall p | 0 <= p <= |s| :: UrlCredentials(s[p..]) == None
  }

  lemma NoCredentialsCons(c: char, s: string)
    requires NoCredentials(s) && UrlCredentials([c] + s) == None
    ensures NoCredentials([c] + s)
  {
    var t := [c] + s;
    forall p | 0 <= p <= |t| ensures UrlCredentials(t[p..]) == None {
      if p > 0 {
        assert t[p..] == s[p - 1..];
      } else {
        assert t[0..] == t;
      }
    }
  }

  lemma {:induction false} MaskingAgain(s: string)
    requires NoCredentials(s)
    ensures HideCredentials(s) == s
  {
    if s != "" {
      assert s[0..] == s;
      forall p | 0 <= p <= |s[1..]| ensures UrlCredentials(s[1..][p..]) == None {
        assert s[1..][p..] == s[p + 1..];
      }
      MaskingAgain(s[1..]);
    }
  }

  // ----- What masking leaves alone -----

  /** Masking changes nothing up to the first blank, slash or at-sign, that character included. */
  lemma {:induction false} HeadKept(s: string)
    ensures var d, t := Run(IsUserinfo, s), HideCredentials(s);
            && Run(IsUserinfo, t) == d && t[..d] == s[..d]
            && (d < |s| <==> d < |t|) && (d < |s| ==> t[d] == s[d])
    decreases |s|
  {
    if s != "" && IsUserinfo(s[0]) {
      match UrlCredentials(s)
      case None =>
        HeadKept(s[1..]);
        HeadAndTail(s);
        HeadKeptCons(s[0], s[1..], HideCredentials(s[1..]));
      case Some(f) =>
        SchemeHead(s, f);
    }
  }

  lemma HeadKeptCons(c: char, s: string, t: string)
    requires IsUserinfo(c)
    requires var d := Run(IsUserinfo, s);
             && Run(IsUserinfo, t) == d && t[..d] == s[..d]
             && (d < |s| <==> d < |t|) && (d < |s| ==> t[d] == s[d])
    ensures var d := Run(IsUserinfo, s) + 1;
            && Run(IsUserinfo, [c] + s) == d && Run(IsUserinfo, [c] + t) == d
            && ([c] + t)[..d] == ([c] + s)[..d]
            && (d < |s| + 1 ==> ([c] + t)[d] == ([c] + s)[d])
  {
    RunCons(IsUserinfo, c, s);
    RunCons(IsUserinfo, c, t);
    var d := Run(IsUserinfo, s);
    assert ([c] + t)[..d + 1] == [c] + t[..d] && ([c] + s)[..d + 1] == [c] + s[..d];
  }

  lemma SchemeHead(s: string, f: Found)
    requires UrlCredentials(s) == Some(f)
    ensures var d, t := Run(IsUserinfo, s), HideCredentials(s);
            && Run(IsUserinfo, t) == d && t[..d] == s[..d]
            && d == f.kept - 2 && t[d] == s[d]
  {
    SharedScheme(s, HideCredentials(s), s[..f.kept], f);
  }

  lemma SharedScheme(s: string, t: string, scheme: string, f: Found)
    requires |scheme| == f.kept >= 4 && scheme <= s && scheme <= t
    requires (forall i | 0 <= i < f.kept - 3 :: IsScheme(scheme[i])) && scheme[f.kept - 3..] == "://"
    ensures Run(IsUserinfo, s) == Run(IsUserinfo, t) == f.kept - 2
    ensures t[..f.kept - 2] == s[..f.kept - 2] && t[f.kept - 2] == s[f.kept - 2]
  {
    SchemeRunsToSlash(s, scheme, f);
    SchemeRunsToSlash(t, scheme, f);
    assert s[..f.kept - 2] == scheme[..f.kept - 2] && t[..f.kept - 2] == scheme[..f.kept - 2];
  }

  lemma SchemeRunsToSlash(t: string, scheme: string, f: Found)
    requires |scheme| == f.kept >= 4 && scheme <= t
    requires (forall i | 0 <= i < f.kept - 3 :: IsScheme(scheme[i])) && scheme[f.kept - 3..] == "://"
    ensures Run(IsUserinfo, t) == f.kept - 2
  {
    var u := scheme[f.kept - 3..];
    assert u[0] == ':' && u[1] == '/';
    assert forall i | 0 <= i < f.kept :: t[i] == scheme[i];
    RunIs(IsUserinfo, t, f.kept - 2);
  }

  lemma CredentialsSame(s: string, t: string, d: nat)
    requires d == Run(IsUserinfo, s) == Run(IsUserinfo, t) && s[..d] == t[..d]
    requires (d < |s| <==> d < |t|) && (d < |s| ==> t[d] == s[d])
    ensures Credentials(s) == Credentials(t)
  {
    hide Run, IsUserinfo;
    if Run(NotColon, s) < d {
      ColonsSame(s, t, d);
    }
    if Run(NotColon, t) < d {
      ColonsSame(t, s, d);
    }
  }

  lemma ColonsSame(s: string, t: string, d: nat)
    requires d <= |s| && d <= |t| && s[..d] == t[..d] && Run(NotColon, s) < d
    ensures Run(NotColon, t) == Run(NotColon, s)
  {
    assert forall i | 0 <= i < d :: s[..d][i] == t[..d][i];
    RunIs(NotColon, t, Run(NotColon, s));
  }

  /** Whether credentials start a text depends only on what masking leaves alone. */
  lemma CredentialsKept(s: string)
    ensures Credentials(HideCredentials(s)) == Credentials(s)
  {
    HeadKept(s);
    CredentialsSame(s, HideCredentials(s), Run(IsUserinfo, s));
  }

  /** A text that starts with a symbol keeps it. */
  lemma SymbolCopied(s: string)
    requires s != "" && !IsLetter(s[0])
    ensures HideCredentials(s) == [s[0]] + HideCredentials(s[1..])
  {
  }

  lemma SlashesCopied(y: string)
    ensures HideCredentials("://" + y) == "://" + HideCredentials(y)
  {
    assert ("://" + y)[1..] == "//" + y && ("//" + y)[1..] == "/" + y && ("/" + y)[1..] == y;
    SymbolCopied("://" + y);
    SymbolCopied("//" + y);
    SymbolCopied("/" + y);
  }

  /** A symbol in front of the masked text was there before. */
  lemma SymbolIsOld(s: string)
    requires HideCredentials(s) != "" && !IsLetter(HideCredentials(s)[0])
    ensures s != "" && s[0] == HideCredentials(s)[0]
    ensures HideCredentials(s)[1..] == HideCredentials(s[1..])
  {
    hide UrlCredentials;
    if !IsLetter(s[0]) { SymbolCopied(s); }
  }

  /** Slashes in the masked text were there before. */
  lemma SlashesAreOld(x: string)
    requires StartsWith(HideCredentials(x), "://")
    ensures StartsWith(x, "://")
  {
    hide HideCredentials;
    var t := HideCredentials(x);
    assert t[0] == ':' && t[1..][0] == '/' && t[1..][1..][0] == '/';
    SymbolIsOld(x);
    SymbolIsOld(x[1..]);
    SymbolIsOld(x[1..][1..]);
    assert x[..3] == "://";
  }

  lemma MaskNone(c: char, s: string)
    requires UrlCredentials([c] + s) == None
    ensures HideCredentials([c] + s) == [c] + HideCredentials(s)
  {
    assert ([c] + s)[1..] == s;
  }

  lemma MaskCons(c: char, w: string, x: string)
    requires UrlCredentials([c] + w + x) == None && HideCredentials(w + x) == w + HideCredentials(x)
    ensures HideCredentials([c] + w + x) == [c] + w + HideCredentials(x)
  {
    Associative([c], w, x);
    MaskNone(c, w + x);
    Associative([c], w, HideCredentials(x));
  }

  predicate SchemeChars(w: string) {
    forall i | 0 <= i < |w| :: IsScheme(w[i])
  }

  /** A run of scheme characters with no credentials behind it is copied. */
  lemma {:induction false} SchemeCopied(w: string, x: string)
    requires SchemeChars(w) && (x == "" || !IsScheme(x[0]))
    requires StartsWith(x, "://") ==> Credentials(x[3..]) == None
    ensures HideCredentials(w + x) == w + HideCredentials(x)
    ensures UrlCredentials(w + x) == None
  {
    SchemeIsNoMatch(w, x);
    if w == "" {
      assert w + x == x;
    } else {
      SchemeCopied(w[1..], x);
      HeadAndTail(w);
      MaskCons(w[0], w[1..], x);
    }
  }

  lemma SchemeIsNoMatch(w: string, x: string)
    requires SchemeChars(w) && (x == "" || !IsScheme(x[0]))
    requires StartsWith(x, "://") ==> Credentials(x[3..]) == None
    ensures UrlCredentials(w + x) == None
  {
    assert x != "" ==> (w + x)[|w|] == x[0];
    RunIs(IsScheme, w + x, |w|);
    assert (w + x)[|w|..] == x;
    if StartsWith(x, "://") {
      assert (w + x)[|w| + 3..] == x[3..];
    }
  }

  /** Masking introduces no new credentials in front of what it left alone. */
  lemma NoCredentialsBefore(s: string)
    requires s != "" && UrlCredentials(s) == None
    ensures UrlCredentials(HideCredentials(s)) == None
  {
    if IsLetter(s[0]) {
      var k := Run(IsScheme, s);
      var w, x := s[..k], s[k..];
      assert s == w + x;
      SchemeCopied(w, x);
      if StartsWith(HideCredentials(x), "://") {
        NoneBehindSlashes(x);
      }
      SchemeIsNoMatch(w, HideCredentials(x));
    }
  }

  lemma NoneBehindSlashes(x: string)
    requires StartsWith(HideCredentials(x), "://")
    requires StartsWith(x, "://") ==> Credentials(x[3..]) == None
    ensures Credentials(HideCredentials(x)[3..]) == None
  {
    SlashesAreOld(x);
    assert x == "://" + x[3..];
    SlashesCopied(x[3..]);
    assert HideCredentials(x)[3..] == HideCredentials(x[3..]);
    CredentialsKept(x[3..]);
  }

  // ----- The mask itself holds no credentials -----

  lemma PlainCons(c: char, s: string)
    requires NoCredentials(s) && !IsLetter(c)
    ensures NoCredentials([c] + s)
  {
    NoCredentialsCons(c, s);
  }

  lemma {:induction false} PlainWord(w: string, x: string)
    requires SchemeChars(w) && NoCredentials(x) && (x == "" || !IsScheme(x[0]))
    requires StartsWith(x, "://") ==> Credentials(x[3..]) == None
    ensures NoCredentials(w + x)
  {
    if w == "" {
      assert w + x == x;
    } else {
      PlainWord(w[1..], x);
      SchemeIsNoMatch(w, x);
      assert w + x == [w[0]] + (w[1..] + x);
      NoCredentialsCons(w[0], w[1..] + x);
    }
  }

  lemma MaskIsPlain(z: string)
    requires NoCredentials(z)
    ensures NoCredentials(MASKED + z)
  {
    PlainCons('@', z);
    PlainCons(']', "@" + z);
    var x := "]" + ("@" + z);
    assert x[0] == ']';
    PlainWord("redacted", x);
    PlainCons('[', "redacted" + x);
    assert MASKED + z == "[" + ("redacted" + x);
  }

  lemma MaskHasNoColon(z: string)
    ensures Credentials(MASKED + z) == None
  {
    var t := MASKED + z;
    var n := |MASKED| - 1;
    assert MASKED == ['[', 'r', 'e', 'd', 'a', 'c', 't', 'e', 'd', ']', '@'];
    assert forall i | 0 <= i < |MASKED| :: t[i] == MASKED[i] && t[i] != ':';
    RunIs(IsUserinfo, t, n);
  }

  lemma MaskedUrlIsPlain(w: string, z: string)
    requires SchemeChars(w) && NoCredentials(z)
    ensures NoCredentials(w + "://" + MASKED + z)
  {
    MaskIsPlain(z);
    MaskHasNoColon(z);
    var x := "://" + (MASKED + z);
    PlainSlashes(MASKED + z);
    assert x[3..] == MASKED + z;
    PlainWord(w, x);
    assert w + x == w + "://" + MASKED + z;
  }

  lemma PlainSlashes(z: string)
    requires NoCredentials(z)
    ensures NoCredentials("://" + z)
  {
    PlainCons('/', z);
    PlainCons('/', "/" + z);
    PlainCons(':', "/" + ("/" + z));
    assert "://" + z == ":" + ("/" + ("/" + z));
  }

  /** After the URL pass, no credentials are left in the text. */
  lemma {:induction false} CredentialsAreGone(s: string)
    ensures NoCredentials(HideCredentials(s))
    decreases |s|
  {
    if s == "" {
    } else {
      match UrlCredentials(s)
      case None =>
        CredentialsAreGone(s[1..]);
        NoCredentialsBefore(s);
        NoCredentialsCons(s[0], HideCredentials(s[1..]));
      case Some(f) =>
        CredentialsAreGone(s[f.length..]);
        var k := f.kept - 3;
        assert s[..f.kept] == s[..k] + "://";
        MaskedUrlIsPlain(s[..k], HideCredentials(s[f.length..]));
    }
  }

  // ----- Masking credentials uncovers no value -----

  lemma WordFrontKept(s: string)
    ensures var k, t := Run(IsWord, s), HideCredentials(s);
            && Run(IsWord, t) == k && t[..k] == s[..k]
            && (k < |s| <==> k < |t|) && (k < |s| ==> t[k] == s[k])
  {
    HeadKept(s);
    WordInFront(s, HideCredentials(s), Run(IsUserinfo, s));
  }

  lemma WordInFront(s: string, t: string, d: nat)
    requires d == Run(IsUserinfo, s) && d <= |t| && t[..d] == s[..d]
    requires (d < |s| <==> d < |t|) && (d < |s| ==> t[d] == s[d])
    ensures var k := Run(IsWord, s);
            && Run(IsWord, t) == k && t[..k] == s[..k]
            && (k < |s| <==> k < |t|) && (k < |s| ==> t[k] == s[k])
  {
    var k := Run(IsWord, s);
    if d < k {
      WordIsUserinfo(s[d]);
    }
    assert t[..k] == t[..d][..k] == s[..d][..k] == s[..k];
    assert forall i | 0 <= i < k :: t[i] == t[..k][i] == s[..k][i];
    assert k < d ==> t[k] == t[..d][k] == s[..d][k] == s[k];
    RunIs(IsWord, t, k);
  }

  lemma WordIsUserinfo(c: char)
    requires IsWord(c)
    ensures IsUserinfo(c)
  {
  }

  lemma {:induction false} BlanksMasked(s: string)
    requires forall i | 0 <= i < |s| :: IsSpace(s[i])
    ensures HideCredentials(s) == s
  {
    if s != "" {
      SymbolCopied(s);
      BlanksMasked(s[1..]);
    }
  }

  lemma BlankCopied(s: string)
    requires s != "" && IsSpace(s[0])
    ensures var t := HideCredentials(s); t != "" && t[0] == s[0] && t[1..] == HideCredentials(s[1..])
  {
    SymbolCopied(s);
  }

  lemma {:induction false} UnassignedWhenMasked(s: string)
    requires Assigned(s) == None
    ensures Assigned(HideCredentials(s)) == None
    decreases |s|
  {
    if s != "" {
      var t := HideCredentials(s);
      if IsSpace(s[0]) {
        BlankCopied(s);
        AssignedBehindBlank(s);
        UnassignedWhenMasked(s[1..]);
        AssignedBehindBlank(t);
      } else if s[0] == ':' || s[0] == '=' {
        SymbolCopied(s);
        UnassignedSeparator(s);
        BlanksMasked(s[1..]);
        assert t == s;
      }
    }
  }

  lemma BracketCopied(z: string)
    ensures HideCredentials("redacted" + ("]" + z)) == "redacted" + ("]" + HideCredentials(z))
  {
    var x := [']'] + z;
    assert x[0] == ']';
    SchemeCopied("redacted", x);
    MaskNone(']', z);
  }

  lemma HiddenSplit(z: string)
    ensures HIDDEN + z == ['='] + (['['] + ("redacted" + ("]" + z)))
  {
  }

  lemma HiddenCopied(z: string)
    ensures HideCredentials(HIDDEN + z) == HIDDEN + HideCredentials(z)
  {
    var x := "redacted" + ("]" + z);
    BracketCopied(z);
    MaskNone('[', x);
    MaskNone('=', ['['] + x);
    HiddenSplit(z);
    HiddenSplit(HideCredentials(z));
  }

  predicate WordChars(w: string) {
    forall i | 0 <= i < |w| :: IsWord(w[i])
  }

  lemma WordIsNoUrl(w: string, x: string)
    requires WordChars(w) && (x == "" || !IsScheme(x[0])) && !StartsWith(x, "://")
    ensures UrlCredentials(w + x) == None
  {
    var t := w + x;
    var r := Run(IsScheme, t);
    assert x != "" ==> t[|w|] == x[0];
    assert r <= |w|;
    assert r < |w| ==> t[r] == w[r] && t[r..][0] == t[r];
    assert r == |w| ==> t[r..] == x;
  }

  lemma {:induction false} WordCopied(w: string, x: string)
    requires WordChars(w) && (x == "" || !IsScheme(x[0])) && !StartsWith(x, "://")
    ensures HideCredentials(w + x) == w + HideCredentials(x)
  {
    if w == "" {
      assert w + x == x;
    } else {
      WordCopied(w[1..], x);
      WordIsNoUrl(w, x);
      HeadAndTail(w);
      MaskCons(w[0], w[1..], x);
    }
  }

  lemma SlashesAreAssigned(x: string)
    requires StartsWith(x, "://")
    ensures Assigned(x).Some?
  {
    assert x[0] == ':' && x[1] == '/';
    RunIs(IsSpace, x, 0);
    assert x[1..][0] == '/';
    RunIs(IsSpace, x[1..], 0);
  }

  lemma UnassignedBehindWord(w: string, y: string)
    requires WordChars(w) && y != "" && (IsSpace(y[0]) || y[0] == ':' || y[0] == '=') && Assigned(y) == None
    ensures HideCredentials(w + y) == w + HideCredentials(y) && Assigned(HideCredentials(y)) == None
  {
    assert !StartsWith(y, "://") by {
      if StartsWith(y, "://") { SlashesAreAssigned(y); }
    }
    WordCopied(w, y);
    UnassignedWhenMasked(y);
  }

  lemma OtherIsUnassigned(y: string)
    requires y != "" ==> !IsSpace(y[0]) && y[0] != ':' && y[0] != '='
    ensures Assigned(y) == None
  {
    RunIs(IsSpace, y, 0);
  }

  lemma DropWord(w: string, y: string)
    ensures (w + y)[|w|..] == y
  {
  }

  lemma NoKeyValue(t: string, k: nat)
    requires k == Run(IsWord, t) && Assigned(t[k..]) == None
    ensures KeyValue(t) == None
  {
  }

  predicate MayAssign(y: string) {
    y != "" && (IsSpace(y[0]) || y[0] == ':' || y[0] == '=')
  }

  lemma UnassignedTailStays(w: string, y: string)
    requires WordChars(w) && (y == "" || !IsWord(y[0])) && Assigned(y) == None
    ensures |w| <= |HideCredentials(w + y)| && Assigned(HideCredentials(w + y)[|w|..]) == None
  {
    var s := w + y;
    assert y != "" ==> s[|w|] == y[0];
    RunIs(IsWord, s, |w|);
    WordFrontKept(s);
    if MayAssign(y) {
      UnassignedBehindWord(w, y);
      DropWord(w, HideCredentials(y));
    } else {
      OtherIsUnassigned(HideCredentials(s)[|w|..]);
    }
  }

  lemma UnassignedKeyStays(s: string)
    requires Assigned(s[Run(IsWord, s)..]) == None
    ensures KeyValue(HideCredentials(s)) == None
  {
    hide HideCredentials, Assigned, Sensitive;
    WordFrontKept(s);
    UnassignedTailKept(s);
    NoKeyValue(HideCredentials(s), Run(IsWord, s));
  }

  lemma UnassignedTailKept(s: string)
    requires Assigned(s[Run(IsWord, s)..]) == None
    ensures Run(IsWord, s) <= |HideCredentials(s)| && Assigned(HideCredentials(s)[Run(IsWord, s)..]) == None
  {
    hide HideCredentials, Assigned, Sensitive;
    var k := Run(IsWord, s);
    assert s == s[..k] + s[k..];
    UnassignedTailStays(s[..k], s[k..]);
  }

  lemma HiddenKeyMasked(key: string, z: string)
    requires WordChars(key)
    ensures HideCredentials(key + (HIDDEN + z)) == key + (HIDDEN + HideCredentials(z))
  {
    assert (HIDDEN + z)[0] == '=';
    WordCopied(key, HIDDEN + z);
    HiddenCopied(z);
  }

  lemma HiddenKeyStays(s: string)
    requires KeyValue(s).Some? && HiddenHere(s)
    ensures HiddenHere(HideCredentials(s))
  {
    var f := KeyValue(s).value;
    var key, z := s[..f.kept], s[f.length..];
    Reassemble(s, f.kept, f.length);
    Associative(key, HIDDEN, z);
    HiddenKeyMasked(key, z);
    KeyThenHiddenIsHidden(key, HideCredentials(z));
  }

  lemma HiddenHereStays(s: string)
    requires HiddenHere(s)
    ensures HiddenHere(HideCredentials(s))
  {
    var k := Run(IsWord, s);
    WordFrontKept(s);
    if k > 0 && Sensitive(s[..k]) {
      if Assigned(s[k..]).None? {
        UnassignedKeyStays(s);
      } else {
        HiddenKeyStays(s);
      }
    }
  }

  lemma SchemeIsNotSensitive(w: string, rest: string)
    requires w != "" && WordChars(w) && HiddenHere(w + "://" + rest)
    ensures !Sensitive(w)
  {
    hide Sensitive, Assigned, Run;
    var s := w + "://" + rest;
    WordBeforeSlashes(w, rest);
    SlashesAreAssigned(s[|w|..]);
    var n := |w| + Assigned(s[|w|..]).value;
    assert s[|w|..n][0] == ':' && HIDDEN[0] == '=';
  }

  lemma WordBeforeSlashes(w: string, rest: string)
    requires WordChars(w)
    ensures var s := w + "://" + rest;
            Run(IsWord, s) == |w| && s[..|w|] == w && s[|w|] == ':' && StartsWith(s[|w|..], "://")
  {
    var s := w + "://" + rest;
    assert s[|w|] == ':';
    RunIs(IsWord, s, |w|);
    assert s[|w|..] == "://" + rest;
  }

  lemma MaskedSlashesHidden(z: string)
    requires ValuesHidden(z)
    ensures ValuesHidden("" + "://" + MASKED + z)
  {
    MaskedMarker(z);
    SymbolThenHidden('/', MASKED + z);
    SymbolThenHidden('/', "/" + (MASKED + z));
    SymbolThenHidden(':', "/" + ("/" + (MASKED + z)));
    assert "" + "://" + MASKED + z == ":" + ("/" + ("/" + (MASKED + z)));
  }

  lemma UrlTail(w: string, x: string)
    requires w != ""
    ensures w + "://" + x == [w[0]] + (w[1..] + "://" + x)
    ensures (w + "://" + x)[1..] == w[1..] + "://" + x
  {
  }

  lemma {:induction false} MaskedUrlHidden(w: string, rest: string, z: string)
    requires SchemeChars(w) && ValuesHidden(w + "://" + rest) && ValuesHidden(z)
    ensures ValuesHidden(w + "://" + (MASKED + z))
  {
    if w == "" {
      MaskedSlashesHidden(z);
      assert w + "://" + (MASKED + z) == "" + "://" + MASKED + z;
    } else {
      ValuesHiddenDrop(w + "://" + rest, 1);
      UrlTail(w, rest);
      MaskedUrlHidden(w[1..], rest, z);
      MaskedUrlHere(w, rest, z);
      UrlTail(w, MASKED + z);
      ValuesHiddenCons(w[0], w[1..] + "://" + (MASKED + z));
    }
  }

  lemma MaskedUrlHere(w: string, rest: string, z: string)
    requires w != "" && SchemeChars(w) && HiddenHere(w + "://" + rest)
    ensures HiddenHere(w + "://" + (MASKED + z))
  {
    hide Sensitive;
    var t := w + "://" + (MASKED + z);
    var k := Run(IsWord, t);
    assert t[|w|] == ':';
    assert forall i | 0 <= i < |w| :: t[i] == w[i];
    if k < |w| {
      assert t[k..][0] == w[k];
      RunIs(IsSpace, t[k..], 0);
    } else {
      assert t[..k] == w;
      SchemeIsNotSensitive(w, rest);
    }
  }

  lemma MaskedUrlAt(s: string, z: string)
    requires UrlCredentials(s).Some? && ValuesHidden(s) && ValuesHidden(z)
    ensures ValuesHidden(s[..UrlCredentials(s).value.kept] + MASKED + z)
  {
    var f := UrlCredentials(s).value;
    UrlSplits(s, f);
    MaskedUrlHidden(s[..f.kept - 3], s[f.kept..], z);
    Associative(s[..f.kept], MASKED, z);
  }

  lemma UrlSplits(s: string, f: Found)
    requires UrlCredentials(s) == Some(f)
    ensures var w := s[..f.kept - 3];
            s[..f.kept] == w + "://" && s == w + "://" + s[f.kept..] && SchemeChars(w)
  {
    assert s[..f.kept] == s[..f.kept - 3] + s[f.kept - 3..f.kept];
    assert s == s[..f.kept] + s[f.kept..];
  }

  /** The URL pass leaves every key/value match hidden: it uncovers none and creates none. */
  lemma {:induction false} MaskingKeepsValuesHidden(s: string)
    requires ValuesHidden(s)
    ensures ValuesHidden(HideCredentials(s))
    decreases |s|
  {
    if s != "" {
      match UrlCredentials(s)
      case None =>
        ValuesHiddenDrop(s, 1);
        MaskingKeepsValuesHidden(s[1..]);
        HiddenHereStays(s);
        ValuesHiddenCons(s[0], HideCredentials(s[1..]));
      case Some(f) =>
        ValuesHiddenDrop(s, f.length);
        MaskingKeepsValuesHidden(s[f.length..]);
        MaskedUrlAt(s, HideCredentials(s[f.length..]));
    }
  }

  // ----- Main results -----

  /** Whatever the text, the sanitized one holds no URL credentials, and every value behind a
      sensitive key in it is the redaction marker. */
  lemma {:induction false} NothingRecognisableIsLeft(text: string)
    ensures Sanitize(Some(text)).Some? <==> text != ""
    ensures text != "" ==> var t := Sanitize(Some(text)).value;
              && (forall p | 0 <= p <= |t| :: UrlCredentials(t[p..]) == None)
              && (forall p | 0 <= p <= |t| && KeyValue(t[p..]).Some? ::
                    t[p..][KeyValue(t[p..]).value.kept..KeyValue(t[p..]).value.length] == HIDDEN)
  {
    var t := HideCredentials(HideValues(text));
    ValuesAreHidden(text);
    MaskingKeepsValuesHidden(HideValues(text));
    CredentialsAreGone(HideValues(text));
    forall p | 0 <= p <= |t| && KeyValue(t[p..]).Some?
      ensures t[p..][KeyValue(t[p..]).value.kept..KeyValue(t[p..]).value.length] == HIDDEN
    {
      assert HiddenHere(t[p..]);
    }
  }

  /** Sanitizing in the helper and again in the agent is sanitizing once. */
  lemma {:induction false} SanitizeIsIdempotent(value: Option<string>)
    ensures Sanitize(Sanitize(value)) == Sanitize(value)
  {
    match value
    case None =>
    case Some(text) =>
      var t := HideCredentials(HideValues(text));
      ValuesAreHidden(text);
      MaskingKeepsValuesHidden(HideValues(text));
      CredentialsAreGone(HideValues(text));
      HidingAgain(t);
      MaskingAgain(t);
  }
}
