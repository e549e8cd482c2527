/** How much of a sensitive value the key/value substitution removes: its first word, and no more. */
module SecretValues {
  import opened Sequences
  import opened Text
  import opened Redaction
  import opened RedactionTheorems

  /** What stands between a key and its value: a colon or an equals sign with blanks around it. */
  datatype Separator = Separator(before: string, sign: char, after: string) {
    predicate Valid() {
      AllOf(IsSpace, before) && (sign == ':' || sign == '=') && AllOf(IsSpace, after)
    }

    function Then(value: string): string {
      before + ([sign] + (after + value))
    }
  }

  predicate NoBlank(s: string) {
    AllOf(IsNonSpace, s)
  }

  lemma SeparatorAssigns(separator: Separator, word: string, rest: string)
    requires separator.Valid() && word != "" && NoBlank(word) && (rest == "" || IsSpace(rest[0]))
    ensures var x := separator.Then(word + rest); Assigned(x) == Some(|x| - |rest|)
  {
    ValueStart(word, rest);
    RunOf(IsNonSpace, word, rest);
    ThenAssigns(separator, word + rest, |word|);
  }

  lemma ThenAssigns(separator: Separator, u: string, n: nat)
    requires separator.Valid() && u != "" && !IsSpace(u[0]) && Run(IsNonSpace, u) == n
    ensures var x := separator.Then(u); Assigned(x) == Some(|x| - |u| + n)
  {
    hide Run, Assigned, IsNonSpace, Separator.Then;
    var x, t := ThenSplits(separator, u);
    AssignedFrom(x, |separator.before|, t, |separator.after|, u);
  }

  lemma ThenSplits(separator: Separator, u: string) returns (x: string, t: string)
    requires separator.Valid() && u != "" && !IsSpace(u[0])
    ensures x == separator.Then(u) && |x| == |separator.before| + 1 + |separator.after| + |u|
    ensures Run(IsSpace, x) == |separator.before| && x[|separator.before|] == separator.sign
    ensures x[|separator.before| + 1..] == t && Run(IsSpace, t) == |separator.after| < |t|
    ensures x[|separator.before| + 1 + |separator.after|..] == u
  {
    hide Run, IsNonSpace;
    x, t := separator.Then(u), separator.after + u;
    RunOf(IsSpace, separator.before, [separator.sign] + t);
    RunOf(IsSpace, separator.after, u);
    BehindSign(separator.before, separator.sign, separator.after, u, 0);
  }

  lemma ValueStart(word: string, rest: string)
    requires word != "" && NoBlank(word) && (rest == "" || IsSpace(rest[0]))
    ensures word + rest != "" && !IsSpace((word + rest)[0]) && (rest == "" || !IsNonSpace(rest[0]))
  {
  }

  lemma SeparatorStart(separator: Separator, value: string)
    requires separator.Valid()
    ensures separator.Then(value) != "" && !IsWord(separator.Then(value)[0])
  {
    BehindSign(separator.before, separator.sign, separator.after, value, 0);
    assert separator.before != "" ==> IsSpace(separator.before[0]);
  }

  lemma BehindSign(before: string, sign: char, after: string, u: string, n: nat)
    requires n <= |u|
    ensures var x := before + ([sign] + (after + u));
            && x[|before|] == sign && x[0] == (if before == "" then sign else before[0])
            && x[|before| + 1..] == after + u && x[|before| + 1 + |after|..] == u
            && x[|x| - (|u| - n)..] == u[n..]
  {
    BehindFirst(before, [sign] + (after + u), 1);
    BehindFirst([sign], after + u, |after|);
    BehindFirst(after, u, n);
    BehindFirst(before, [sign] + (after + u), 1 + |after|);
    BehindFirst(before, [sign] + (after + u), 1 + |after| + n);
    BehindFirst([sign], after + u, |after| + n);
  }

  lemma AssignedFrom(x: string, a: nat, t: string, b: nat, u: string)
    requires Run(IsSpace, x) == a < |x| && (x[a] == ':' || x[a] == '=') && x[a + 1..] == t
    requires Run(IsSpace, t) == b < |t| && a + 1 + b < |x| && x[a + 1 + b..] == u
    ensures Assigned(x) == Some(a + 1 + b + Run(IsNonSpace, u))
  {
    hide Run, IsSpace, IsNonSpace;
  }

  /** Behind a sensitive key the text up to the first blank is removed; everything from there on is scanned
      anew and goes through. */
  lemma OnlyTheFirstWordIsHidden(key: string, separator: Separator, word: string, rest: string)
    requires key != "" && WordChars(key) && Sensitive(key) && separator.Valid()
    requires word != "" && NoBlank(word) && (rest == "" || IsSpace(rest[0]))
    ensures HideValues(key + separator.Then(word + rest)) == key + HIDDEN + HideValues(rest)
  {
    hide Run, Assigned, Sensitive, IsSpace, IsWord, HideValues, Separator.Then;
    var x := separator.Then(word + rest);
    SeparatorAssigns(separator, word, rest);
    SeparatorStart(separator, word + rest);
    RestIsLast(separator, word, rest);
    FoundIsHidden(key, x, |x| - |rest|);
  }

  lemma RestIsLast(separator: Separator, word: string, rest: string)
    ensures var x := separator.Then(word + rest); |rest| <= |x| && x[|x| - |rest|..] == rest
  {
    BehindSign(separator.before, separator.sign, separator.after, word + rest, |word|);
    BehindFirst(word, rest, 0);
  }

  lemma FoundIsHidden(key: string, x: string, n: nat)
    requires key != "" && WordChars(key) && Sensitive(key) && x != "" && !IsWord(x[0])
    requires n <= |x| && Assigned(x) == Some(n)
    ensures HideValues(key + x) == key + HIDDEN + HideValues(x[n..])
  {
    hide Run, Assigned, Sensitive, IsSpace, IsWord, HideValues;
    KeyIsFound(key, x, n);
    BehindFirst(key, x, n);
    HideAt(key + x, Found(|key|, |key| + n));
  }

  lemma HideAt(s: string, f: Found)
    requires KeyValue(s) == Some(f)
    ensures HideValues(s) == s[..f.kept] + HIDDEN + HideValues(s[f.length..])
  {
    hide Run, Assigned, Sensitive, KeyValue;
  }

  lemma FirstWord(value: string) returns (word: string, rest: string)
    ensures value == word + rest && NoBlank(word) && (rest == "" || IsSpace(rest[0]))
    ensures value != "" && IsNonSpace(value[0]) ==> word != ""
    ensures NoBlank(value) <==> rest == ""
  {
    var n := Run(IsNonSpace, value);
    word, rest := value[..n], value[n..];
  }

  /** So nothing but the marker is left of a value exactly when it holds no blank. */
  lemma WholeValueIsHiddenIff(key: string, separator: Separator, value: string)
    requires key != "" && WordChars(key) && Sensitive(key) && separator.Valid()
    requires value != "" && IsNonSpace(value[0])
    ensures HideValues(key + separator.Then(value)) == key + HIDDEN <==> NoBlank(value)
  {
    var word, rest := FirstWord(value);
    OnlyTheFirstWordIsHidden(key, separator, word, rest);
    assert key + HIDDEN + "" == key + HIDDEN;
    assert |key + HIDDEN + HideValues(rest)| == |key + HIDDEN| + |HideValues(rest)|;
  }

  // ----- Texts that both substitutions leave alone -----

  lemma UnassignedWithoutSeparator(s: string)
    requires forall i | 0 <= i < |s| :: s[i] != ':' && s[i] != '='
    ensures KeyValue(s) == None
  {
    var x := s[Run(IsWord, s)..];
    assert forall i | 0 <= i < |x| :: x[i] == s[Run(IsWord, s) + i];
  }

  /** Without a separator there is nothing to hide. */
  lemma {:induction false} PlainTextIsKept(s: string)
    requires forall i | 0 <= i < |s| :: s[i] != ':' && s[i] != '='
    ensures HideValues(s) == s
  {
    if s != "" {
      UnassignedWithoutSeparator(s);
      PlainTextIsKept(s[1..]);
      HeadAndTail(s);
    }
  }

  /** Without a colon there are no credentials. */
  lemma NoColonNoCredentials(s: string)
    requires forall i | 0 <= i < |s| :: s[i] != ':'
    ensures NoCredentials(s)
  {
    forall p | 0 <= p <= |s| ensures UrlCredentials(s[p..]) == None {
      assert forall i | 0 <= i < |s[p..]| :: s[p..][i] == s[p + i];
      CredentialsHaveColon(s[p..]);
    }
  }

  lemma CredentialsHaveColon(t: string)
    ensures UrlCredentials(t).Some? ==> exists i :: 0 <= i < |t| && t[i] == ':'
  {
    if UrlCredentials(t).Some? {
      var k := UrlCredentials(t).value.kept - 3;
      assert t[k..k + 3][0] == t[k];
    }
  }

  /** A secret of two words: with `Authorization: Bearer abc` the scheme is hidden and the token stays. */
  lemma BearerTokenStays()
    ensures Sanitize(Some("Authorization: Bearer abc")) == Some("Authorization=[redacted] abc")
  {
    AuthorizationIsSensitive();
    var separator := Separator("", ':', " ");
    assert "Authorization" + separator.Then("Bearer" + " abc") == "Authorization: Bearer abc";
    assert "Authorization" + HIDDEN + " abc" == "Authorization=[redacted] abc";
    TailStays("Authorization", separator, "Bearer", " abc");
  }

  /** The words behind the first one stay readable when they hold neither separator. */
  lemma TailStays(key: string, separator: Separator, word: string, rest: string)
    requires key != "" && WordChars(key) && Sensitive(key) && separator.Valid()
    requires word != "" && NoBlank(word) && (rest == "" || IsSpace(rest[0]))
    requires forall i | 0 <= i < |rest| :: rest[i] != ':' && rest[i] != '='
    ensures Sanitize(Some(key + separator.Then(word + rest))) == Some(key + HIDDEN + rest)
  {
    OnlyTheFirstWordIsHidden(key, separator, word, rest);
    PlainTextIsKept(rest);
    HiddenIsMasked(key, rest);
  }

  lemma HiddenIsMasked(key: string, rest: string)
    requires WordChars(key) && forall i | 0 <= i < |rest| :: rest[i] != ':'
    ensures HideCredentials(key + HIDDEN + rest) == key + HIDDEN + rest
  {
    hide HideCredentials, UrlCredentials;
    WordHasNoColon(key);
    HiddenHasNoColon();
    NoneInConcat(key, HIDDEN, ':');
    NoneInConcat(key + HIDDEN, rest, ':');
    NoColonNoCredentials(key + HIDDEN + rest);
    MaskingAgain(key + HIDDEN + rest);
  }

  lemma NoneInConcat(a: string, b: string, c: char)
    requires (forall i | 0 <= i < |a| :: a[i] != c) && (forall i | 0 <= i < |b| :: b[i] != c)
    ensures forall i | 0 <= i < |a + b| :: (a + b)[i] != c
  {
  }

  lemma HiddenHasNoColon()
    ensures forall i | 0 <= i < |HIDDEN| :: HIDDEN[i] != ':'
  {
    assert HIDDEN == ['=', '[', 'r', 'e', 'd', 'a', 'c', 't', 'e', 'd', ']'];
  }

  lemma WordHasNoColon(key: string)
    requires WordChars(key)
    ensures forall i | 0 <= i < |key| :: key[i] != ':'
  {
    forall i | 0 <= i < |key| ensures key[i] != ':' {
      assert IsWord(key[i]);
    }
  }

  lemma AuthorizationIsSensitive()
    ensures Sensitive("Authorization") && WordChars("Authorization")
  {
    assert LowerCase("Authorization") == "authorization" == NAMES[0];
  }
}
