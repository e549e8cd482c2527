/**
 Which keys are secret, and what of an error text goes away, in literal words and signs
 (agent/collectors/saad_deploy.py:19-22, 214-218).
 */
module SecretNames {
  import opened Sequences
  import opened Text
  import opened Alphabets
  import opened Redaction
  import opened RedactionTheorems
  import opened SecretValues

  // ----- Secret keys -----

  predicate Contains(s: string, w: string) {
    exists i :: 0 <= i <= |s| && StartsWith(s[i..], w)
  }

  predicate EndsWith(s: string, w: string) {
    |w| <= |s| && s[|s| - |w|..] == w
  }

  /** One of these words occurs in the key, in any case. */
  predicate HasSecretWord(key: string) {
    var k := LowerCase(key);
    || Contains(k, "token") || Contains(k, "secret") || Contains(k, "password")
    || Contains(k, "apikey") || Contains(k, "api_key") || Contains(k, "api-key")
  }

  predicate IsSecretName(key: string) {
    LowerCase(key) == "authorization" || LowerCase(key) == "cookie" || LowerCase(key) == "database_url"
  }

  /** The key holds a secret word or ends with one of the names: the pattern is searched for, so a name is found
      behind other key characters too. */
  predicate NamesSecret(key: string) {
    var k := LowerCase(key);
    HasSecretWord(key) || EndsWith(k, "authorization") || EndsWith(k, "cookie") || EndsWith(k, "database_url")
  }

  /** The characters a key is made of. */
  lemma KeyCharacters(c: char)
    ensures IsWord(c) <==> c in SMALL + CAPITALS + DIGITS + "_-"
  {
    Alphanumeric(c);
  }

  lemma LowerCaseTail(key: string, i: nat)
    requires i <= |key|
    ensures LowerCase(key[i..]) == LowerCase(key)[i..]
  {
  }

  lemma KeywordIsOne(key: string, i: nat)
    requires i <= |key|
    ensures var t := LowerCase(key)[i..];
            KeywordAt(key, i) <==>
            || StartsWith(t, "token") || StartsWith(t, "secret") || StartsWith(t, "password")
            || StartsWith(t, "apikey") || StartsWith(t, "api_key") || StartsWith(t, "api-key")
  {
    hide StartsWith;
    LowerCaseTail(key, i);
    var t := LowerCase(key)[i..];
    assert KEYWORDS[0] == "token" && KEYWORDS[1] == "secret" && KEYWORDS[2] == "password";
    assert KEYWORDS[3] == "apikey" && KEYWORDS[4] == "api_key" && KEYWORDS[5] == "api-key";
  }

  lemma SensitiveIs(key: string)
    ensures Sensitive(key) <==> HasSecretWord(key) || IsSecretName(key)
  {
    hide KeywordAt, StartsWith;
    forall i | 0 <= i <= |key| {
      KeywordIsOne(key, i);
    }
    assert NAMES == ["authorization", "cookie", "database_url"];
  }

  lemma ContainsLonger(s: string, w: string)
    requires s != "" && Contains(s[1..], w)
    ensures Contains(s, w)
  {
    var i :| 0 <= i <= |s[1..]| && StartsWith(s[1..][i..], w);
    assert s[1..][i..] == s[i + 1..];
  }

  lemma EndsLonger(s: string, w: string)
    requires s != "" && s != w
    ensures EndsWith(s, w) <==> EndsWith(s[1..], w)
  {
    if |w| < |s| {
      assert s[1..][|s| - 1 - |w|..] == s[|s| - |w|..];
    }
  }

  lemma SecretInTail(key: string)
    requires key != "" && !Sensitive(key)
    ensures NamesSecret(key) <==> NamesSecret(key[1..])
  {
    hide Contains, EndsWith, Sensitive;
    SensitiveIs(key);
    LowerCaseTail(key, 1);
    var k := LowerCase(key);
    forall w | Contains(k[1..], w) ensures Contains(k, w) { ContainsLonger(k, w); }
    EndsLonger(k, "authorization");
    EndsLonger(k, "cookie");
    EndsLonger(k, "database_url");
  }

  lemma SensitiveNamesSecret(key: string)
    requires Sensitive(key)
    ensures NamesSecret(key)
  {
    hide Contains, Sensitive;
    SensitiveIs(key);
    var k := LowerCase(key);
    assert k[0..] == k;
  }

  /** A key decides about what is assigned to it. */
  lemma {:induction false} KeyDecides(key: string, x: string, n: nat)
    requires WordChars(key) && x != "" && !IsWord(x[0]) && n <= |x| && Assigned(x) == Some(n)
    ensures HideValues(key + x) == if NamesSecret(key) then key + "=[redacted]" + HideValues(x[n..])
                                   else key + HideValues(x)
  {
    hide Run, Assigned, Sensitive, IsWord, HideValues, NamesSecret;
    if key == "" {
      EmptyIsNoSecret();
      assert key + x == x;
      assert key + HideValues(x) == HideValues(x);
    } else if Sensitive(key) {
      SensitiveNamesSecret(key);
      FoundIsHidden(key, x, n);
      assert HIDDEN == "=[redacted]";
    } else {
      SecretInTail(key);
      KeyIsFound(key, x, n);
      CopyOne(key, x);
      KeyDecides(key[1..], x, n);
      HeadAndTail(key);
      Associative([key[0]], key[1..], HideValues(x));
      Associative([key[0]], key[1..], "=[redacted]");
      Associative([key[0]], key[1..] + "=[redacted]", HideValues(x[n..]));
    }
  }

  lemma EmptyIsNoSecret()
    ensures !NamesSecret("")
  {
    assert LowerCase("") == "";
  }

  lemma CopyOne(key: string, x: string)
    requires key != "" && KeyValue(key + x) == None
    ensures HideValues(key + x) == [key[0]] + HideValues(key[1..] + x)
  {
    assert (key + x)[1..] == key[1..] + x;
  }

  /** Behind a key that names a secret, up to the first blank, only the marker is left; behind any other key
      nothing of the assignment itself is touched. */
  lemma SecretIffNamed(key: string, separator: Separator, word: string, rest: string)
    requires key != "" && WordChars(key) && separator.Valid()
    requires word != "" && NoBlank(word) && (rest == "" || IsSpace(rest[0]))
    ensures HideValues(key + separator.Then(word + rest))
         == if NamesSecret(key) then key + "=[redacted]" + HideValues(rest)
            else key + HideValues(separator.Then(word + rest))
  {
    hide Run, Assigned, NamesSecret, HideValues, IsWord, IsSpace, Separator.Then;
    var x := separator.Then(word + rest);
    SeparatorAssigns(separator, word, rest);
    SeparatorStart(separator, word + rest);
    RestIsLast(separator, word, rest);
    KeyDecides(key, x, |x| - |rest|);
  }

  /** The words of the pattern hide a value wherever they stand in the key, in whatever case. */
  lemma SecretWordsHide(before: string, w: string, after: string, separator: Separator, value: string)
    requires WordChars(before + w + after) && separator.Valid() && value != "" && NoBlank(value)
    requires LowerCase(w) in ["token", "secret", "password", "apikey", "api_key", "api-key"]
    ensures var key := before + w + after;
            HideValues(key + separator.Then(value)) == key + "=[redacted]"
  {
    hide Separator.Then, HideValues, NamesSecret, Separator.Valid;
    var key := before + w + after;
    WordIsContained(before, w, after);
    WordNamesSecret(key, LowerCase(w));
    WholeValueGoes(key, separator, value);
  }

  lemma WholeValueGoes(key: string, separator: Separator, value: string)
    requires key != "" && WordChars(key) && NamesSecret(key) && separator.Valid() && value != "" && NoBlank(value)
    ensures HideValues(key + separator.Then(value)) == key + "=[redacted]"
  {
    hide Separator.Then, NamesSecret;
    assert value + "" == value;
    assert key + "=[redacted]" + "" == key + "=[redacted]";
    SecretIffNamed(key, separator, value, "");
  }

  lemma WordIsContained(before: string, w: string, after: string)
    requires w != ""
    ensures Contains(LowerCase(before + w + after), LowerCase(w))
  {
    var k := LowerCase(before + w + after);
    assert k[|before|..][..|w|] == LowerCase(w);
    assert StartsWith(k[|before|..], LowerCase(w));
  }

  lemma WordNamesSecret(key: string, w: string)
    requires w in ["token", "secret", "password", "apikey", "api_key", "api-key"] && Contains(LowerCase(key), w)
    ensures key != "" && NamesSecret(key)
  {
    hide Contains, EndsWith;
    if key == "" { NothingInEmpty(w); }
  }

  lemma NothingInEmpty(w: string)
    requires w != ""
    ensures !Contains(LowerCase(""), w)
  {
  }

  /** So do the names, at the end of the key. */
  lemma SecretNamesHide(before: string, w: string, separator: Separator, value: string)
    requires WordChars(before + w) && separator.Valid() && value != "" && NoBlank(value)
    requires LowerCase(w) in ["authorization", "cookie", "database_url"]
    ensures HideValues(before + w + separator.Then(value)) == before + w + "=[redacted]"
  {
    hide Separator.Then, HideValues, HasSecretWord, Separator.Valid;
    var k := LowerCase(before + w);
    assert k[|k| - |w|..] == LowerCase(w);
    WholeValueGoes(before + w, separator, value);
  }

  lemma {:induction false} NonWordsCopied(w: string, x: string)
    requires forall i | 0 <= i < |w| :: !IsWord(w[i])
    ensures HideValues(w + x) == w + HideValues(x)
  {
    if w == "" {
      assert w + x == x;
    } else {
      hide KeyValue, IsWord;
      NoWordNoMatch(w + x);
      CopyOne(w, x);
      NonWordsCopied(w[1..], x);
      HeadAndTail(w);
      Associative([w[0]], w[1..], HideValues(x));
    }
  }

  /** An assignment to any other key stays as it is, unless its value holds another one. */
  lemma OtherKeysKeepTheirValue(key: string, separator: Separator, value: string)
    requires key != "" && WordChars(key) && !NamesSecret(key) && separator.Valid() && value != "" && NoBlank(value)
    requires forall i | 0 <= i < |value| :: value[i] != ':' && value[i] != '='
    ensures HideValues(key + separator.Then(value)) == key + separator.Then(value)
  {
    hide NamesSecret, HideValues, Separator.Then;
    assert value + "" == value;
    SecretIffNamed(key, separator, value, "");
    SeparatorIsCopied(separator, value);
  }

  lemma SeparatorIsCopied(separator: Separator, value: string)
    requires separator.Valid() && forall i | 0 <= i < |value| :: value[i] != ':' && value[i] != '='
    ensures HideValues(separator.Then(value)) == separator.Then(value)
  {
    hide HideValues;
    var x, w := separator.after + value, separator.before + [separator.sign];
    PlainTextIsKept(x);
    NonWordsCopied(w, x);
    Associative(separator.before, [separator.sign], x);
  }

  // ----- Credentials in URLs -----

  predicate PlainUserinfo(s: string) {
    s != "" && forall i | 0 <= i < |s| :: !IsSpace(s[i]) && s[i] != '/' && s[i] != '@'
  }

  predicate IsSchemeName(s: string) {
    && s != "" && s[0] in SMALL + CAPITALS
    && forall c | c in s :: c in SMALL + CAPITALS + DIGITS + "+.-"
  }

  lemma SchemeNameIs(s: string)
    requires IsSchemeName(s)
    ensures s != "" && IsLetter(s[0]) && forall i | 0 <= i < |s| :: IsScheme(s[i])
  {
    Letters(s[0]);
    forall i | 0 <= i < |s| ensures IsScheme(s[i]) {
      assert s[i] in s;
      Alphanumeric(s[i]);
    }
  }

  lemma UserAndPassword(user: string, password: string, rest: string)
    requires PlainUserinfo(user) && ':' !in user && PlainUserinfo(password)
    ensures var s := user + ":" + password + "@" + rest;
            IsUserAndPassword(s, |user| + |password| + 2) && s[|user| + |password| + 2..] == rest
  {
    var s := user + ":" + password + "@" + rest;
    var u, n := |user|, |user| + |password| + 2;
    assert forall i | 0 <= i < u :: s[i] == user[i] && s[i] in user;
    assert forall i | u < i < n - 1 :: s[i] == password[i - u - 1];
    assert IsCredentials(s, u, n);
  }

  /** User and password in front of a host are replaced, the scheme and everything behind stay. */
  lemma PasswordIsMasked(scheme: string, user: string, password: string, rest: string)
    requires IsSchemeName(scheme) && PlainUserinfo(user) && ':' !in user && PlainUserinfo(password)
    ensures HideCredentials(scheme + "://" + (user + ":" + password + "@" + rest))
         == scheme + "://" + "[redacted]@" + HideCredentials(rest)
  {
    hide PlainUserinfo, IsSchemeName, HideCredentials, IsUrl, UrlCredentials, IsUserAndPassword;
    var c := user + ":" + password + "@" + rest;
    var s, k, m := scheme + "://" + c, |scheme| + 3, |user| + |password| + 2;
    UserAndPassword(user, password, rest);
    UrlIsBuilt(scheme, c, m);
    UrlIsThePattern(s, k, k + m);
    MaskAt(s, k, k + m);
  }

  lemma UrlIsBuilt(scheme: string, c: string, m: nat)
    requires IsSchemeName(scheme) && 0 < m <= |c| && IsUserAndPassword(c, m)
    ensures var s, k := scheme + "://" + c, |scheme| + 3;
            IsUrl(s, k, k + m) && s[..k] == scheme + "://" && s[k + m..] == c[m..]
  {
    hide IsUserAndPassword, IsSchemeName, IsScheme;
    var s, k := scheme + "://" + c, |scheme| + 3;
    SchemeNameIs(scheme);
    assert s[k - 3..] == "://" + c && s[k..] == c;
    assert forall i | 0 <= i < |scheme| :: s[i] == scheme[i];
    assert s[0] == scheme[0] && StartsWith(s[k - 3..], "://");
    assert s[k + m..] == c[m..] && s[..k] == scheme + "://";
    assert IsUserAndPassword(s[k..], k + m - k);
    assert forall i | 0 <= i < k - 3 :: IsScheme(s[i]);
  }

  lemma MaskAt(s: string, k: nat, n: nat)
    requires k < n <= |s| && UrlCredentials(s) == Some(Found(k, n))
    ensures HideCredentials(s) == s[..k] + "[redacted]@" + HideCredentials(s[n..])
  {
    assert MASKED == "[redacted]@";
  }

  // ----- Both together -----

  /** An error text with neither sign goes through untouched; an empty one is no text. */
  lemma PlainErrorIsKept(text: string)
    requires forall i | 0 <= i < |text| :: text[i] != ':' && text[i] != '='
    ensures Sanitize(Some(text)) == if text == "" then None else Some(text)
    ensures Sanitize(None) == None
  {
    PlainTextIsKept(text);
    NoColonNoCredentials(text);
    MaskingAgain(text);
  }
}
