/**
 Redaction of deployment error texts, written once in the privileged metadata helper
 (scripts/deploy_metadata.py:21-24, 71-77) and again in the agent
 (agent/collectors/saad_deploy.py:19-22, 214-218): two regular-expression substitutions.
 Both patterns are deterministic, because each repeated class excludes what must follow it.
 */
module Redaction {
  import opened Sequences
  import opened Text

  /** A pattern found at the start of a text: the part that is kept, and all that is replaced. */
  datatype Found = Found(kept: nat, length: nat)

  // ----- key: value -----

  predicate IsWord(c: char) {
    IsLetter(c) || IsDigit(c) || c == '_' || c == '-'
  }

  predicate IsNonSpace(c: char) {
    !IsSpace(c)
  }

  const KEYWORDS := ["token", "secret", "password", "apikey", "api_key", "api-key"]
  const NAMES := ["authorization", "cookie", "database_url"]

  predicate KeywordAt(key: string, i: nat)
    requires i <= |key|
  {
    exists k | 0 <= k < |KEYWORDS| :: StartsWith(LowerCase(key[i..]), KEYWORDS[k])
  }

  /** A word holding a keyword anywhere, or one of the fixed names. */
  predicate Sensitive(key: string) {
    LowerCase(key) in NAMES || exists i | 0 <= i <= |key| :: KeywordAt(key, i)
  }

  /** The length of `\s*[:=]\s*[^\s]+` at the start of `s`. */
  function Assigned(s: string): (r: Option<nat>)
    ensures r.Some? ==> 2 <= r.value <= |s| && (r.value < |s| ==> IsSpace(s[r.value]))
  {
    var a := Run(IsSpace, s);
    if a < |s| && (s[a] == ':' || s[a] == '=') then
      var b := a + 1 + Run(IsSpace, s[a + 1..]);
      if b < |s| then
        Some(b + Run(IsNonSpace, s[b..]))
      else None
    else None
  }

  function KeyValue(s: string): (r: Option<Found>)
    ensures r.Some? ==> 1 <= r.value.kept < r.value.length <= |s|
                        && (r.value.length < |s| ==> IsSpace(s[r.value.length]))
  {
    var k := Run(IsWord, s);
    if k > 0 && Sensitive(s[..k]) then Behind(s, k) else None
  }

  /** What is assigned to a key of length `k`. */
  function Behind(s: string, k: nat): (r: Option<Found>)
    requires 0 < k <= |s|
    ensures r.Some? ==> r.value.kept == k < r.value.length <= |s|
                        && (r.value.length < |s| ==> IsSpace(s[r.value.length]))
  {
    match Assigned(s[k..])
    case None => None
    case Some(n) => Some(Found(k, k + n))
  }

  const HIDDEN := "=[redacted]"

  /** `SENSITIVE_ERROR_VALUE.sub`: leftmost matches, left to right. */
  function HideValues(s: string): (r: string)
    ensures (r == "" <==> s == "") && (s != "" ==> r[0] == s[0])
    decreases |s|
  {
    if s == "" then ""
    else match KeyValue(s)
      case Some(f) => s[..f.kept] + HIDDEN + HideValues(s[f.length..])
      case None => [s[0]] + HideValues(s[1..])
  }

  // ----- scheme://user:password@ -----

  predicate IsScheme(c: char) {
    IsLetter(c) || IsDigit(c) || c == '+' || c == '.' || c == '-'
  }

  predicate IsUserinfo(c: char) {
    !IsSpace(c) && c != '/' && c != '@'
  }

  predicate NotColon(c: char) {
    c != ':'
  }

  /** The length of `[^\s/@:]+:[^\s/@]+@` at the start of `s`. */
  function Credentials(s: string): (r: Option<nat>)
    ensures r.Some? ==> 4 <= r.value <= |s|
  {
    var d, u := Run(IsUserinfo, s), Run(NotColon, s);
    if d < |s| && s[d] == '@' && 1 <= u && u + 1 < d then Some(d + 1) else None
  }

  function UrlCredentials(s: string): (r: Option<Found>)
    ensures r.Some? ==> 4 <= r.value.kept < r.value.length <= |s| && IsLetter(s[0])
                        && r.value.kept == Run(IsScheme, s) + 3
                        && s[r.value.kept - 3..r.value.kept] == "://"
  {
    var k := Run(IsScheme, s);
    if s != "" && IsLetter(s[0]) && StartsWith(s[k..], "://") && Credentials(s[k + 3..]).Some?
    then Some(Found(k + 3, k + 3 + Credentials(s[k + 3..]).value)) else None
  }

  const MASKED := "[redacted]@"

  /** `URL_CREDENTIALS.sub`. */
  function HideCredentials(s: string): (r: string)
    ensures (r == "" <==> s == "") && (s != "" ==> r[0] == s[0])
    decreases |s|
  {
    if s == "" then ""
    else match UrlCredentials(s)
      case Some(f) => s[..f.kept] + MASKED + HideCredentials(s[f.length..])
      case None => [s[0]] + HideCredentials(s[1..])
  }

  /** `_sanitize_error_text`, and the text part of `safe_error_text`. */
  function Sanitize(value: Option<string>): Option<string> {
    match value
    case None => None
    case Some(text) =>
      var hidden := HideCredentials(HideValues(text));
      if hidden == "" then None else Some(hidden)
  }

  // ----- The matchers and the patterns -----

  /** `s[..n]` splits as `\s*[:=]\s*[^\s]+`, the separator at `a` and the value from `b`. */
  predicate IsAssigned(s: string, a: nat, b: nat, n: nat) {
    && a < b < n <= |s|
    && (forall i | 0 <= i < a :: IsSpace(s[i])) && (s[a] == ':' || s[a] == '=')
    && (forall i | a < i < b :: IsSpace(s[i])) && (forall i | b <= i < n :: IsNonSpace(s[i]))
  }

  lemma AssignedIsThePattern(s: string, a: nat, b: nat, n: nat)
    requires IsAssigned(s, a, b, n)
    ensures Assigned(s).Some? && n <= Assigned(s).value
  {
    RunIs(IsSpace, s, a);
    SpacesBeforeValue(s, a, b, n);
    var v := Run(IsNonSpace, s[b..]);
    assert b + v < |s| ==> s[b..][v] == s[b + v];
  }

  lemma SpacesBeforeValue(s: string, a: nat, b: nat, n: nat)
    requires IsAssigned(s, a, b, n)
    ensures Run(IsSpace, s[a + 1..]) == b - a - 1
  {
    var t := s[a + 1..];
    assert forall i | 0 <= i < b - a - 1 :: t[i] == s[a + 1 + i];
    assert IsNonSpace(t[b - a - 1]);
    RunIs(IsSpace, t, b - a - 1);
  }

  lemma AssignedMatches(s: string)
    requires Assigned(s).Some?
    ensures IsAssignment(s, Assigned(s).value)
  {
    hide Run, IsSpace;
    var a := Run(IsSpace, s);
    var t := s[a + 1..];
    var b := a + 1 + Run(IsSpace, t);
    var v := s[b..];
    assert forall i | a < i < b :: s[i] == t[i - a - 1];
    assert t[b - a - 1] == s[b] && v[0] == s[b] && Run(IsNonSpace, v) > 0;
    assert forall i | b <= i < Assigned(s).value :: s[i] == v[i - b];
    assert IsAssigned(s, a, b, Assigned(s).value);
  }

  ghost predicate IsAssignment(s: string, n: nat) {
    exists a: nat, b: nat :: IsAssigned(s, a, b, n)
  }

  /** `s[..n]` is in the language of the key/value pattern, with the key `s[..k]`. */
  ghost predicate IsKeyValue(s: string, k: nat, n: nat) {
    && 0 < k <= n <= |s|
    && (forall i | 0 <= i < k :: IsWord(s[i])) && Sensitive(s[..k])
    && IsAssignment(s[k..], n - k)
  }

  /** The key/value matcher finds only what the pattern describes. */
  lemma KeyValueIsSound(s: string)
    requires KeyValue(s).Some?
    ensures IsKeyValue(s, KeyValue(s).value.kept, KeyValue(s).value.length)
  {
    BehindIsSound(s, Run(IsWord, s));
  }

  lemma BehindIsSound(s: string, k: nat)
    requires 0 < k <= |s| && Behind(s, k).Some?
    ensures IsAssignment(s[k..], Behind(s, k).value.length - k)
  {
    AssignedMatches(s[k..]);
  }

  /** It misses nothing that the pattern describes, and takes the longest value. */
  lemma KeyValueIsComplete(s: string, k: nat, n: nat)
    requires IsKeyValue(s, k, n)
    ensures KeyValue(s).Some? && KeyValue(s).value.kept == k && n <= KeyValue(s).value.length
  {
    AssignmentFound(s[k..], n - k);
    assert s[k..][0] == s[k];
    RunIs(IsWord, s, k);
  }

  lemma AssignmentFound(s: string, n: nat)
    requires IsAssignment(s, n)
    ensures Assigned(s).Some? && n <= Assigned(s).value && s != "" && !IsWord(s[0])
  {
    var a: nat, b: nat :| IsAssigned(s, a, b, n);
    AssignedIsThePattern(s, a, b, n);
    assert a == 0 || IsSpace(s[0]);
  }

  /** `s[..n]` is in the language of the URL pattern, with `s[..k]` the scheme and its slashes. */
  ghost predicate IsUrl(s: string, k: nat, n: nat) {
    && 4 <= k < n <= |s| && IsLetter(s[0]) && (forall i | 0 <= i < k - 3 :: IsScheme(s[i]))
    && StartsWith(s[k - 3..], "://")
    && IsUserAndPassword(s[k..], n - k)
  }

  /** `s[..n]` splits as `[^\s/@:]+:[^\s/@]+@`, the colon at `u`. */
  predicate IsCredentials(s: string, u: nat, n: nat) {
    && 0 < u < n - 2 && n <= |s|
    && (forall i | 0 <= i < u :: IsUserinfo(s[i]) && s[i] != ':') && s[u] == ':'
    && (forall i | u < i < n - 1 :: IsUserinfo(s[i])) && s[n - 1] == '@'
  }

  ghost predicate IsUserAndPassword(s: string, n: nat) {
    exists u: nat :: IsCredentials(s, u, n)
  }

  lemma CredentialsIsThePattern(s: string, n: nat)
    ensures IsUserAndPassword(s, n) <==> Credentials(s) == Some(n)
  {
    if Credentials(s) == Some(n) {
      assert IsCredentials(s, Run(NotColon, s), n);
    }
    if IsUserAndPassword(s, n) {
      var u: nat :| IsCredentials(s, u, n);
      assert forall i | 0 <= i < n - 1 :: IsUserinfo(s[i]);
      RunIs(IsUserinfo, s, n - 1);
      RunIs(NotColon, s, u);
    }
  }

  /** The URL matcher finds exactly what the pattern describes. */
  lemma UrlIsThePattern(s: string, k: nat, n: nat)
    ensures IsUrl(s, k, n) <==> UrlCredentials(s) == Some(Found(k, n))
  {
    if UrlCredentials(s) == Some(Found(k, n)) {
      CredentialsIsThePattern(s[k..], n - k);
    }
    if IsUrl(s, k, n) {
      UrlIsFound(s, k, n);
    }
  }

  lemma UrlIsFound(s: string, k: nat, n: nat)
    requires IsUrl(s, k, n)
    ensures UrlCredentials(s) == Some(Found(k, n))
  {
    CredentialsIsThePattern(s[k..], n - k);
    SchemeEnds(s, k);
    UrlFrom(s, k, n);
  }

  lemma UrlFrom(s: string, k: nat, n: nat)
    requires 4 <= k < n <= |s| && IsLetter(s[0]) && Run(IsScheme, s) == k - 3
    requires StartsWith(s[k - 3..], "://") && Credentials(s[k..]) == Some(n - k)
    ensures UrlCredentials(s) == Some(Found(k, n))
  {
  }

  lemma SchemeEnds(s: string, k: nat)
    requires 3 <= k <= |s| && (forall i | 0 <= i < k - 3 :: IsScheme(s[i])) && StartsWith(s[k - 3..], "://")
    ensures Run(IsScheme, s) == k - 3
  {
    assert s[k - 3] == s[k - 3..][0];
    RunIs(IsScheme, s, k - 3);
  }
}
