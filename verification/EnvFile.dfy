/**
 The `KEY=value` parser, written three times: in the agent (agent/collectors/saad_deploy.py:38-70),
 in the metadata helper (scripts/deploy_metadata.py:35-59) and, with a difference, in the control
 helper (scripts/control_helper.py:28-50).
 */
module EnvFile {
  import opened Sequences
  import opened Text
  import opened Shlex

  // ----- Text functions -----

  /** The line boundaries of `str.splitlines`. */
  predicate IsLineBreak(c: char) {
    || '\n' <= c <= '\r' || '\U{001C}' <= c <= '\U{001E}'
    || c == '\U{0085}' || c == '\U{2028}' || c == '\U{2029}'
  }

  predicate IsNotBreak(c: char) {
    !IsLineBreak(c)
  }

  function SplitLines(text: string): (lines: seq<string>)
    ensures forall l | l in lines :: forall i | 0 <= i < |l| :: !IsLineBreak(l[i])
    decreases |text|
  {
    if text == "" then []
    else
      var n := Run(IsNotBreak, text);
      var skip := if n + 1 < |text| && text[n] == '\r' && text[n + 1] == '\n' then n + 2 else n + 1;
      [text[..n]] + (if skip < |text| then SplitLines(text[skip..]) else [])
  }

  function LStrip(s: string): (r: string)
    ensures |r| <= |s| && r == s[|s| - |r|..] && (r != "" ==> !IsSpace(r[0]))
  {
    s[Run(IsSpace, s)..]
  }

  function RStrip(s: string): (r: string)
    ensures r <= s && (r != "" ==> !IsSpace(r[|r| - 1]))
    ensures forall i | |r| <= i < |s| :: IsSpace(s[i])
  {
    if s == "" || !IsSpace(s[|s| - 1]) then s else RStrip(s[..|s| - 1])
  }

  function Strip(s: string): (r: string)
    ensures r != "" ==> !IsSpace(r[0]) && !IsSpace(r[|r| - 1])
  {
    RStrip(LStrip(s))
  }

  predicate IsNotEquals(c: char) {
    c != '='
  }

  /** `s.split(" #", 1)[0]`. */
  function BeforeComment(s: string): (r: string)
    ensures r <= s
  {
    if s == "" then ""
    else if StartsWith(s, " #") then ""
    else [s[0]] + BeforeComment(s[1..])
  }

  predicate IsKeyChar(c: char) {
    IsLetter(c) || IsDigit(c) || c == '_'
  }

  /** `key.replace("_", "A").isalnum()` on a stripped key. */
  predicate ValidKey(key: string) {
    key != "" && forall i | 0 <= i < |key| :: IsKeyChar(key[i])
  }

  // ----- One line -----

  datatype Assignment = Assignment(key: string, value: string)

  /** The line without a leading `export`. */
  function Body(line: string): string {
    if StartsWith(line, "export ") then LStrip(line[7..]) else line
  }

  /** The key and what follows the first `=`, for lines that assign anything. */
  function KeyAndRest(rawLine: string): Option<(string, string)> {
    var line := Strip(rawLine);
    if line == "" || line[0] == '#' then None else SplitBody(Body(line))
  }

  function SplitBody(body: string): Option<(string, string)> {
    var n := Run(IsNotEquals, body);
    var key := Strip(body[..n]);
    if n == |body| || !ValidKey(key) then None else Some((key, body[n + 1..]))
  }

  /** How the agent and the metadata helper read a value; None is a malformed quotation. */
  function ReadValue(raw: string): Option<string> {
    ReadTrimmed(Strip(raw))
  }

  function ReadTrimmed(value: string): Option<string> {
    if value != "" && IsQuote(value[0]) then
      match Split(value)
      case None => None
      case Some(parsed) => Some(if parsed != [] then parsed[0] else "")
    else Some(RStrip(BeforeComment(value)))
  }

  /** How the control helper reads one: it does not strip before looking for a quote. */
  function ReadControlValue(raw: string): Option<string> {
    if raw != "" && IsQuote(raw[0]) then
      match Split(raw)
      case None => None
      case Some(parsed) => Some(if parsed != [] then parsed[0] else "")
    else Some(Strip(BeforeComment(raw)))
  }

  function ReadLine(line: string, control: bool): Option<Assignment> {
    match KeyAndRest(line)
    case None => None
    case Some((key, raw)) => ReadRest(key, raw, control)
  }

  function ReadRest(key: string, raw: string, control: bool): Option<Assignment> {
    match if control then ReadControlValue(raw) else ReadValue(raw)
    case None => None
    case Some(value) => Some(Assignment(key, value))
  }

  function Store(values: map<string, string>, a: Option<Assignment>): map<string, string> {
    match a
    case None => values
    case Some(Assignment(key, value)) => values[key := value]
  }

  function ReadLines(lines: seq<string>, control: bool): map<string, string> {
    if lines == [] then map[]
    else Store(ReadLines(lines[..|lines| - 1], control), ReadLine(lines[|lines| - 1], control))
  }

  // ----- The three parsers -----

  lemma ReadLinesSnoc(lines: seq<string>, k: nat, control: bool)
    requires k < |lines|
    ensures ReadLines(lines[..k + 1], control) == Store(ReadLines(lines[..k], control), ReadLine(lines[k], control))
  {
    assert lines[..k + 1][..k] == lines[..k];
  }

  /** The first half of the loop body, the same in all three: None when the line is skipped. */
  method SplitAssignment(rawLine: string) returns (r: Option<(string, string)>)
    ensures r == KeyAndRest(rawLine)
  {
    hide Run, Strip, LStrip, ValidKey;
    var line := Strip(rawLine);
    if line == "" || line[0] == '#' {
      return None;
    }
    if StartsWith(line, "export ") {
      line := LStrip(line[7..]);
    }
    var separator := Run(IsNotEquals, line);
    var key := Strip(line[..separator]);
    if separator == |line| || !ValidKey(key) {
      return None;
    }
    return Some((key, line[separator + 1..]));
  }

  /** How the agent reads the raw value; None when a quotation is malformed and the line is skipped. */
  method AgentValue(rawValue: string) returns (r: Option<string>)
    ensures r == ReadValue(rawValue)
  {
    var value := Strip(rawValue);
    if value != "" && IsQuote(value[0]) {
      var parsed := Split(value);
      if parsed.None? {
        return None;
      }
      return Some(if parsed.value != [] then parsed.value[0] else "");
    }
    return Some(RStrip(BeforeComment(value)));
  }

  /** The agent's `parse_env_file`. */
  method ParseEnvFile(text: string) returns (values: map<string, string>)
    ensures values == ReadLines(SplitLines(text), false)
  {
    values := map[];
    var lines := SplitLines(text);
    for k := 0 to |lines|
      invariant values == ReadLines(lines[..k], false)
    {
      ReadLinesSnoc(lines, k, false);
      var assignment := SplitAssignment(lines[k]);
      if assignment.None? {
        continue;
      }
      var (key, rawValue) := assignment.value;
      var value := AgentValue(rawValue);
      if value.None? {
        continue;
      }
      values := values[key := value.value];
    }
    assert lines[..|lines|] == lines;
  }

  /** The metadata helper's `parse_env_file`. */
  method ParseDeclaration(text: string) returns (values: map<string, string>)
    ensures values == ReadLines(SplitLines(text), false)
  {
    values := map[];
    var lines := SplitLines(text);
    for k := 0 to |lines|
      invariant values == ReadLines(lines[..k], false)
    {
      ReadLinesSnoc(lines, k, false);
      var assignment := SplitAssignment(lines[k]);
      if assignment.Some? {
        var value := ReadValue(assignment.value.1);
        if value.Some? {
          values := values[assignment.value.0 := value.value];
        }
      }
    }
    assert lines[..|lines|] == lines;
  }

  /** The value expression of `env_values`. Taking the first token cannot fail. */
  method ControlValue(value: string) returns (r: Option<string>)
    ensures r == ReadControlValue(value)
  {
    if value != "" && IsQuote(value[0]) {
      var parsed := Split(value);
      if parsed.None? {
        return None;
      }
      QuotedHasFirstToken(value);
      return Some(parsed.value[0]);
    }
    return Some(Strip(BeforeComment(value)));
  }

  /** The control helper's `env_values`. */
  method EnvValues(text: string) returns (values: map<string, string>)
    ensures values == ReadLines(SplitLines(text), true)
  {
    values := map[];
    var lines := SplitLines(text);
    for k := 0 to |lines|
      invariant values == ReadLines(lines[..k], true)
    {
      ReadLinesSnoc(lines, k, true);
      var assignment := SplitAssignment(lines[k]);
      if assignment.Some? {
        var value := ControlValue(assignment.value.1);
        if value.Some? {
          values := values[assignment.value.0 := value.value];
        }
      }
    }
    assert lines[..|lines|] == lines;
  }
}
