/**
 Docker telemetry (agent/collectors/docker.py): sizes, the join of inspect records with stats, the
 selection of one Compose project and its totals. Decoded JSON values become plain fields, with the
 empty string for a missing text; a value that the record cannot be built from makes the selection raise.
 */
module Docker {
  import opened Sequences
  import opened Text
  import opened Telemetry

  datatype Stat = Stat(id: string, container: string, name: string, cpuPercent: real,
                       memUsage: string, memUsageLimit: string)

  /** The empty dictionary that stands for a missing stat. */
  const NO_STAT := Stat("", "", "", 0.0, "", "")

  /** The service label: missing, a text, or another JSON value, which the model of a container rejects. */
  datatype Label = Missing | Label(text: string) | NotText

  /** `memory` is the configured limit as it prints; `restartCount` is None for what is no integer. */
  datatype Record = Record(id: string, name: string, project: Option<string>, service: Label, status: string,
                           health: Option<string>, memory: string, restartCount: Option<int>)

  // ----- Sizes -----

  /** To the nearest integer, halves to the even one. */
  function RoundHalfEven(y: real): int {
    var low := y.Floor;
    var rest := y - low as real;
    if rest < 0.5 || (rest == 0.5 && low % 2 == 0) then low else low + 1
  }

  /** `round(x, 2)`. */
  function Round2(x: real): real {
    RoundHalfEven(x * 100.0) as real / 100.0
  }

  function Digits(s: string): nat {
    if s == "" then 0 else Digits(s[..|s| - 1]) * 10 + (if IsDigit(s[|s| - 1]) then (s[|s| - 1] - '0') as nat else 0)
  }

  function TenTo(n: nat): (p: real)
    ensures p > 0.0
  {
    if n == 0 then 1.0 else 10.0 * TenTo(n - 1)
  }

  /** The groups of the pattern: the number, its fraction without the point, and the unit in upper case. */
  datatype Size = Size(digits: string, fraction: string, unit: string) {
    function Amount(): real {
      Digits(digits) as real + Digits(fraction) as real / TenTo(|fraction|)
    }
  }

  predicate IsUnit(u: string) {
    || u == "B" || u == "IB"
    || (|u| == 2 && u[0] in "KMGTPE" && u[1] == 'B')
    || (|u| == 3 && u[0] in "KMGTPE" && u[1] == 'I' && u[2] == 'B')
  }

  function Upper(c: char): char {
    if 'a' <= c <= 'z' then c - 'a' + 'A' else c
  }

  function UpperCase(s: string): string {
    seq(|s|, i requires 0 <= i < |s| => Upper(s[i]))
  }

  predicate IsNotBlank(c: char) {
    !IsSpace(c)
  }

  function ParseUnit(rest: string): Option<string> {
    var t := rest[Run(IsSpace, rest)..];
    var n := Run(IsNotBlank, t);
    var u := UpperCase(t[..n]);
    if IsUnit(u) && Run(IsSpace, t[n..]) == |t| - n then Some(u) else None
  }

  /** What follows the integer digits. */
  function ParseFraction(digits: string, rest: string): Option<Size> {
    if rest != "" && rest[0] == '.' then
      var f := Run(IsDigit, rest[1..]);
      if f == 0 then None else WithUnit(digits, rest[1..][..f], rest[1..][f..])
    else WithUnit(digits, "", rest)
  }

  function WithUnit(digits: string, fraction: string, rest: string): Option<Size> {
    match ParseUnit(rest)
    case None => None
    case Some(unit) => Some(Size(digits, fraction, unit))
  }

  /** `_MEMORY_PATTERN`. */
  function ParseSize(text: string): Option<Size> {
    var s := text[Run(IsSpace, text)..];
    var d := Run(IsDigit, s);
    if d == 0 then None else ParseFraction(s[..d], s[d..])
  }

  const KILO := 1000.0
  const KIBI := 1024.0
  const MEBI := 1048576.0

  /** `_MEMORY_UNITS`: no entry for PB, EB and IB, although the pattern accepts them. */
  function BytesPerUnit(u: string): Option<real> {
    if u == "B" then Some(1.0)
    else if u == "KB" then Some(KILO)
    else if u == "MB" then Some(1000000.0)
    else if u == "GB" then Some(1000000000.0)
    else if u == "TB" then Some(1000000000000.0)
    else if u == "KIB" then Some(KIBI)
    else if u == "MIB" then Some(MEBI)
    else if u == "GIB" then Some(1073741824.0)
    else if u == "TIB" then Some(1099511627776.0)
    else if u == "PIB" then Some(1125899906842624.0)
    else if u == "EIB" then Some(1152921504606846976.0)
    else None
  }

  /** The result of a computation that may raise: KeyError for a unit, ValueError for a malformed field. */
  datatype Outcome<+T> = Value(value: T) | Raised

  /** The size in MiB before rounding; zero bytes when the text is no size. */
  function ExactMb(text: string): real {
    match ParseSize(text)
    case None => 0.0
    case Some(size) =>
      match BytesPerUnit(size.unit)
      case None => 0.0
      case Some(bytes) => size.Amount() * bytes / MEBI
  }

  function MemoryMb(text: string): Outcome<Option<real>> {
    match ParseSize(text)
    case None => Value(None)
    case Some(size) =>
      match BytesPerUnit(size.unit)
      case None => Raised
      case Some(bytes) => Value(Some(Round2(size.Amount() * bytes / MEBI)))
  }

  predicate IsNotSlash(c: char) {
    c != '/'
  }

  function UsageText(stat: Stat): string {
    if stat.memUsage != "" then stat.memUsage else stat.memUsageLimit
  }

  function UsedText(stat: Stat): string {
    UsageText(stat)[..Run(IsNotSlash, UsageText(stat))]
  }

  /** What follows the slash, if there is one. */
  function LimitText(stat: Stat): Option<string> {
    var n := Run(IsNotSlash, UsageText(stat));
    if n < |UsageText(stat)| then Some(UsageText(stat)[n + 1..]) else None
  }

  datatype Usage = Usage(usedMb: real, limitMb: Option<real>)

  function ParseMemoryUsage(stat: Stat): Outcome<Usage> {
    match MemoryMb(UsedText(stat))
    case Raised => Raised
    case Value(used) =>
      match if LimitText(stat).Some? then MemoryMb(LimitText(stat).value) else Value(None)
      case Raised => Raised
      case Value(limit) =>
        Value(Usage(if used.Some? then used.value else 0.0,
                    if limit.Some? && limit.value > 0.0 then limit else None))
  }

  // ----- The join -----

  function StatId(stat: Stat): string {
    if stat.id != "" then stat.id else stat.container
  }

  /** One id is a prefix of the other. */
  predicate Related(containerId: string, stat: Stat) {
    StatId(stat) != "" && (StatId(stat) <= containerId || containerId <= StatId(stat))
  }

  function FirstRelated(containerId: string, stats: seq<Stat>): Stat {
    if stats == [] then NO_STAT
    else if Related(containerId, stats[0]) then stats[0]
    else FirstRelated(containerId, stats[1..])
  }

  method FindStat(containerId: string, stats: seq<Stat>) returns (stat: Stat)
    ensures stat == FirstRelated(containerId, stats)
  {
    for k := 0 to |stats|
      invariant FirstRelated(containerId, stats) == FirstRelated(containerId, stats[k..])
    {
      if Related(containerId, stats[k]) {
        return stats[k];
      }
      assert stats[k..][1..] == stats[k + 1..];
    }
    return NO_STAT;
  }

  // ----- One project -----

  /** The limit from the host configuration, read as a number of bytes; zero means none. */
  function HostLimit(memory: string): Outcome<Option<real>> {
    match MemoryMb(memory + "B")
    case Raised => Raised
    case Value(mb) => Value(if mb == Some(0.0) then None else mb)
  }

  predicate IsSlash(c: char) {
    c == '/'
  }

  function DisplayName(record: Record, stat: Stat): string {
    var name := if record.name != "" then record.name else if stat.name != "" then stat.name else record.id;
    name[Run(IsSlash, name)..]
  }

  predicate Malformed(record: Record) {
    record.service == NotText || record.restartCount == None
  }

  function BuildContainer(record: Record, stat: Stat): Outcome<Container> {
    match ParseMemoryUsage(stat)
    case Raised => Raised
    case Value(usage) =>
      match if usage.limitMb.Some? then Value(usage.limitMb) else HostLimit(record.memory)
      case Raised => Raised
      case Value(limit) =>
        if Malformed(record) then Raised
        else
          Value(Container(
            DisplayName(record, stat), if record.service.Label? then Some(record.service.text) else None,
            if record.status != "" then record.status else "unknown", record.health,
            Resources(stat.cpuPercent, usage.usedMb), limit, record.restartCount.value))
  }

  function BuildJoined(record: Record, stats: seq<Stat>): Outcome<Container> {
    BuildContainer(record, FirstRelated(record.id, stats))
  }

  /** The records labelled with this project, in order. */
  function Selected(records: seq<Record>, project: string): seq<Record> {
    if records == [] then []
    else
      var last := records[|records| - 1];
      Selected(records[..|records| - 1], project) + (if last.project == Some(project) then [last] else [])
  }

  /** The values in order, unless one of the computations raises. */
  function Gather<T>(outcomes: seq<Outcome<T>>): Outcome<seq<T>> {
    if outcomes == [] then Value([])
    else AddOne(Gather(outcomes[..|outcomes| - 1]), outcomes[|outcomes| - 1])
  }

  function AddOne<T>(front: Outcome<seq<T>>, last: Outcome<T>): Outcome<seq<T>> {
    if front.Raised? || last.Raised? then Raised else Value(front.value + [last.value])
  }

  function Joined(records: seq<Record>, stats: seq<Stat>): (r: seq<Outcome<Container>>)
    ensures |r| == |records| && forall i | 0 <= i < |r| :: r[i] == BuildJoined(records[i], stats)
  {
    seq(|records|, i requires 0 <= i < |records| => BuildJoined(records[i], stats))
  }

  function BuildAll(records: seq<Record>, stats: seq<Stat>): Outcome<seq<Container>> {
    Gather(Joined(records, stats))
  }

  predicate NameAtMost(a: string, b: string) {
    a == "" || (b != "" && (a[0] < b[0] || (a[0] == b[0] && NameAtMost(a[1..], b[1..]))))
  }

  /** Stable: behind every container whose name is not greater. */
  function Insert(sorted: seq<Container>, c: Container): seq<Container> {
    if sorted == [] || NameAtMost(sorted[|sorted| - 1].name, c.name) then sorted + [c]
    else Insert(sorted[..|sorted| - 1], c) + [sorted[|sorted| - 1]]
  }

  /** `sorted(containers, key=name)`. */
  function SortByName(containers: seq<Container>): seq<Container> {
    if containers == [] then []
    else Insert(SortByName(containers[..|containers| - 1]), containers[|containers| - 1])
  }

  function ProjectContainers(records: seq<Record>, stats: seq<Stat>, project: string): Outcome<seq<Container>> {
    if project == "" then Value([])
    else match BuildAll(Selected(records, project), stats)
      case Raised => Raised
      case Value(containers) => Value(SortByName(containers))
  }

  /** The containers of the first `k` records. */
  function BuildPrefix(records: seq<Record>, k: nat, stats: seq<Stat>, project: string): Outcome<seq<Container>>
    requires k <= |records|
  {
    BuildAll(Selected(records[..k], project), stats)
  }

  lemma GatherOneMore<T>(outcomes: seq<Outcome<T>>, last: Outcome<T>)
    ensures Gather(outcomes + [last]) == AddOne(Gather(outcomes), last)
  {
    assert (outcomes + [last])[..|outcomes|] == outcomes;
  }

  lemma SelectedOneMore(records: seq<Record>, k: nat, project: string)
    requires k < |records|
    ensures Selected(records[..k + 1], project) ==
            Selected(records[..k], project) + (if records[k].project == Some(project) then [records[k]] else [])
  {
    assert records[..k + 1][..k] == records[..k];
  }

  lemma JoinedOneMore(records: seq<Record>, record: Record, stats: seq<Stat>)
    ensures Joined(records + [record], stats) == Joined(records, stats) + [BuildJoined(record, stats)]
  {
  }

  lemma ScanStep(records: seq<Record>, k: nat, stats: seq<Stat>, project: string)
    requires k < |records|
    ensures BuildPrefix(records, k + 1, stats, project) ==
            if records[k].project == Some(project)
            then AddOne(BuildPrefix(records, k, stats, project), BuildJoined(records[k], stats))
            else BuildPrefix(records, k, stats, project)
  {
    SelectedOneMore(records, k, project);
    var before := Selected(records[..k], project);
    if records[k].project == Some(project) {
      var last := BuildJoined(records[k], stats);
      JoinedOneMore(before, records[k], stats);
      GatherOneMore(Joined(before, stats), last);
      assert BuildAll(Selected(records[..k + 1], project), stats) == Gather(Joined(before, stats) + [last]);
    } else {
      assert Selected(records[..k + 1], project) == before;
    }
  }

  lemma {:induction false} ScanFails(records: seq<Record>, k: nat, stats: seq<Stat>, project: string)
    requires k <= |records| && BuildPrefix(records, k, stats, project).Raised?
    ensures BuildAll(Selected(records, project), stats).Raised?
    decreases |records| - k
  {
    if k == |records| {
      assert records[..k] == records;
    } else {
      ScanStep(records, k, stats, project);
      ScanFails(records, k + 1, stats, project);
    }
  }

  /** The body of the loop: one record joined with its stat. */
  method ContainerOf(record: Record, stats: seq<Stat>) returns (container: Outcome<Container>)
    ensures container == BuildJoined(record, stats)
  {
    var stat := FindStat(record.id, stats);
    container := BuildContainer(record, stat);
  }

  method ContainersForProject(records: seq<Record>, stats: seq<Stat>, project: Option<string>)
    returns (r: Outcome<seq<Container>>)
    ensures r == if project.Some? then ProjectContainers(records, stats, project.value) else Value([])
  {
    if project.None? || project.value == "" {
      return Value([]);
    }
    var containers: seq<Container> := [];
    for k := 0 to |records|
      invariant BuildPrefix(records, k, stats, project.value) == Value(containers)
    {
      ScanStep(records, k, stats, project.value);
      if records[k].project == project {
        var container := ContainerOf(records[k], stats);
        if container.Raised? {
          ScanFails(records, k + 1, stats, project.value);
          return Raised;
        }
        containers := containers + [container.value];
      }
    }
    assert records[..|records|] == records;
    return Value(SortByName(containers));
  }

  // ----- Totals -----

  function TotalCpu(containers: seq<Container>): real {
    if containers == [] then 0.0
    else TotalCpu(containers[..|containers| - 1]) + containers[|containers| - 1].usage.cpuPercent
  }

  function TotalMemory(containers: seq<Container>): real {
    if containers == [] then 0.0
    else TotalMemory(containers[..|containers| - 1]) + containers[|containers| - 1].usage.memoryUsedMb
  }

  function AggregateResources(containers: seq<Container>): Resources {
    Resources(Round2(TotalCpu(containers)), Round2(TotalMemory(containers)))
  }
}
