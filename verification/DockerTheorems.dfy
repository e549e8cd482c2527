/** What the container selection promises: a partition, a stable sort, a join and its totals. */
module DockerTheorems {
  import opened Sequences
  import opened Text
  import opened Telemetry
  import opened Docker
  import opened SizeTheorems

  // ----- Partition -----

  lemma {:induction false} SelectedCounts(records: seq<Record>, project: string, r: Record)
    ensures multiset(Selected(records, project))[r] ==
            if r.project == Some(project) then multiset(records)[r] else 0
  {
    if records != [] {
      var front, last := records[..|records| - 1], records[|records| - 1];
      SelectedCounts(front, project, r);
      assert records == front + [last];
    }
  }

  /** The selections of several projects, one after the other. */
  function SelectedBy(records: seq<Record>, projects: seq<string>): seq<Record> {
    if projects == [] then []
    else SelectedBy(records, projects[..|projects| - 1]) + Selected(records, projects[|projects| - 1])
  }

  lemma DistinctFront(projects: seq<string>, p: string)
    requires projects != [] && Distinct(projects)
    ensures var front, last := projects[..|projects| - 1], projects[|projects| - 1];
            Distinct(front) && last !in front && (p in projects <==> p in front || p == last)
  {
    assert projects == projects[..|projects| - 1] + [projects[|projects| - 1]];
  }

  /** Distinct projects share no record and together show every record labelled with one of them once. */
  lemma {:induction false} ProjectsPartitionRecords(records: seq<Record>, projects: seq<string>, r: Record)
    requires Distinct(projects)
    ensures multiset(SelectedBy(records, projects))[r] ==
            if r.project.Some? && r.project.value in projects then multiset(records)[r] else 0
  {
    if projects != [] {
      var front, last := projects[..|projects| - 1], projects[|projects| - 1];
      DistinctFront(projects, if r.project.Some? then r.project.value else "");
      ProjectsPartitionRecords(records, front, r);
      SelectedCounts(records, last, r);
    }
  }

  // ----- Sorting -----

  predicate SortedByName(s: seq<Container>) {
    forall i, j | 0 <= i < j < |s| :: NameAtMost(s[i].name, s[j].name)
  }

  function Named(s: seq<Container>, name: string): seq<Container> {
    if s == [] then []
    else Named(s[..|s| - 1], name) + (if s[|s| - 1].name == name then [s[|s| - 1]] else [])
  }

  lemma {:induction false} NameOrderIsTotal(a: string, b: string)
    ensures NameAtMost(a, b) || NameAtMost(b, a)
    ensures NameAtMost(a, b) && NameAtMost(b, a) ==> a == b
  {
    if a != "" && b != "" {
      NameOrderIsTotal(a[1..], b[1..]);
      HeadAndTail(a);
      HeadAndTail(b);
    }
  }

  lemma {:induction false} NameOrderIsTransitive(a: string, b: string, c: string)
    requires NameAtMost(a, b) && NameAtMost(b, c)
    ensures NameAtMost(a, c)
  {
    if a != "" && a[0] == b[0] && b[0] == c[0] {
      NameOrderIsTransitive(a[1..], b[1..], c[1..]);
    }
  }

  lemma {:induction false} InsertKeepsOrder(sorted: seq<Container>, c: Container)
    requires SortedByName(sorted)
    ensures SortedByName(Insert(sorted, c))
  {
    hide NameAtMost;
    if sorted != [] {
      var front, last := sorted[..|sorted| - 1], sorted[|sorted| - 1];
      if NameAtMost(last.name, c.name) {
        NameOrderIsTotal(last.name, last.name);
        forall i | 0 <= i < |sorted| ensures NameAtMost(sorted[i].name, c.name) {
          assert NameAtMost(sorted[i].name, last.name);
          NameOrderIsTransitive(sorted[i].name, last.name, c.name);
        }
      } else {
        NameOrderIsTotal(last.name, c.name);
        InsertKeepsOrder(front, c);
        InsertedAreAtMost(front, c, last.name);
      }
    }
  }

  lemma {:induction false} InsertPermutes(sorted: seq<Container>, c: Container)
    ensures multiset(Insert(sorted, c)) == multiset(sorted) + multiset{c}
  {
    if sorted != [] {
      var front, last := sorted[..|sorted| - 1], sorted[|sorted| - 1];
      assert sorted == front + [last];
      InsertPermutes(front, c);
    }
  }

  lemma InsertedAreAtMost(s: seq<Container>, c: Container, name: string)
    requires NameAtMost(c.name, name) && forall i | 0 <= i < |s| :: NameAtMost(s[i].name, name)
    ensures forall i | 0 <= i < |Insert(s, c)| :: NameAtMost(Insert(s, c)[i].name, name)
  {
    hide NameAtMost;
    var r := Insert(s, c);
    InsertPermutes(s, c);
    forall i | 0 <= i < |r| ensures NameAtMost(r[i].name, name) {
      assert r[i] in multiset(r);
      assert r[i] in multiset(s) + multiset{c};
    }
  }

  lemma NamedOneMore(s: seq<Container>, c: Container, name: string)
    ensures Named(s + [c], name) == Named(s, name) + (if c.name == name then [c] else [])
  {
    assert (s + [c])[..|s|] == s;
  }

  lemma {:induction false} InsertIsStable(sorted: seq<Container>, c: Container, name: string)
    requires SortedByName(sorted)
    ensures Named(Insert(sorted, c), name) == Named(sorted, name) + (if c.name == name then [c] else [])
  {
    if sorted == [] || NameAtMost(sorted[|sorted| - 1].name, c.name) {
      NamedOneMore(sorted, c, name);
    } else {
      var front, last := sorted[..|sorted| - 1], sorted[|sorted| - 1];
      InsertIsStable(front, c, name);
      NamedOneMore(Insert(front, c), last, name);
      NameOrderIsTotal(last.name, last.name);
    }
  }

  /** The sort orders by name, loses and invents nothing, and keeps equal names in their order. */
  lemma {:induction false} SortIsStable(s: seq<Container>, name: string)
    ensures SortedByName(SortByName(s)) && multiset(SortByName(s)) == multiset(s)
    ensures Named(SortByName(s), name) == Named(s, name)
  {
    if s != [] {
      var front, last := s[..|s| - 1], s[|s| - 1];
      assert s == front + [last];
      SortIsStable(front, name);
      var sorted := SortByName(front);
      InsertKeepsOrder(sorted, last);
      InsertPermutes(sorted, last);
      InsertIsStable(sorted, last, name);
    }
  }

  lemma {:induction false} NamedIsIn(s: seq<Container>, c: Container)
    ensures c in Named(s, c.name) <==> c in s
  {
    if s != [] {
      NamedIsIn(s[..|s| - 1], c);
      assert s == s[..|s| - 1] + [s[|s| - 1]];
    }
  }

  lemma LastNameIsGreatest(a: seq<Container>, b: seq<Container>)
    requires a != [] && b != [] && SortedByName(b)
    requires forall name :: Named(a, name) == Named(b, name)
    ensures NameAtMost(a[|a| - 1].name, b[|b| - 1].name)
  {
    var last := a[|a| - 1];
    NamedIsIn(a, last);
    NamedIsIn(b, last);
    NameOrderIsTotal(last.name, last.name);
    var i :| 0 <= i < |b| && b[i] == last;
  }

  /** There is only one such arrangement, so the sort is determined by these three properties. */
  lemma {:induction false} StableSortIsUnique(a: seq<Container>, b: seq<Container>)
    requires SortedByName(a) && SortedByName(b)
    requires forall name :: Named(a, name) == Named(b, name)
    ensures a == b
    decreases |a|
  {
    if a == [] || b == [] {
      if a != [] {
        NamedIsIn(a, a[0]);
        NamedIsIn(b, a[0]);
      } else if b != [] {
        NamedIsIn(a, b[0]);
        NamedIsIn(b, b[0]);
      }
    } else {
      var x, y := a[|a| - 1], b[|b| - 1];
      LastNameIsGreatest(a, b);
      LastNameIsGreatest(b, a);
      NameOrderIsTotal(x.name, y.name);
      var m, n := a[..|a| - 1], b[..|b| - 1];
      assert Named(a, x.name) == Named(m, x.name) + [x];
      assert Named(b, x.name) == Named(n, x.name) + [y];
      assert Named(a, x.name)[|Named(a, x.name)| - 1] == x;
      forall name ensures Named(m, name) == Named(n, name) {
        assert Named(a, name) == Named(b, name);
        if name == x.name {
          assert Named(m, name) == Named(a, name)[..|Named(a, name)| - 1];
          assert Named(n, name) == Named(b, name)[..|Named(b, name)| - 1];
        } else {
          assert Named(a, name) == Named(m, name) && Named(b, name) == Named(n, name);
        }
      }
      StableSortIsUnique(m, n);
      assert a == m + [x] && b == n + [y];
    }
  }

  // ----- The join -----

  /** All stats that could be joined with this container are the same. */
  predicate UniquelyRelated(id: string, stats: seq<Stat>) {
    forall s, t | s in stats && t in stats && Related(id, s) && Related(id, t) :: s == t
  }

  /** `stats[k]` is related, and no stat before it is. */
  predicate IsFirst(id: string, stats: seq<Stat>, k: nat) {
    k < |stats| && Related(id, stats[k]) && forall j | 0 <= j < k :: !Related(id, stats[j])
  }

  /** The search finds the first related stat, and the empty one only if no stat is related. */
  lemma {:induction false} FirstRelatedIsFirst(id: string, stats: seq<Stat>) returns (k: nat)
    ensures k < |stats| ==> IsFirst(id, stats, k) && FirstRelated(id, stats) == stats[k]
    ensures k >= |stats| ==> FirstRelated(id, stats) == NO_STAT && forall t | t in stats :: !Related(id, t)
  {
    k := 0;
    if stats != [] && !Related(id, stats[0]) {
      k := FirstRelatedIsFirst(id, stats[1..]);
      k := k + 1;
      HeadAndTail(stats);
      forall j | 0 < j < |stats| ensures stats[j] == stats[1..][j - 1] {}
    }
  }

  lemma FirstRelatedIsRelated(id: string, stats: seq<Stat>)
    ensures var s := FirstRelated(id, stats);
            if exists t | t in stats :: Related(id, t) then s in stats && Related(id, s) else s == NO_STAT
  {
    var k := FirstRelatedIsFirst(id, stats);
  }

  /** Another related stat moved to the front is found instead. */
  lemma MovedToTheFront(stats: seq<Stat>, k: nat) returns (moved: seq<Stat>)
    requires k < |stats|
    ensures multiset(moved) == multiset(stats) && moved != [] && moved[0] == stats[k]
  {
    moved := [stats[k]] + stats[..k] + stats[k + 1..];
    assert stats == stats[..k] + [stats[k]] + stats[k + 1..];
  }

  lemma JoinIgnoresOrder(id: string, stats: seq<Stat>, p: seq<Stat>)
    requires UniquelyRelated(id, stats) && multiset(p) == multiset(stats)
    ensures FirstRelated(id, p) == FirstRelated(id, stats)
  {
    FirstRelatedIsRelated(id, stats);
    FirstRelatedIsRelated(id, p);
    forall s ensures s in p <==> s in stats {
      assert s in p <==> s in multiset(p);
      assert s in stats <==> s in multiset(stats);
    }
  }

  /** Two orders that join two different related stats. */
  lemma JoinDependsOnOrder(id: string, stats: seq<Stat>) returns (p: seq<Stat>, q: seq<Stat>)
    requires !UniquelyRelated(id, stats)
    ensures multiset(p) == multiset(stats) && multiset(q) == multiset(stats)
    ensures FirstRelated(id, p) != FirstRelated(id, q)
  {
    var s, t :| s in stats && t in stats && Related(id, s) && Related(id, t) && s != t;
    var i :| 0 <= i < |stats| && stats[i] == s;
    var j :| 0 <= j < |stats| && stats[j] == t;
    p := MovedToTheFront(stats, i);
    q := MovedToTheFront(stats, j);
  }

  /** The order of the stats never matters exactly when all related stats are equal. */
  lemma JoinIgnoresOrderIff(id: string, stats: seq<Stat>)
    ensures UniquelyRelated(id, stats) <==>
            forall p | multiset(p) == multiset(stats) :: FirstRelated(id, p) == FirstRelated(id, stats)
  {
    if UniquelyRelated(id, stats) {
      forall p | multiset(p) == multiset(stats) ensures FirstRelated(id, p) == FirstRelated(id, stats) {
        JoinIgnoresOrder(id, stats, p);
      }
    } else {
      var p, q := JoinDependsOnOrder(id, stats);
    }
  }

  /** A whole project does not depend on the order of the stats when each of its containers joins uniquely. */
  lemma {:induction false} ProjectIgnoresStatOrder(
    records: seq<Record>, stats: seq<Stat>, p: seq<Stat>, project: string)
    requires multiset(p) == multiset(stats)
    requires forall r | r in records && r.project == Some(project) :: UniquelyRelated(r.id, stats)
    ensures ProjectContainers(records, p, project) == ProjectContainers(records, stats, project)
  {
    var selected := Selected(records, project);
    forall i | 0 <= i < |selected| ensures FirstRelated(selected[i].id, p) == FirstRelated(selected[i].id, stats) {
      assert selected[i] in multiset(selected);
      SelectedCounts(records, project, selected[i]);
      assert selected[i] in multiset(records);
      JoinIgnoresOrder(selected[i].id, stats, p);
    }
    JoinedAgree(selected, stats, p);
  }

  lemma JoinedAgree(records: seq<Record>, stats: seq<Stat>, p: seq<Stat>)
    requires forall i | 0 <= i < |records| :: FirstRelated(records[i].id, p) == FirstRelated(records[i].id, stats)
    ensures Joined(records, p) == Joined(records, stats)
  {
  }

  // ----- Failure -----

  /** The usage of this stat shows a size in a unit the table lacks. */
  predicate UnsizedStat(stat: Stat) {
    || Unsized(UsedText(stat))
    || (LimitText(stat).Some? && Unsized(LimitText(stat).value))
  }

  /** The usage shows a limit that does not round to zero. */
  predicate ShowsLimit(stat: Stat) {
    LimitText(stat).Some? && Round2(ExactMb(LimitText(stat).value)) > 0.0
  }

  /** What a container cannot be built from: a size in a missing unit, from the stat or, when that shows no
      limit, from the host configuration, or a malformed field. */
  predicate Unbuildable(record: Record, stat: Stat) {
    UnsizedStat(stat) || (!ShowsLimit(stat) && Unsized(record.memory + "B")) || Malformed(record)
  }

  lemma LimitRaisesIff(stat: Stat)
    requires LimitText(stat).Some?
    ensures MemoryMb(LimitText(stat).value).Raised? <==> Unsized(LimitText(stat).value)
    ensures MemoryMb(LimitText(stat).value) == Value(None) ==> !ShowsLimit(stat)
    ensures MemoryMb(LimitText(stat).value).Value? && MemoryMb(LimitText(stat).value).value.Some? ==>
              (MemoryMb(LimitText(stat).value).value.value > 0.0 <==> ShowsLimit(stat))
  {
    MemoryMbRaisesIff(LimitText(stat).value);
    MemoryMbRounds(LimitText(stat).value);
    RoundKeepsHundredths(0);
  }

  lemma UsageRaisesIff(stat: Stat)
    ensures ParseMemoryUsage(stat).Raised? <==> UnsizedStat(stat)
    ensures ParseMemoryUsage(stat).Value? ==> (ParseMemoryUsage(stat).value.limitMb.Some? <==> ShowsLimit(stat))
  {
    MemoryMbRaisesIff(UsedText(stat));
    if LimitText(stat).Some? {
      LimitRaisesIff(stat);
    }
  }

  lemma BuildRaisesIff(record: Record, stat: Stat)
    ensures BuildContainer(record, stat).Raised? <==> Unbuildable(record, stat)
  {
    UsageRaisesIff(stat);
    HostLimitRaisesIff(record.memory);
  }

  lemma {:induction false} GatherRaisesIff<T>(outcomes: seq<Outcome<T>>)
    ensures Gather(outcomes).Raised? <==> exists i | 0 <= i < |outcomes| :: outcomes[i].Raised?
    ensures Gather(outcomes).Value? ==>
              |Gather(outcomes).value| == |outcomes|
              && forall i | 0 <= i < |outcomes| :: outcomes[i] == Value(Gather(outcomes).value[i])
  {
    if outcomes != [] {
      var front := outcomes[..|outcomes| - 1];
      GatherRaisesIff(front);
      assert forall i | 0 <= i < |front| :: outcomes[i] == front[i];
    }
  }

  lemma SelectedMembers(records: seq<Record>, project: string, r: Record)
    ensures r in Selected(records, project) <==> r in records && r.project == Some(project)
  {
    SelectedCounts(records, project, r);
    assert r in Selected(records, project) <==> r in multiset(Selected(records, project));
    assert r in records <==> r in multiset(records);
  }

  lemma SelectedRaises(records: seq<Record>, stats: seq<Stat>, project: string, i: nat)
    requires i < |Selected(records, project)|
    ensures var r := Selected(records, project)[i];
            && r in records && r.project == Some(project)
            && (BuildJoined(r, stats).Raised? <==> Unbuildable(r, FirstRelated(r.id, stats)))
  {
    var r := Selected(records, project)[i];
    SelectedMembers(records, project, r);
    BuildRaisesIff(r, FirstRelated(r.id, stats));
  }

  /** One record that no container can be built from loses the whole project. */
  lemma {:induction false} ProjectRaisesIff(records: seq<Record>, stats: seq<Stat>, project: string)
    requires project != ""
    ensures ProjectContainers(records, stats, project).Raised? <==>
            exists r | r in records && r.project == Some(project) :: Unbuildable(r, FirstRelated(r.id, stats))
  {
    var selected := Selected(records, project);
    var joined := Joined(selected, stats);
    GatherRaisesIff(joined);
    forall i | 0 <= i < |selected|
      ensures selected[i] in records && selected[i].project == Some(project)
      ensures joined[i].Raised? <==> Unbuildable(selected[i], FirstRelated(selected[i].id, stats))
    {
      SelectedRaises(records, stats, project, i);
    }
    forall r | r in records && r.project == Some(project) ensures exists i | 0 <= i < |joined| :: selected[i] == r {
      SelectedMembers(records, project, r);
    }
  }

  lemma PetabyteIsUnsized()
    ensures Unsized("1PB")
  {
    var parts := Parts("", "1", "", "", "PB", "");
    assert UpperCase("PB") == "PB";
    assert parts.Text() == "1PB";
    SizeIsComplete(parts);
  }

  /** A container using "1PB" takes all containers of its project with it. */
  lemma OnePetabyteLosesTheProject(records: seq<Record>, stats: seq<Stat>, r: Record, project: string)
    requires project != "" && r in records && r.project == Some(project)
    requires FirstRelated(r.id, stats).memUsage == "1PB"
    ensures ProjectContainers(records, stats, project) == Raised
  {
    var stat := FirstRelated(r.id, stats);
    RunIs(IsNotSlash, "1PB", 3);
    assert "1PB"[..3] == "1PB";
    assert UsedText(stat) == "1PB";
    PetabyteIsUnsized();
    assert Unbuildable(r, stat);
    ProjectRaisesIff(records, stats, project);
  }

  /** Each of these containers is built from the record at its place and the stat that record joins. */
  ghost predicate BuiltFrom(built: seq<Container>, records: seq<Record>, stats: seq<Stat>) {
    |built| == |records| && forall i | 0 <= i < |built| :: BuildJoined(records[i], stats) == Value(built[i])
  }

  lemma BuildAllIsBuilt(records: seq<Record>, stats: seq<Stat>)
    requires BuildAll(records, stats).Value?
    ensures BuiltFrom(BuildAll(records, stats).value, records, stats)
  {
    GatherRaisesIff(Joined(records, stats));
  }

  /** What a successful selection shows: each labelled record once, joined with its stat, in stable name order. */
  lemma {:induction false} ProjectShowsItsRecords(records: seq<Record>, stats: seq<Stat>, project: string)
    returns (built: seq<Container>)
    requires project != "" && ProjectContainers(records, stats, project).Value?
    ensures BuiltFrom(built, Selected(records, project), stats)
    ensures var r := ProjectContainers(records, stats, project).value;
            && r == SortByName(built) && SortedByName(r) && multiset(r) == multiset(built)
            && forall name :: Named(r, name) == Named(built, name)
  {
    var selected := Selected(records, project);
    BuildAllIsBuilt(selected, stats);
    built := BuildAll(selected, stats).value;
    SortIsStable(built, "");
    forall name ensures Named(SortByName(built), name) == Named(built, name) {
      SortIsStable(built, name);
    }
  }

  // ----- Totals -----

  lemma {:induction false} TotalsOfInsert(sorted: seq<Container>, c: Container)
    ensures TotalMemory(Insert(sorted, c)) == TotalMemory(sorted) + c.usage.memoryUsedMb
    ensures TotalCpu(Insert(sorted, c)) == TotalCpu(sorted) + c.usage.cpuPercent
  {
    assert (sorted + [c])[..|sorted|] == sorted;
    if sorted != [] && !NameAtMost(sorted[|sorted| - 1].name, c.name) {
      var front, last := sorted[..|sorted| - 1], sorted[|sorted| - 1];
      TotalsOfInsert(front, c);
      assert (Insert(front, c) + [last])[..|Insert(front, c)|] == Insert(front, c);
    }
  }

  lemma {:induction false} TotalsOfSort(s: seq<Container>)
    ensures TotalMemory(SortByName(s)) == TotalMemory(s) && TotalCpu(SortByName(s)) == TotalCpu(s)
  {
    if s != [] {
      TotalsOfSort(s[..|s| - 1]);
      TotalsOfInsert(SortByName(s[..|s| - 1]), s[|s| - 1]);
    }
  }

  function Sum(xs: seq<real>): real {
    if xs == [] then 0.0 else Sum(xs[..|xs| - 1]) + xs[|xs| - 1]
  }

  /** The size, in MiB and not rounded, that the joined stat shows. */
  function ExactSize(record: Record, stats: seq<Stat>): real {
    ExactMb(UsedText(FirstRelated(record.id, stats)))
  }

  function ExactSizes(records: seq<Record>, stats: seq<Stat>): seq<real> {
    seq(|records|, i requires 0 <= i < |records| => ExactSize(records[i], stats))
  }

  lemma BuiltMemory(record: Record, stat: Stat)
    requires BuildContainer(record, stat).Value?
    ensures BuildContainer(record, stat).value.usage.memoryUsedMb == Round2(ExactMb(UsedText(stat)))
  {
    MemoryMbRounds(UsedText(stat));
    RoundKeepsHundredths(0);
  }

  ghost predicate Rounded(cs: seq<Container>, exact: seq<real>) {
    |cs| == |exact| && forall i | 0 <= i < |cs| :: cs[i].usage.memoryUsedMb == Round2(exact[i])
  }

  lemma BuiltAreRounded(built: seq<Container>, records: seq<Record>, stats: seq<Stat>)
    requires BuiltFrom(built, records, stats)
    ensures Rounded(built, ExactSizes(records, stats))
  {
    forall i | 0 <= i < |built|
      ensures built[i].usage.memoryUsedMb == Round2(ExactMb(UsedText(FirstRelated(records[i].id, stats))))
    {
      assert BuildJoined(records[i], stats) == Value(built[i]);
      BuiltMemory(records[i], FirstRelated(records[i].id, stats));
    }
  }

  /** Each container is off by at most half a hundredth, and the sum of hundredths is a hundredth again. */
  lemma {:induction false} RoundedTotal(cs: seq<Container>, exact: seq<real>) returns (n: int)
    requires Rounded(cs, exact)
    ensures TotalMemory(cs) == Hundredths(n)
    ensures Abs(TotalMemory(cs) - Sum(exact)) <= 0.005 * |cs| as real
  {
    n := 0;
    if cs != [] {
      var m := RoundedTotal(cs[..|cs| - 1], exact[..|exact| - 1]);
      RoundIsNearest(exact[|exact| - 1], 0);
      var k :| Round2(exact[|exact| - 1]) == Hundredths(k);
      n := m + k;
    }
  }

  lemma ReportedTotals(cs: seq<Container>, n: int)
    requires TotalMemory(cs) == Hundredths(n)
    ensures AggregateResources(cs).memoryUsedMb == TotalMemory(cs)
    ensures Abs(AggregateResources(cs).cpuPercent - TotalCpu(cs)) <= 0.005
  {
    RoundKeepsHundredths(n);
    RoundIsNearest(TotalCpu(cs), 0);
  }

  lemma SortedSize(s: seq<Container>)
    ensures |SortByName(s)| == |s|
  {
    SortIsStable(s, "");
    assert |multiset(SortByName(s))| == |multiset(s)|;
  }

  lemma SortedTotal(built: seq<Container>, exact: seq<real>) returns (n: int)
    requires Rounded(built, exact)
    ensures TotalMemory(SortByName(built)) == Hundredths(n)
    ensures Abs(TotalMemory(SortByName(built)) - Sum(exact)) <= 0.005 * |SortByName(built)| as real
  {
    n := RoundedTotal(built, exact);
    TotalsOfSort(built);
    SortedSize(built);
  }

  /**
   The reported memory of a project of n containers is within n half hundredths of the exact sum: the second
   rounding adds no error, because the first one leaves only hundredths to add up.
   */
  lemma {:induction false} AggregateMemoryBound(records: seq<Record>, stats: seq<Stat>, project: string)
    returns (cs: seq<Container>)
    requires project != "" && ProjectContainers(records, stats, project).Value?
    ensures ProjectContainers(records, stats, project) == Value(cs)
    ensures AggregateResources(cs).memoryUsedMb == TotalMemory(cs)
    ensures Abs(TotalMemory(cs) - Sum(ExactSizes(Selected(records, project), stats))) <= 0.005 * |cs| as real
    ensures Abs(AggregateResources(cs).cpuPercent - TotalCpu(cs)) <= 0.005
  {
    hide Gather, BuildJoined, SortByName, Selected, ExactSizes, Sum, TotalMemory, TotalCpu, Round2, SortedByName, Named;
    var built := ProjectShowsItsRecords(records, stats, project);
    BuiltAreRounded(built, Selected(records, project), stats);
    var n := SortedTotal(built, ExactSizes(Selected(records, project), stats));
    cs := SortByName(built);
    ReportedTotals(cs, n);
  }
}
