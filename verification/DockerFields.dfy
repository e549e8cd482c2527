/**
 What a container shows, field by field, and how sizes, names and ids are read (agent/collectors/docker.py:32-119),
 stated on the texts themselves.
 */
module DockerFields {
  import opened Sequences
  import opened Text
  import opened Alphabets
  import opened Telemetry
  import opened Docker
  import opened SizeTheorems
  import opened DockerTheorems

  // ----- Sizes -----

  lemma UpperCaseOfLetters()
    ensures UpperCase(SMALL) == CAPITALS
  {
  }

  lemma {:induction false} DigitsConcat(a: string, b: string)
    requires AllOf(IsDigit, b)
    ensures Digits(a + b) as real == Digits(a) as real * Power(10.0, |b|) + Digits(b) as real
  {
    hide Digits, Power;
    NoDigits();
    if b == "" {
      assert a + b == a && Digits(b) == 0;
    } else {
      var n := |b| - 1;
      DigitsConcat(a, b[..n]);
      DigitsSnoc(a + b[..n], b[n]);
      DigitsSnoc(b[..n], b[n]);
      assert a + b == a + b[..n] + [b[n]] && b == b[..n] + [b[n]];
      OneDigitMore(Digits(a), Digits(b[..n]), Digits(a + b[..n]), (b[n] - '0') as nat, Power(10.0, n));
      PowerStep(n);
    }
  }

  lemma NoDigits()
    ensures Digits("") == 0 && Power(10.0, 0) == 1.0
  {
  }

  lemma PowerStep(n: nat)
    ensures Power(10.0, n + 1) == 10.0 * Power(10.0, n)
  {
  }

  lemma DigitsSnoc(s: string, c: char)
    requires IsDigit(c)
    ensures Digits(s + [c]) == Digits(s) * 10 + (c - '0') as nat
  {
    assert (s + [c])[..|s|] == s;
  }

  lemma OneDigitMore(a: nat, b: nat, ab: nat, d: nat, p: real)
    requires ab as real == a as real * p + b as real
    ensures (ab * 10 + d) as real == a as real * (10.0 * p) + (b * 10 + d) as real
  {
    assert a as real * (10.0 * p) == a as real * p * 10.0;
  }

  lemma {:induction false} TenToIsPower(k: nat)
    ensures TenTo(k) == Power(10.0, k)
  {
    if k > 0 { TenToIsPower(k - 1); }
  }

  /** The amount is the number that all digits together make, with the point as far from the right as the fraction
      is long. */
  lemma AmountIs(n: nat, fraction: string, unit: string)
    requires AllOf(IsDigit, fraction)
    ensures Size(Decimal(n), fraction, unit).Amount() * Power(10.0, |fraction|)
         == Digits(Decimal(n) + fraction) as real
    ensures Digits(Decimal(n) + fraction) as real == n as real * Power(10.0, |fraction|) + Digits(fraction) as real
  {
    hide Digits, Decimal, Power, TenTo;
    DecimalReadsBack(n);
    DigitsConcat(Decimal(n), fraction);
    TenToIsPower(|fraction|);
    Distributes(n as real, Digits(fraction) as real, TenTo(|fraction|));
  }

  lemma Distributes(a: real, b: real, p: real)
    requires p > 0.0
    ensures (a + b / p) * p == a * p + b
  {
    assert b / p * p == b;
  }

  lemma SizeOf(digits: string, fraction: string, unit: string)
    requires digits != "" && AllOf(IsDigit, digits) && AllOf(IsDigit, fraction) && IsUnit(UpperCase(unit))
    ensures ParseSize(digits + ((if fraction == "" then "" else "." + fraction) + unit))
         == Some(Size(digits, fraction, UpperCase(unit)))
  {
    hide ParseSize, IsUnit, UpperCase;
    var parts := Parts("", digits, fraction, "", unit, "");
    SizeIsComplete(parts);
    assert "" + (unit + "") == unit && "" + unit == unit;
    Associative(".", fraction, unit);
    assert "" + (digits + parts.Rest()) == digits + parts.Rest();
  }

  /** Some sizes as `docker stats` prints them. */
  lemma PrintedSizes()
    ensures MemoryMb("12.5MiB") == Value(Some(12.5))
    ensures MemoryMb("1.25GiB") == Value(Some(1280.0))
    ensures MemoryMb("512KiB") == Value(Some(0.5))
    ensures MemoryMb("2mb") == Value(Some(1.91))
  {
    hide ParseSize, Round2, Size.Amount, BytesPerUnit, UpperCase;
    MixedCaseUnits();
    SizeOf("12", "5", "MiB");
    SizeOf("1", "25", "GiB");
    SizeOf("512", "", "KiB");
    SizeOf("2", "", "mb");
    assert "12" + ("." + "5" + "MiB") == "12.5MiB" && "1" + ("." + "25" + "GiB") == "1.25GiB";
    assert "512" + ("" + "KiB") == "512KiB" && "2" + ("" + "mb") == "2mb";
    Amounts();
    Roundings();
    Tables();
  }

  lemma MixedCaseUnits()
    ensures UpperCase("MiB") == "MIB" && UpperCase("GiB") == "GIB"
    ensures UpperCase("KiB") == "KIB" && UpperCase("mb") == "MB"
    ensures IsUnit("MIB") && IsUnit("GIB") && IsUnit("KIB") && IsUnit("MB")
  {
  }

  lemma Tables()
    ensures BytesPerUnit("MIB") == Some(MEBI) && BytesPerUnit("GIB") == Some(1024.0 * MEBI)
    ensures BytesPerUnit("KIB") == Some(1024.0) && BytesPerUnit("MB") == Some(1000000.0)
  {
  }

  lemma Roundings()
    ensures Round2(12.5 * MEBI / MEBI) == 12.5 && Round2(1.25 * (1024.0 * MEBI) / MEBI) == 1280.0
    ensures Round2(512.0 * 1024.0 / MEBI) == 0.5 && Round2(2.0 * 1000000.0 / MEBI) == 1.91
  {
    assert 12.5 * MEBI / MEBI == 12.5 && 1.25 * (1024.0 * MEBI) / MEBI == 1280.0 && 512.0 * 1024.0 / MEBI == 0.5;
    assert (1250.0).Floor == 1250 && (128000.0).Floor == 128000 && (50.0).Floor == 50;
    assert (2.0 * 1000000.0 / MEBI * 100.0).Floor == 190;
  }

  lemma Amounts()
    ensures Size("12", "5", "MIB").Amount() == 12.5 && Size("1", "25", "GIB").Amount() == 1.25
    ensures Size("512", "", "KIB").Amount() == 512.0 && Size("2", "", "MB").Amount() == 2.0
  {
    assert "12"[..1] == "1" && "1"[..0] == "" && "5"[..0] == "" && "25"[..1] == "2" && "2"[..0] == "";
    assert "512"[..2] == "51" && "51"[..1] == "5";
    assert TenTo(1) == 10.0 && TenTo(2) == 10.0 * TenTo(1);
  }

  /** A tie goes to the even neighbour. */
  lemma HalvesGoEven(k: int)
    ensures RoundHalfEven(k as real + 0.5) % 2 == 0
  {
    assert (k as real + 0.5).Floor == k;
  }

  // ----- Names -----

  /** `b` goes on where `a` ends, or has the greater character at the first place where they differ. */
  ghost predicate Precedes(a: string, b: string) {
    a <= b || exists i :: 0 <= i < |a| && i < |b| && a[..i] == b[..i] && a[i] < b[i]
  }

  /** The order of names is that of the dictionary, by code points. */
  lemma {:induction false} NameOrderIsLexicographic(a: string, b: string)
    ensures NameAtMost(a, b) <==> Precedes(a, b)
  {
    if a != "" && b != "" && a[0] == b[0] {
      NameOrderIsLexicographic(a[1..], b[1..]);
      PrecedesBehind(a, b);
    } else if a != "" && b != "" && a[0] < b[0] {
      assert a[..0] == b[..0];
    } else if Precedes(a, b) && a != "" {
      FirstDecides(a, b);
    }
  }

  lemma FirstDecides(a: string, b: string)
    requires a != "" && Precedes(a, b)
    ensures b != "" && a[0] <= b[0]
  {
    if !(a <= b) {
      var i :| 0 <= i < |a| && i < |b| && a[..i] == b[..i] && a[i] < b[i];
      assert i > 0 ==> a[..i][0] == b[..i][0];
    }
  }

  lemma PrecedesBehind(a: string, b: string)
    requires a != "" && b != "" && a[0] == b[0]
    ensures Precedes(a, b) <==> Precedes(a[1..], b[1..])
  {
    HeadAndTail(a);
    HeadAndTail(b);
    if i :| 0 <= i < |a| && i < |b| && a[..i] == b[..i] && a[i] < b[i] {
      assert a[1..][..i - 1] == a[..i][1..] && b[1..][..i - 1] == b[..i][1..];
      assert a[1..][i - 1] < b[1..][i - 1];
    }
    if i :| 0 <= i < |a[1..]| && i < |b[1..]| && a[1..][..i] == b[1..][..i] && a[1..][i] < b[1..][i] {
      assert a[..i + 1] == [a[0]] + a[1..][..i] && b[..i + 1] == [b[0]] + b[1..][..i];
      assert a[i + 1] < b[i + 1];
    }
  }

  // ----- The join -----

  /** A stat is related if it has an id and the shorter of the two ids runs along the longer one. */
  lemma RelatedIff(id: string, stat: Stat)
    ensures Related(id, stat) <==>
            var other := if stat.id != "" then stat.id else stat.container;
            other != "" && forall i | 0 <= i < |id| && i < |other| :: id[i] == other[i]
  {
  }

  /** A stat under the short form of an id is the one that is joined, unless an earlier one is related too. */
  lemma ShortIdJoins(id: string, n: nat, stats: seq<Stat>, k: nat)
    requires 0 < n <= |id| && k < |stats| && stats[k].id == id[..n]
    requires forall j | 0 <= j < k :: !Related(id, stats[j])
    ensures FirstRelated(id, stats) == stats[k]
  {
    hide FirstRelated;
    var j := FirstRelatedIsFirst(id, stats);
    assert Related(id, stats[k]);
  }

  // ----- The fields -----

  /** What a container shows besides its memory. */
  lemma ShownFields(record: Record, stat: Stat)
    requires BuildContainer(record, stat).Value?
    ensures var c := BuildContainer(record, stat).value;
            && c.usage.cpuPercent == stat.cpuPercent
            && c.health == record.health
            && record.restartCount == Some(c.restartCount)
            && c.service == (match record.service case Label(text) => Some(text) case _ => None)
            && c.status == (if record.status == "" then "unknown" else record.status)
  {
  }

  /** The name is the record's, the stat's when it has none, or else its id, without leading slashes. */
  lemma ShownName(record: Record, stat: Stat, slashes: string, name: string)
    requires BuildContainer(record, stat).Value?
    requires (forall c | c in slashes :: c == '/') && (name != "" ==> name[0] != '/')
    requires slashes + name == if record.name != "" then record.name
                               else if stat.name != "" then stat.name else record.id
    ensures BuildContainer(record, stat).value.name == name
  {
    assert AllOf(IsSlash, slashes) by {
      forall i | 0 <= i < |slashes| ensures slashes[i] == '/' { assert slashes[i] in slashes; }
    }
    RunOf(IsSlash, slashes, name);
  }

  lemma UsageSplits(stat: Stat, used: string, limit: string)
    requires (if stat.memUsage != "" then stat.memUsage else stat.memUsageLimit) == used + ("/" + limit)
    requires '/' !in used
    ensures UsedText(stat) == used && LimitText(stat) == Some(limit)
  {
    assert AllOf(IsNotSlash, used) by {
      forall i | 0 <= i < |used| ensures used[i] != '/' { assert used[i] in used; }
    }
    RunOf(IsNotSlash, used, "/" + limit);
    assert (used + ("/" + limit))[|used| + 1..] == limit;
  }

  /** Used memory and limit stand in front of and behind a slash, in the second of two columns if the first is empty;
      a limit that is no size or zero makes way for the configured one. */
  lemma ShownMemory(record: Record, stat: Stat, used: string, limit: string)
    requires (if stat.memUsage != "" then stat.memUsage else stat.memUsageLimit) == used + ("/" + limit)
    requires '/' !in used
    requires BuildContainer(record, stat).Value?
    ensures var c := BuildContainer(record, stat).value;
            && MemoryMb(used).Value? && MemoryMb(limit).Value?
            && c.usage.memoryUsedMb == (match MemoryMb(used).value case Some(mb) => mb case None => 0.0)
            && (MemoryMb(limit).value.Some? && MemoryMb(limit).value.value > 0.0 ==>
                  c.memoryLimitMb == MemoryMb(limit).value)
            && (MemoryMb(limit).value.None? || MemoryMb(limit).value.value <= 0.0 ==>
                  && MemoryMb(record.memory + "B").Value?
                  && c.memoryLimitMb == if MemoryMb(record.memory + "B").value == Some(0.0) then None
                                        else MemoryMb(record.memory + "B").value)
  {
    UsageSplits(stat, used, limit);
  }

  /** Without a slash it is all used memory, and the limit is the configured one. */
  lemma ShownMemoryAlone(record: Record, stat: Stat)
    requires BuildContainer(record, stat).Value?
    requires '/' !in (if stat.memUsage != "" then stat.memUsage else stat.memUsageLimit)
    ensures var used := if stat.memUsage != "" then stat.memUsage else stat.memUsageLimit;
            var c := BuildContainer(record, stat).value;
            && MemoryMb(used).Value? && MemoryMb(record.memory + "B").Value?
            && c.usage.memoryUsedMb == (match MemoryMb(used).value case Some(mb) => mb case None => 0.0)
            && c.memoryLimitMb == if MemoryMb(record.memory + "B").value == Some(0.0) then None
                                  else MemoryMb(record.memory + "B").value
  {
    var used := UsageText(stat);
    assert AllOf(IsNotSlash, used) by {
      forall i | 0 <= i < |used| ensures used[i] != '/' { assert used[i] in used; }
    }
    RunIs(IsNotSlash, used, |used|);
    assert used[..|used|] == used;
  }

  // ----- Whole projects -----

  /** Records are selected in their order. */
  lemma {:induction false} SelectedInOrder(a: seq<Record>, b: seq<Record>, project: string)
    ensures Selected(a + b, project) == Selected(a, project) + Selected(b, project)
  {
    if b == [] {
      assert a + b == a;
    } else {
      var n := |b| - 1;
      assert (a + b)[..|a + b| - 1] == a + b[..n];
      SelectedInOrder(a, b[..n], project);
    }
  }

  function CpuOf(records: seq<Record>, stats: seq<Stat>): seq<real> {
    seq(|records|, i requires 0 <= i < |records| => FirstRelated(records[i].id, stats).cpuPercent)
  }

  lemma {:induction false} BuiltCpu(built: seq<Container>, records: seq<Record>, stats: seq<Stat>)
    requires BuiltFrom(built, records, stats)
    ensures TotalCpu(built) == Sum(CpuOf(records, stats))
  {
    hide BuildJoined, FirstRelated;
    if built != [] {
      hide Sum, TotalCpu;
      var n := |built| - 1;
      assert built == built[..n] + [built[n]];
      CpuSnoc(built[..n], built[n]);
      BuiltCpu(built[..n], records[..n], stats);
      assert CpuOf(records, stats) == CpuOf(records[..n], stats) + [FirstRelated(records[n].id, stats).cpuPercent];
      SumSnoc(CpuOf(records[..n], stats), FirstRelated(records[n].id, stats).cpuPercent);
      JoinedCpu(records[n], stats, built[n]);
    }
  }

  lemma CpuSnoc(built: seq<Container>, c: Container)
    ensures TotalCpu(built + [c]) == TotalCpu(built) + c.usage.cpuPercent
  {
    assert (built + [c])[..|built|] == built;
  }

  lemma JoinedCpu(record: Record, stats: seq<Stat>, c: Container)
    requires BuildJoined(record, stats) == Value(c)
    ensures c.usage.cpuPercent == FirstRelated(record.id, stats).cpuPercent
  {
    ShownFields(record, FirstRelated(record.id, stats));
  }

  lemma SumSnoc(xs: seq<real>, x: real)
    ensures Sum(xs + [x]) == Sum(xs) + x
  {
    assert (xs + [x])[..|xs|] == xs;
  }

  /** The reported CPU use is within 0.005 of what the joined stats add up to. */
  lemma {:induction false} AggregateCpuBound(records: seq<Record>, stats: seq<Stat>, project: string)
    requires project != "" && ProjectContainers(records, stats, project).Value?
    ensures var cs := ProjectContainers(records, stats, project).value;
            Abs(AggregateResources(cs).cpuPercent - Sum(CpuOf(Selected(records, project), stats))) <= 0.005
  {
    hide ProjectContainers, AggregateResources, SortByName, Selected, CpuOf, Sum;
    hide TotalCpu, BuiltFrom, SortedByName, Abs;
    var built := ProjectShowsItsRecords(records, stats, project);
    BuiltCpu(built, Selected(records, project), stats);
    TotalsOfSort(built);
    RoundedCpu(ProjectContainers(records, stats, project).value);
  }

  lemma RoundedCpu(cs: seq<Container>)
    ensures Abs(AggregateResources(cs).cpuPercent - TotalCpu(cs)) <= 0.005
  {
    hide TotalCpu, Round2;
    RoundIsNearest(TotalCpu(cs), 0);
  }
}
