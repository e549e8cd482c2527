/** When the emitter speaks, when it stays quiet, and why it cannot be fooled by aliasing. */
module EmitterTheorems {
  import opened Alphabets
  import opened Sequences
  import opened Telemetry
  import opened Emitter
  import opened Replica

  // ----- What can be sent at all -----

  /** Identifiers on the wire: 1 to 120 small letters, digits, underscores and dashes, the first one a letter or
      digit. */
  lemma WireIdLetters(s: string)
    ensures WireId(s) <==> 1 <= |s| <= 120 && s[0] in SMALL + DIGITS && forall c | c in s :: c in SMALL + DIGITS + "_-"
  {
    forall c, first ensures WireIdChar(c, first) <==> c in SMALL + DIGITS || (!first && c in "_-") {
      SmallLetters(c);
      TenDigits(c);
    }
    forall i | 0 <= i < |s| ensures s[i] in s {}
  }

  /** A telemetry frame is built if and only if there are at most 100 instances, each with an identifier for a name
      and at most 100 containers with names of 1 to 255 characters. */
  lemma TelemetryFitsIff(h: Heartbeat)
    ensures TelemetryFits(h) <==>
            && |h.instances| <= 100
            && forall i | i in h.instances ::
                 && WireId(i.appId) && |i.containers| <= 100
                 && forall c | c in i.containers :: c.name != "" && |c.name| <= 255
  {
    hide WireId;
    forall i | i in h.instances
      ensures InstanceFits(i) <==> WireId(i.appId) && |i.containers| <= 100
                                   && forall c | c in i.containers :: c.name != "" && |c.name| <= 255
    {
      forall k | 0 <= k < |i.containers| ensures i.containers[k] in i.containers {}
    }
    forall k | 0 <= k < |h.instances| ensures h.instances[k] in h.instances {}
  }

  predicate DistinctApps(instances: seq<Instance>) {
    forall i, k | 0 <= i < k < |instances| :: instances[i].appId != instances[k].appId
  }

  // ----- Exactly which events a batch holds -----

  /** The change of instance `i` against memory `m` that event `e` reports. */
  predicate Warranted(m: Memory, i: Instance, e: Event) {
    var previous := Lookup(m, i.appId);
    match e
    case InstanceChanged(x) =>
      x == i && (previous.None? || previous.value.metadata != i.metadata)
    case DeploymentChanged(a, d) =>
      a == i.appId && d == i.deployment && (previous.None? || previous.value.deployment != d)
    case ContainerChanged(a, c) =>
      a == i.appId && c.name in Names(i.containers) && c == Named(i.containers, c.name)
      && Differs(previous, i, c.name)
    case _ => false
  }

  lemma {:induction false} ContainerEventsExactly(
    previous: Option<Signature>, i: Instance, names: seq<string>, e: Event)
    requires forall n | n in names :: n in Names(i.containers)
    ensures e in ContainerEvents(previous, i, names)
        <==> e.ContainerChanged? && e.appId == i.appId && e.container.name in names
             && e.container == Named(i.containers, e.container.name)
             && Differs(previous, i, e.container.name)
  {
    if names != [] {
      var name := names[|names| - 1];
      ContainerEventsExactly(previous, i, names[..|names| - 1], e);
      NamedHasName(i.containers, name);
      assert forall n :: n in names <==> n in names[..|names| - 1] || n == name;
    }
  }

  lemma UpdatedElsewhere(m: Memory, instances: seq<Instance>, a: string)
    requires forall i | i in instances :: i.appId != a
    ensures Lookup(Updated(m, instances), a) == Lookup(m, a)
  {
    if instances != [] {
      UpdatedElsewhere(m, instances[..|instances| - 1], a);
      assert instances[|instances| - 1] in instances;
    }
  }

  /** With distinct app ids, a batch holds exactly the events warranted by a difference between the
      heartbeat and what was remembered before it. */
  lemma {:induction false} BatchIsMinimal(m: Memory, instances: seq<Instance>, e: Event)
    requires DistinctApps(instances)
    ensures e in ChangeEvents(m, instances) <==> exists i :: i in instances && Warranted(m, i, e)
  {
    if instances != [] {
      var front, last := instances[..|instances| - 1], instances[|instances| - 1];
      BatchIsMinimal(m, front, e);
      UpdatedElsewhere(m, front, last.appId);
      InstanceIsMinimal(Lookup(m, last.appId), m, last, e);
      assert forall i :: i in instances <==> i in front || i == last;
    }
  }

  lemma InstanceIsMinimal(previous: Option<Signature>, m: Memory, i: Instance, e: Event)
    requires previous == Lookup(m, i.appId)
    ensures e in InstanceEvents(previous, i) <==> Warranted(m, i, e)
  {
    ContainerEventsExactly(previous, i, Names(i.containers), e);
  }

  // ----- No event twice -----

  lemma {:induction false} NamesDistinct(cs: seq<Container>)
    ensures Distinct(Names(cs))
  {
    if cs != [] {
      NamesDistinct(cs[..|cs| - 1]);
    }
  }

  lemma {:induction false} ContainerEventsDistinct(previous: Option<Signature>, i: Instance, names: seq<string>)
    requires Distinct(names) && forall n | n in names :: n in Names(i.containers)
    ensures Distinct(ContainerEvents(previous, i, names))
  {
    if names != [] {
      var front, name := names[..|names| - 1], names[|names| - 1];
      ContainerEventsDistinct(previous, i, front);
      NamedHasName(i.containers, name);
      assert name !in front;
      var e := ContainerChanged(i.appId, Named(i.containers, name));
      ContainerEventsExactly(previous, i, front, e);
      DistinctAppend(ContainerEvents(previous, i, front), e);
    }
  }

  lemma DistinctAppend<T>(s: seq<T>, x: T)
    requires Distinct(s)
    ensures x !in s ==> Distinct(s + [x])
  {
  }

  lemma DistinctConcat<T>(s: seq<T>, t: seq<T>)
    requires Distinct(s) && Distinct(t) && forall x | x in s :: x !in t
    ensures Distinct(s + t)
  {
    forall i, j | 0 <= i < j < |s + t| ensures (s + t)[i] != (s + t)[j] {
      if i < |s| <= j {
        assert s[i] in s && t[j - |s|] in t;
      }
    }
  }

  lemma InstanceEventsDistinct(previous: Option<Signature>, i: Instance)
    ensures Distinct(InstanceEvents(previous, i))
  {
    hide ContainerEvents, Names, Named, Differs;
    NamesDistinct(i.containers);
    ContainerEventsDistinct(previous, i, Names(i.containers));
    forall e | e in HeadEvents(previous, i) ensures e !in ContainerEvents(previous, i, Names(i.containers)) {
      ContainerEventsExactly(previous, i, Names(i.containers), e);
    }
    DistinctConcat(HeadEvents(previous, i), ContainerEvents(previous, i, Names(i.containers)));
  }

  /** With distinct app ids no batch repeats an event, so each warranted event is in it exactly once. */
  lemma {:induction false} BatchRepeatsNothing(m: Memory, instances: seq<Instance>)
    requires DistinctApps(instances)
    ensures Distinct(ChangeEvents(m, instances))
  {
    if instances != [] {
      var front, last := instances[..|instances| - 1], instances[|instances| - 1];
      var previous := Lookup(Updated(m, front), last.appId);
      BatchRepeatsNothing(m, front);
      InstanceEventsDistinct(previous, last);
      UpdatedElsewhere(m, front, last.appId);
      forall e | e in ChangeEvents(m, front) ensures e !in InstanceEvents(previous, last) {
        BatchIsMinimal(m, front, e);
        InstanceIsMinimal(previous, m, last, e);
      }
      DistinctConcat(ChangeEvents(m, front), InstanceEvents(previous, last));
    }
  }

  /** Heartbeats that differ only in resource use, or in host metrics, yield telemetry alone. */
  lemma ResourceNoiseIsOnlyTelemetry(h: Heartbeat, h': Heartbeat)
    requires DistinctApps(h.instances) && |h.instances| == |h'.instances|
    requires forall k | 0 <= k < |h.instances| ::
               && h.instances[k].appId == h'.instances[k].appId
               && SignatureOf(h.instances[k]) == SignatureOf(h'.instances[k])
    ensures Batch(Remembered(h.instances), h') == [TelemetryEvent(h')]
  {
    var m := Remembered(h.instances);
    forall e ensures e !in ChangeEvents(m, h'.instances) {
      BatchIsMinimal(m, h'.instances, e);
      forall i | i in h'.instances ensures !Warranted(m, i, e) {
        var k :| 0 <= k < |h'.instances| && h'.instances[k] == i;
        RememberedDistinct(h.instances, k);
        SameSignatureIsQuiet(i, e, m);
      }
    }
    if ChangeEvents(m, h'.instances) != [] {
      assert ChangeEvents(m, h'.instances)[0] in ChangeEvents(m, h'.instances);
    }
  }

  lemma SameSignatureIsQuiet(i: Instance, e: Event, m: Memory)
    requires i.appId in m && m[i.appId] == SignatureOf(i)
    ensures !Warranted(m, i, e)
  {
  }

  lemma {:induction false} RememberedDistinct(instances: seq<Instance>, k: nat)
    requires DistinctApps(instances) && k < |instances|
    ensures instances[k].appId in Remembered(instances)
         && Remembered(instances)[instances[k].appId] == SignatureOf(instances[k])
  {
    if k < |instances| - 1 {
      RememberedDistinct(instances[..|instances| - 1], k);
    }
  }

  // ----- Duplicated app ids -----

  /** Instances listed under one app id look the same. */
  predicate DuplicatesAgree(instances: seq<Instance>) {
    forall i, k | 0 <= i < |instances| && 0 <= k < |instances| && instances[i].appId == instances[k].appId ::
      SignatureOf(instances[i]) == SignatureOf(instances[k])
  }

  predicate Below(s: Signature, t: Signature) {
    && s.metadata == t.metadata && s.deployment == t.deployment
    && forall n | n in s.containers :: n in t.containers && s.containers[n] == t.containers[n]
  }

  lemma QuietInstance(previous: Option<Signature>, i: Instance)
    ensures InstanceEvents(previous, i) == [] <==> previous.Some? && Below(SignatureOf(i), previous.value)
  {
    var names := Names(i.containers);
    var events := ContainerEvents(previous, i, names);
    if events != [] {
      ContainerEventsExactly(previous, i, names, events[0]);
    }
    forall n | n in names && Differs(previous, i, n) ensures events != [] {
      NamedHasName(i.containers, n);
      ContainerEventsExactly(previous, i, names, ContainerChanged(i.appId, Named(i.containers, n)));
    }
  }

  /** While nothing is reported, what is remembered of an app only shrinks. */
  lemma {:induction false} QuietDescends(m: Memory, instances: seq<Instance>, k: nat, a: string)
    requires ChangeEvents(m, instances) == [] && a in m && k <= |instances|
    ensures a in Updated(m, instances) && a in Updated(m, instances[..k])
    ensures Below(Updated(m, instances)[a], Updated(m, instances[..k])[a])
    decreases |instances|
  {
    if k == |instances| {
      assert instances[..k] == instances;
      UpdatedCoversAll(m, instances);
    } else {
      var front, last := instances[..|instances| - 1], instances[|instances| - 1];
      QuietDescends(m, front, k, a);
      assert front[..k] == instances[..k];
      QuietInstance(Lookup(Updated(m, front), last.appId), last);
    }
  }

  lemma {:induction false} RememberedLast(instances: seq<Instance>, k: nat)
    requires k < |instances|
    ensures instances[k].appId in Remembered(instances)
    ensures exists j :: k <= j < |instances| && instances[j].appId == instances[k].appId
                        && Remembered(instances)[instances[k].appId] == SignatureOf(instances[j])
  {
    if k < |instances| - 1 {
      RememberedLast(instances[..|instances| - 1], k);
    }
  }

  /** On a quiet repeat, what is remembered cannot have changed on the way either. */
  lemma QuietRepeatIsConstant(m: Memory, instances: seq<Instance>, k: nat)
    requires ChangeEvents(m, instances) == [] && Updated(m, instances) == m && k < |instances|
    requires instances[k].appId in m
    ensures SignatureOf(instances[k]) == m[instances[k].appId]
  {
    var a := instances[k].appId;
    QuietDescends(m, instances, k + 1, a);
    ChangesSnoc(m, instances, k);
    QuietPrefix(m, instances, k + 1);
    QuietDescends(m, instances[..k + 1], 0, a);
    assert instances[..k + 1][..0] == [];
    BelowBothWays(SignatureOf(instances[k]), m[a]);
  }

  lemma BelowBothWays(s: Signature, t: Signature)
    requires Below(s, t) && Below(t, s)
    ensures s == t
  {
    assert s.containers == t.containers;
  }

  /** Sending the same heartbeat again is quiet exactly when duplicated app ids agree: otherwise the
      emitter reports the same changes on every cycle. */
  lemma RepeatIsQuietIffDuplicatesAgree(h: Heartbeat)
    ensures Batch(Remembered(h.instances), h) == [TelemetryEvent(h)] <==> DuplicatesAgree(h.instances)
  {
    var instances, m := h.instances, Remembered(h.instances);
    if DuplicatesAgree(instances) {
      AgreeingRepeat(m, instances, instances);
    }
    if ChangeEvents(m, instances) == [] {
      UpdatedCoversAll(m, instances);
      forall k | 0 <= k < |instances|
        ensures instances[k].appId in m && SignatureOf(instances[k]) == m[instances[k].appId]
      {
        RememberedLast(instances, k);
        QuietRepeatIsConstant(m, instances, k);
      }
    }
  }

  lemma {:induction false} QuietPrefix(m: Memory, instances: seq<Instance>, k: nat)
    requires ChangeEvents(m, instances) == [] && k <= |instances|
    ensures ChangeEvents(m, instances[..k]) == []
  {
    if k == |instances| {
      assert instances[..k] == instances;
    } else {
      QuietPrefix(m, instances[..|instances| - 1], k);
      assert instances[..|instances| - 1][..k] == instances[..k];
    }
  }

  lemma {:induction false} AgreeingRepeat(m: Memory, all: seq<Instance>, instances: seq<Instance>)
    requires DuplicatesAgree(all) && m == Remembered(all) && instances <= all
    ensures ChangeEvents(m, instances) == [] && Updated(m, instances) == m
  {
    hide SignatureOf, InstanceEvents, Remembered, DuplicatesAgree;
    if instances != [] {
      var n := |instances| - 1;
      AgreeingRepeat(m, all, instances[..n]);
      AgreeingIsRemembered(all, n);
      QuietAgain(instances[n]);
      assert m[instances[n].appId := SignatureOf(instances[n])] == m;
    }
  }

  lemma QuietAgain(i: Instance)
    ensures InstanceEvents(Some(SignatureOf(i)), i) == []
  {
    QuietInstance(Some(SignatureOf(i)), i);
  }

  lemma AgreeingIsRemembered(instances: seq<Instance>, k: nat)
    requires DuplicatesAgree(instances) && k < |instances|
    ensures Lookup(Remembered(instances), instances[k].appId) == Some(SignatureOf(instances[k]))
  {
    RememberedLast(instances, k);
  }

  // ----- Vanished apps and containers -----

  lemma {:induction false} NoSnapshots(m: Memory, instances: seq<Instance>, e: Event)
    requires e in ChangeEvents(m, instances)
    ensures !e.NodeSnapshot?
  {
    var front, last := instances[..|instances| - 1], instances[|instances| - 1];
    if e in ChangeEvents(m, front) {
      NoSnapshots(m, front, e);
    } else {
      ContainerEventsExactly(Lookup(Updated(m, front), last.appId), last, Names(last.containers), e);
    }
  }

  /** The event replaces or drops no container of the app. */
  predicate OnlyAdds(e: Event, a: string, reading: Reading) {
    !e.NodeSnapshot? && (e.InstanceChanged? && e.instance.appId == a ==> reading == MetadataOnly)
  }

  lemma {:induction false} ContainersAccumulate(r: Apps, events: seq<Event>, a: string, reading: Reading)
    requires a in r && forall e | e in events :: OnlyAdds(e, a, reading)
    ensures var r' := Fold(r, events, reading);
            a in r' && r[a].containers.Keys <= r'[a].containers.Keys
  {
    if events != [] {
      ContainersAccumulate(r, events[..|events| - 1], a, reading);
      assert OnlyAdds(events[|events| - 1], a, reading);
    }
  }

  lemma {:induction false} KeptIfCovered(m: Memory, instances: seq<Instance>, reading: Reading)
    requires DistinctApps(instances)
    requires forall i | i in instances && i.appId in m :: Keeps(m[i.appId], i, reading)
    ensures ContainersKept(m, instances, reading)
  {
    if instances != [] {
      var front, last := instances[..|instances| - 1], instances[|instances| - 1];
      KeptIfCovered(m, front, reading);
      UpdatedElsewhere(m, front, last.appId);
      assert last in instances;
    }
  }

  /** An instance that is not replaced as a whole gets no event that drops containers. */
  lemma EventsOnlyAdd(m: Memory, instances: seq<Instance>, i: Instance, e: Event, reading: Reading)
    requires DistinctApps(instances) && i in instances && i.appId in m
    requires !Replaces(Some(m[i.appId]), i, reading) && e in ChangeEvents(m, instances)
    ensures OnlyAdds(e, i.appId, reading)
  {
    NoSnapshots(m, instances, e);
    BatchIsMinimal(m, instances, e);
    var j :| j in instances && Warranted(m, j, e);
    var x :| 0 <= x < |instances| && instances[x] == i;
    var y :| 0 <= y < |instances| && instances[y] == j;
  }

  /** A container that is gone and not replaced stays with the receiver. */
  lemma ExactKeeps(r: Apps, m: Memory, h: Heartbeat, i: Instance, reading: Reading)
    requires Exact(r, m) && DistinctApps(h.instances) && i in h.instances && i.appId in m
    requires Fold(r, Batch(m, h), reading) == StructuralView(h.instances)
    ensures Keeps(m[i.appId], i, reading)
  {
    if !Replaces(Some(m[i.appId]), i, reading) {
      var k :| 0 <= k < |h.instances| && h.instances[k] == i;
      RememberedDistinct(h.instances, k);
      BatchFold(r, m, h, reading);
      forall e | e in ChangeEvents(m, h.instances) ensures OnlyAdds(e, i.appId, reading) {
        EventsOnlyAdd(m, h.instances, i, e, reading);
      }
      ContainersAccumulate(r, ChangeEvents(m, h.instances), i.appId, reading);
    }
  }

  /** Deltas carry no removals: after one batch a receiver shows exactly the heartbeat if and only if no app
      vanished from it, and no container, except with new metadata for a receiver that replaces instances. */
  lemma ExactIffNothingVanished(r: Apps, m: Memory, h: Heartbeat, reading: Reading)
    requires Exact(r, m) && DistinctApps(h.instances)
    ensures Fold(r, Batch(m, h), reading) == StructuralView(h.instances)
        <==> NothingVanishes(m, h.instances, reading)
  {
    ChangesConverge(r, m, h, reading);
    UpdatedCoversAll(m, h.instances);
    var r' := Fold(r, Batch(m, h), reading);
    if r' == StructuralView(h.instances) {
      assert r'.Keys == Remembered(h.instances).Keys;
      forall i | i in h.instances && i.appId in m ensures Keeps(m[i.appId], i, reading) {
        ExactKeeps(r, m, h, i, reading);
      }
      KeptIfCovered(m, h.instances, reading);
    }
  }

  // ----- Aliasing -----

  /** Whatever is changed in the heartbeat objects, or in any others, the emitter's memory stays as it is. */
  twostate lemma MemoryIsItsOwn(emitter: AgentEventEmitter)
    requires unchanged(emitter)
    ensures emitter.Compared() == old(emitter.Compared())
  {
  }

  /** What a caller that reuses its objects may set in place. */
  datatype Changes = Changes(health: Option<string>, usage: Resources, status: string, metadata: Metadata,
                             containers: seq<ContainerTelemetry>, instances: seq<InstanceTelemetry>)

  /** Containers, deployment, resources and lists change in place after a snapshot. */
  method MutateAfterSnapshot(emitter: AgentEventEmitter, h: HeartbeatPayload, i: InstanceTelemetry,
                             c: ContainerTelemetry, to: Changes)
    modifies emitter, h, i, i.deployment, i.resources, c
    ensures emitter.Compared() == Remembered(old(h.View()).instances)
    ensures c.health == to.health && i.deployment.status == to.status && i.metadata == to.metadata
    ensures i.containers == to.containers && h.instances == to.instances
  {
    var snapshot := emitter.Snapshot(h);
    InstanceViewsSame(h.instances);
    label remembered:
    c.health, c.usage := to.health, to.usage;
    i.deployment.status, i.resources.cpuPercent := to.status, to.usage.cpuPercent;
    i.metadata, i.containers := to.metadata, to.containers;
    h.instances := to.instances;
    MemoryIsItsOwn@remembered(emitter);
  }

  /** Changes made in place after a heartbeat was remembered are seen as changes: the emitter compares with
      the values it had then. */
  method ReportsInPlaceMutation(emitter: AgentEventEmitter, h: HeartbeatPayload, i: InstanceTelemetry,
                                c: ContainerTelemetry, to: Changes)
    returns (r: Emission<seq<Event>>)
    requires WireId(emitter.nodeId)
    modifies emitter, h, i, i.deployment, i.resources, c
    ensures TelemetryFits(h.View()) ==>
              r == Emitted(Batch(Remembered(old(h.View()).instances), h.View()))
  {
    hide Remembered, ChangeEvents, Batch, Updated, Signatures, TelemetryFits, WireId;
    MutateAfterSnapshot(emitter, h, i, c, to);
    label mutated:
    r := emitter.ChangesAndTelemetry(h);
    InstanceViewsSame@mutated(h.instances);
  }

  // ----- Inputs that fail -----

  function Version(branch: string, containers: seq<Container>): Instance {
    Instance("crm", Metadata(None, Some(branch), None),
             Deployment("healthy", None, None, None, None, None, None, None, None, None),
             Resources(0.0, 0.0), containers)
  }

  /** Two instances under one id that differ: repeating the heartbeat reports both of them again. */
  lemma DuplicatesAreNeverQuiet()
    ensures var a, b := Version("main", []), Version("next", []);
            var m := Remembered([a, b]);
            && !DuplicatesAgree([a, b]) && Updated(m, [a, b]) == m
            && InstanceChanged(a) in ChangeEvents(m, [a, b]) && InstanceChanged(b) in ChangeEvents(m, [a, b])
  {
    var a, b := Version("main", []), Version("next", []);
    assert "main"[0] != "next"[0];
    assert a.metadata != b.metadata && [a, b][0] == a && [a, b][1] == b;
    assert [a, b][..1] == [a] && [a][..0] == [];
    var m := Remembered([a, b]);
    UpdatedCoversAll(m, [a, b]);
    assert Lookup(m, "crm") == Some(SignatureOf(b));
    assert InstanceChanged(a) in InstanceEvents(Some(SignatureOf(b)), a);
    assert InstanceChanged(b) in InstanceEvents(Some(SignatureOf(a)), b);
    var previous := Updated(m, [a]);
    assert Lookup(previous, "crm") == Some(SignatureOf(a));
  }

  /** A container that vanishes is not reported: the batch is telemetry alone, and the receiver keeps it. */
  lemma VanishedContainerIsNotReported(c: Container, reading: Reading)
    ensures var was, now := Version("main", [c]), Version("main", []);
            var r := StructuralView([was]);
            && ChangeEvents(Remembered([was]), [now]) == []
            && Fold(r, ChangeEvents(Remembered([was]), [now]), reading) == r != StructuralView([now])
  {
    var was, now := Version("main", [c]), Version("main", []);
    assert [was][..0] == [] && [now][..0] == [] && [c][..0] == [];
    assert Remembered([was])["crm"] == SignatureOf(was) && Remembered([now])["crm"] == SignatureOf(now);
    assert c.name in Names([c]);
    assert c.name in SignatureOf(was).containers && c.name !in SignatureOf(now).containers;
    assert InstanceEvents(Some(SignatureOf(was)), now) == [];
    assert c.name in StructuralView([was])["crm"].containers;
    assert c.name !in StructuralView([now])["crm"].containers;
  }
}
