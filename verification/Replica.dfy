/**
 What a receiver can rebuild from the emitter's events: a snapshot replaces everything, a change
 event inserts or updates. The protocol does not say whether `instance.changed` updates only the
 metadata or replaces the whole instance, so the results hold for both readings.
 */
module Replica {
  import opened Sequences
  import opened Telemetry
  import opened Emitter

  datatype Reading = MetadataOnly | WholeInstance

  datatype App = App(
    metadata: Metadata, deployment: Option<Deployment>, containers: map<string, ContainerSignature>)

  type Apps = map<string, App>

  const BLANK := App(Metadata(None, None, None), None, map[])

  function Existing(r: Apps, appId: string): App {
    if appId in r then r[appId] else BLANK
  }

  function Shown(s: Signature): App {
    App(s.metadata, Some(s.deployment), s.containers)
  }

  /** The structural view of a full list of instances. */
  function StructuralView(instances: seq<Instance>): Apps {
    var m := Remembered(instances);
    map a | a in m :: Shown(m[a])
  }

  function Receive(r: Apps, e: Event, reading: Reading): Apps {
    match e
    case NodeSnapshot(_, _, _, instances) => StructuralView(instances)
    case NodeTelemetry(_, _) => r
    case InstanceChanged(i) =>
      if reading == WholeInstance then r[i.appId := Shown(SignatureOf(i))]
      else r[i.appId := Existing(r, i.appId).(metadata := i.metadata)]
    case DeploymentChanged(a, d) => r[a := Existing(r, a).(deployment := Some(d))]
    case ContainerChanged(a, c) =>
      r[a := Existing(r, a).(containers := Existing(r, a).containers[c.name := SignatureOfContainer(c)])]
  }

  function Fold(r: Apps, events: seq<Event>, reading: Reading): Apps {
    if events == [] then r
    else Receive(Fold(r, events[..|events| - 1], reading), events[|events| - 1], reading)
  }

  lemma {:induction false} FoldConcat(r: Apps, a: seq<Event>, b: seq<Event>, reading: Reading)
    ensures Fold(r, a + b, reading) == Fold(Fold(r, a, reading), b, reading)
  {
    if b == [] {
      assert a + b == a;
    } else {
      assert (a + b)[..|a + b| - 1] == a + b[..|b| - 1];
      FoldConcat(r, a, b[..|b| - 1], reading);
    }
  }

  // ----- Agreement -----

  /** The receiver knows at least what the emitter remembers of this app. */
  predicate Covers(app: App, s: Signature) {
    && app.metadata == s.metadata
    && app.deployment == Some(s.deployment)
    && forall n | n in s.containers :: n in app.containers && app.containers[n] == s.containers[n]
  }

  /** Same apps, equal metadata and deployment, equal signatures of every remembered container. */
  predicate Agrees(r: Apps, m: Memory) {
    r.Keys == m.Keys && forall a | a in m :: Covers(r[a], m[a])
  }

  /** The receiver shows what is remembered and nothing more. */
  predicate Exact(r: Apps, m: Memory) {
    r.Keys == m.Keys && forall a | a in m :: r[a] == Shown(m[a])
  }

  // ----- One instance -----

  lemma NamedHasName(cs: seq<Container>, n: string)
    requires n in Names(cs)
    ensures Named(cs, n).name == n
  {
    if cs[|cs| - 1].name != n {
      NamedHasName(cs[..|cs| - 1], n);
    }
  }

  /** The container signatures carried by the container events for `names`. */
  function Changed(previous: Option<Signature>, i: Instance, names: seq<string>): map<string, ContainerSignature>
    requires forall n | n in names :: n in Names(i.containers)
  {
    if names == [] then map[]
    else
      var front, name := Changed(previous, i, names[..|names| - 1]), names[|names| - 1];
      if Differs(previous, i, name) then front[name := SignatureOfContainer(Named(i.containers, name))] else front
  }

  lemma {:induction false} ChangedAt(previous: Option<Signature>, i: Instance, names: seq<string>, n: string)
    requires forall n | n in names :: n in Names(i.containers)
    ensures n in Changed(previous, i, names) <==> n in names && Differs(previous, i, n)
    ensures n in Changed(previous, i, names)
            ==> Changed(previous, i, names)[n] == SignatureOfContainer(Named(i.containers, n))
  {
    if names != [] {
      ChangedAt(previous, i, names[..|names| - 1], n);
      assert n in names <==> n in names[..|names| - 1] || n == names[|names| - 1];
    }
  }

  lemma FoldAppend(r: Apps, events: seq<Event>, e: Event, reading: Reading)
    ensures Fold(r, events + [e], reading) == Receive(Fold(r, events, reading), e, reading)
  {
    assert (events + [e])[..|events|] == events;
  }

  function Upsert(r: Apps, appId: string, changed: map<string, ContainerSignature>): Apps
    requires appId in r
  {
    r[appId := r[appId].(containers := r[appId].containers + changed)]
  }

  lemma UpsertOneMore(
    r: Apps, appId: string, changed: map<string, ContainerSignature>, name: string, s: ContainerSignature)
    requires appId in r
    ensures var u := Upsert(r, appId, changed);
            Upsert(r, appId, changed[name := s]) == u[appId := u[appId].(containers := u[appId].containers[name := s])]
  {
    assert r[appId].containers + changed[name := s] == (r[appId].containers + changed)[name := s];
  }

  lemma FoldNoContainers(r: Apps, previous: Option<Signature>, i: Instance, reading: Reading)
    requires i.appId in r
    ensures Fold(r, ContainerEvents(previous, i, []), reading) == Upsert(r, i.appId, Changed(previous, i, []))
  {
    assert r[i.appId].containers + map[] == r[i.appId].containers;
  }

  lemma ChangedOneMore(previous: Option<Signature>, i: Instance, names: seq<string>, k: nat)
    requires k < |names| && forall n | n in names :: n in Names(i.containers)
    ensures Changed(previous, i, names[..k + 1])
         == if Differs(previous, i, names[k])
            then Changed(previous, i, names[..k])[names[k] := SignatureOfContainer(Named(i.containers, names[k]))]
            else Changed(previous, i, names[..k])
  {
    hide Differs, Names, Named;
    assert names[..k + 1][..k] == names[..k];
  }

  /** The receiver's entry once the events of the first `k` names are in. */
  lemma {:induction false} FoldSomeContainers(
    r: Apps, previous: Option<Signature>, i: Instance, names: seq<string>, k: nat, reading: Reading)
    requires k <= |names| && forall n | n in names :: n in Names(i.containers)
    requires i.appId in r
    ensures Fold(r, ContainerEvents(previous, i, names[..k]), reading)
         == Upsert(r, i.appId, Changed(previous, i, names[..k]))
  {
    hide ContainerEvents, Changed, Differs, Upsert, SignatureOf, Names, Named, Fold;
    if k == 0 {
      FoldNoContainers(r, previous, i, reading);
      assert names[..0] == [];
    } else {
      var name := names[k - 1];
      FoldSomeContainers(r, previous, i, names, k - 1, reading);
      ContainerEventsSnoc(previous, i, names, k - 1);
      ChangedOneMore(previous, i, names, k - 1);
      var events, changed := ContainerEvents(previous, i, names[..k - 1]), Changed(previous, i, names[..k - 1]);
      var c := Named(i.containers, name);
      NamedHasName(i.containers, name);
      if Differs(previous, i, name) {
        FoldAppend(r, events, ContainerChanged(i.appId, c), reading);
        UpsertReceives(r, i.appId, changed, c, reading);
      } else {
        assert events + [] == events;
      }
    }
  }

  lemma UpsertReceives(
    r: Apps, appId: string, changed: map<string, ContainerSignature>, c: Container, reading: Reading)
    requires appId in r
    ensures Receive(Upsert(r, appId, changed), ContainerChanged(appId, c), reading)
         == Upsert(r, appId, changed[c.name := SignatureOfContainer(c)])
  {
    UpsertOneMore(r, appId, changed, c.name, SignatureOfContainer(c));
  }

  lemma FoldContainers(
    r: Apps, previous: Option<Signature>, i: Instance, names: seq<string>, reading: Reading)
    requires forall n | n in names :: n in Names(i.containers)
    requires i.appId in r
    ensures Fold(r, ContainerEvents(previous, i, names), reading) == Upsert(r, i.appId, Changed(previous, i, names))
  {
    FoldSomeContainers(r, previous, i, names, |names|, reading);
    assert names[..|names|] == names;
  }

  /** The receiver gets a whole instance and takes its containers from there. */
  predicate Replaces(previous: Option<Signature>, i: Instance, reading: Reading) {
    reading == WholeInstance && (previous.None? || previous.value.metadata != i.metadata)
  }

  /** No container that was remembered is left behind: all are still there, or they are replaced as a whole. */
  predicate Keeps(previous: Signature, i: Instance, reading: Reading) {
    previous.containers.Keys <= SignatureOf(i).containers.Keys || Replaces(Some(previous), i, reading)
  }

  /** The receiver's entry once the metadata and deployment events are in. */
  lemma FoldHead(r: Apps, previous: Option<Signature>, i: Instance, reading: Reading)
    requires previous.Some? <==> i.appId in r
    requires previous.Some? ==> Covers(r[i.appId], previous.value)
    ensures var r' := Fold(r, HeadEvents(previous, i), reading);
            && i.appId in r' && r' == r[i.appId := r'[i.appId]]
            && r'[i.appId].metadata == i.metadata && r'[i.appId].deployment == Some(i.deployment)
            && r'[i.appId].containers
               == if Replaces(previous, i, reading) then SignatureOf(i).containers else Existing(r, i.appId).containers
  {
    var a := if previous.None? || previous.value.metadata != i.metadata then [InstanceChanged(i)] else [];
    var b := if previous.None? || previous.value.deployment != i.deployment
             then [DeploymentChanged(i.appId, i.deployment)] else [];
    FoldConcat(r, a, b, reading);
    assert Fold(r, a, reading) == if a == [] then r else Receive(r, InstanceChanged(i), reading);
  }

  lemma FoldInstanceParts(r: Apps, previous: Option<Signature>, i: Instance, reading: Reading)
    requires i.appId in Fold(r, HeadEvents(previous, i), reading)
    ensures Fold(r, InstanceEvents(previous, i), reading)
         == Upsert(Fold(r, HeadEvents(previous, i), reading), i.appId, Changed(previous, i, Names(i.containers)))
  {
    var names := Names(i.containers);
    FoldContainers(Fold(r, HeadEvents(previous, i), reading), previous, i, names, reading);
    FoldConcat(r, HeadEvents(previous, i), ContainerEvents(previous, i, names), reading);
  }

  /** What was known of the app is exactly what was remembered, and nothing of it is left behind. */
  predicate ExactlyKept(r: Apps, previous: Option<Signature>, i: Instance, reading: Reading) {
    previous.Some? ==> i.appId in r && r[i.appId] == Shown(previous.value) && Keeps(previous.value, i, reading)
  }

  lemma FoldInstance(r: Apps, previous: Option<Signature>, i: Instance, reading: Reading) returns (app: App)
    requires previous.Some? <==> i.appId in r
    requires previous.Some? ==> Covers(r[i.appId], previous.value)
    ensures Fold(r, InstanceEvents(previous, i), reading) == r[i.appId := app]
    ensures Covers(app, SignatureOf(i))
    ensures ExactlyKept(r, previous, i, reading) ==> app == Shown(SignatureOf(i))
  {
    FoldHead(r, previous, i, reading);
    FoldInstanceParts(r, previous, i, reading);
    var r' := Fold(r, HeadEvents(previous, i), reading);
    InstanceCovered(Existing(r, i.appId), r'[i.appId], previous, i, reading);
    app := UpsertUpdated(r, r', i.appId, Changed(previous, i, Names(i.containers)));
  }

  lemma UpsertUpdated(r: Apps, r': Apps, a: string, changed: map<string, ContainerSignature>) returns (app: App)
    requires a in r' && r' == r[a := r'[a]]
    ensures Upsert(r', a, changed) == r[a := app]
    ensures app == r'[a].(containers := r'[a].containers + changed)
  {
    app := r'[a].(containers := r'[a].containers + changed);
  }

  lemma InstanceConverges(r: Apps, m: Memory, i: Instance, reading: Reading)
    requires Agrees(r, m)
    ensures Agrees(Fold(r, InstanceEvents(Lookup(m, i.appId), i), reading), m[i.appId := SignatureOf(i)])
    ensures Exact(r, m) && (i.appId in m ==> Keeps(m[i.appId], i, reading))
            ==> Exact(Fold(r, InstanceEvents(Lookup(m, i.appId), i), reading), m[i.appId := SignatureOf(i)])
  {
    var app := FoldInstance(r, Lookup(m, i.appId), i, reading);
  }

  lemma InstanceCovered(before: App, head: App, previous: Option<Signature>, i: Instance, reading: Reading)
    requires previous.Some? ==> Covers(before, previous.value)
    requires previous.None? ==> before == BLANK
    requires head.metadata == i.metadata && head.deployment == Some(i.deployment)
    requires head.containers == if Replaces(previous, i, reading) then SignatureOf(i).containers else before.containers
    ensures var app := head.(containers := head.containers + Changed(previous, i, Names(i.containers)));
            && Covers(app, SignatureOf(i))
            && ((previous.Some? ==> before == Shown(previous.value) && Keeps(previous.value, i, reading))
                ==> app == Shown(SignatureOf(i)))
  {
    var current := SignatureOf(i).containers;
    var all := head.containers + Changed(previous, i, Names(i.containers));
    forall n
      ensures n in current ==> n in all && all[n] == current[n]
      ensures n in all ==> n in current || n in head.containers
    {
      ChangedAt(previous, i, Names(i.containers), n);
    }
    if previous.Some? ==> before == Shown(previous.value) && Keeps(previous.value, i, reading) {
      assert head.containers.Keys <= current.Keys;
      assert all.Keys == current.Keys;
      assert all == current;
    }
  }

  // ----- One batch -----

  /** No app disappears, and no container of an app that is still there, unless the receiver replaces them all. */
  predicate NothingVanishes(m: Memory, instances: seq<Instance>, reading: Reading) {
    && (forall a | a in m :: a in Remembered(instances))
    && ContainersKept(m, instances, reading)
  }

  predicate ContainersKept(m: Memory, instances: seq<Instance>, reading: Reading) {
    instances != [] ==>
      var front, last := instances[..|instances| - 1], instances[|instances| - 1];
      var m' := Updated(m, front);
      && ContainersKept(m, front, reading)
      && (last.appId in m' ==> Keeps(m'[last.appId], last, reading))
  }

  lemma {:induction false} BatchConverges(r: Apps, m: Memory, instances: seq<Instance>, reading: Reading)
    requires Agrees(r, m)
    ensures Agrees(Fold(r, ChangeEvents(m, instances), reading), Updated(m, instances))
    ensures Exact(r, m) && ContainersKept(m, instances, reading)
            ==> Exact(Fold(r, ChangeEvents(m, instances), reading), Updated(m, instances))
  {
    if instances != [] {
      var front, last := instances[..|instances| - 1], instances[|instances| - 1];
      BatchConverges(r, m, front, reading);
      var m' := Updated(m, front);
      InstanceConverges(Fold(r, ChangeEvents(m, front), reading), m', last, reading);
      FoldConcat(r, ChangeEvents(m, front), InstanceEvents(Lookup(m', last.appId), last), reading);
    }
  }

  lemma {:induction false} UpdatedCoversAll(m: Memory, instances: seq<Instance>)
    ensures Updated(m, instances) == m + Remembered(instances)
  {
    if instances != [] {
      UpdatedCoversAll(m, instances[..|instances| - 1]);
    }
  }

  // ----- Every sequence of calls -----

  datatype Call = TakeSnapshot(h: Heartbeat) | TakeChanges(h: Heartbeat)

  function MemoryAfter(m: Memory, call: Call): Memory {
    match call
    case TakeSnapshot(h) => Remembered(h.instances)
    case TakeChanges(h) => Updated(m, h.instances)
  }

  function EventsOf(m: Memory, call: Call): seq<Event> {
    match call
    case TakeSnapshot(h) => [SnapshotEvent(h)]
    case TakeChanges(h) => Batch(m, h)
  }

  /** The emitter's memory after `calls`, starting from a fresh emitter. */
  function MemoryOf(calls: seq<Call>): Memory {
    if calls == [] then map[] else MemoryAfter(MemoryOf(calls[..|calls| - 1]), calls[|calls| - 1])
  }

  /** All events of `calls`, starting from a fresh emitter. */
  function Stream(calls: seq<Call>): seq<Event> {
    if calls == [] then []
    else
      var front := calls[..|calls| - 1];
      Stream(front) + EventsOf(MemoryOf(front), calls[|calls| - 1])
  }

  lemma SnapshotIsExact(r: Apps, h: Heartbeat, reading: Reading)
    ensures Fold(r, [SnapshotEvent(h)], reading) == StructuralView(h.instances)
    ensures Exact(StructuralView(h.instances), Remembered(h.instances))
  {
    assert Fold(r, [SnapshotEvent(h)], reading) == Receive(Fold(r, [], reading), SnapshotEvent(h), reading);
  }

  lemma BatchFold(r: Apps, m: Memory, h: Heartbeat, reading: Reading)
    ensures Fold(r, Batch(m, h), reading) == Fold(r, ChangeEvents(m, h.instances), reading)
  {
    FoldConcat(r, [TelemetryEvent(h)], ChangeEvents(m, h.instances), reading);
    assert Fold(r, [TelemetryEvent(h)], reading) == Receive(Fold(r, [], reading), TelemetryEvent(h), reading);
  }

  lemma ChangesConverge(r: Apps, m: Memory, h: Heartbeat, reading: Reading)
    requires Agrees(r, m)
    ensures Agrees(Fold(r, Batch(m, h), reading), Updated(m, h.instances))
    ensures Exact(r, m) && NothingVanishes(m, h.instances, reading)
            ==> Fold(r, Batch(m, h), reading) == StructuralView(h.instances)
                && Exact(Fold(r, Batch(m, h), reading), Updated(m, h.instances))
  {
    BatchFold(r, m, h, reading);
    BatchConverges(r, m, h.instances, reading);
    if Exact(r, m) && NothingVanishes(m, h.instances, reading) {
      UpdatedIsRemembered(m, h.instances);
      ExactIsView(Fold(r, Batch(m, h), reading), h.instances);
    }
  }

  lemma UpdatedIsRemembered(m: Memory, instances: seq<Instance>)
    requires forall a | a in m :: a in Remembered(instances)
    ensures Updated(m, instances) == Remembered(instances)
  {
    UpdatedCoversAll(m, instances);
  }

  lemma ExactIsView(r: Apps, instances: seq<Instance>)
    requires Exact(r, Remembered(instances))
    ensures r == StructuralView(instances)
  {
  }

  lemma CallConverges(r: Apps, m: Memory, call: Call, reading: Reading)
    requires call.TakeSnapshot? || Agrees(r, m)
    ensures Agrees(Fold(r, EventsOf(m, call), reading), MemoryAfter(m, call))
    ensures call.TakeSnapshot? || (Exact(r, m) && NothingVanishes(m, call.h.instances, reading))
            ==> Fold(r, EventsOf(m, call), reading) == StructuralView(call.h.instances)
                && Exact(Fold(r, EventsOf(m, call), reading), MemoryAfter(m, call))
  {
    match call
    case TakeSnapshot(h) => SnapshotIsExact(r, h, reading);
    case TakeChanges(h) => ChangesConverge(r, m, h, reading);
  }

  /** After any run of calls that starts with a snapshot, whatever the receiver held before, its
      replica agrees with the emitter's memory; apps and containers may vanish and return. */
  lemma {:induction false} DeltaConvergence(r: Apps, calls: seq<Call>, reading: Reading)
    requires calls != [] && calls[0].TakeSnapshot?
    ensures Agrees(Fold(r, Stream(calls), reading), MemoryOf(calls))
    decreases |calls|
  {
    var front, last := calls[..|calls| - 1], calls[|calls| - 1];
    if front != [] {
      DeltaConvergence(r, front, reading);
    }
    CallConverges(Fold(r, Stream(front), reading), MemoryOf(front), last, reading);
    FoldConcat(r, Stream(front), EventsOf(MemoryOf(front), last), reading);
  }

  /** No call since the latest snapshot missed an app or container that was remembered. */
  predicate NothingVanished(calls: seq<Call>, reading: Reading)
    requires calls != []
  {
    var front, last := calls[..|calls| - 1], calls[|calls| - 1];
    || last.TakeSnapshot?
    || (front != [] && NothingVanished(front, reading)
        && NothingVanishes(MemoryOf(front), last.h.instances, reading))
  }

  /** If nothing vanished, the deltas rebuild exactly what a snapshot of the latest heartbeat shows. */
  lemma {:induction false} DeltaEqualsSnapshot(r: Apps, calls: seq<Call>, reading: Reading)
    requires calls != [] && NothingVanished(calls, reading)
    ensures Fold(r, Stream(calls), reading) == StructuralView(calls[|calls| - 1].h.instances)
    ensures Exact(Fold(r, Stream(calls), reading), MemoryOf(calls))
    decreases |calls|
  {
    var front, last := calls[..|calls| - 1], calls[|calls| - 1];
    if last.TakeChanges? {
      DeltaEqualsSnapshot(r, front, reading);
    }
    CallConverges(Fold(r, Stream(front), reading), MemoryOf(front), last, reading);
    FoldConcat(r, Stream(front), EventsOf(MemoryOf(front), last), reading);
  }

  /** Intermediate heartbeats may be skipped: only the latest one determines the replica. */
  lemma {:induction false} SkippedHeartbeatsDoNotMatter(r: Apps, a: seq<Call>, b: seq<Call>, reading: Reading)
    requires a != [] && b != [] && NothingVanished(a, reading) && NothingVanished(b, reading)
    requires a[|a| - 1].h.instances == b[|b| - 1].h.instances
    ensures Fold(r, Stream(a), reading) == Fold(r, Stream(b), reading)
  {
    DeltaEqualsSnapshot(r, a, reading);
    DeltaEqualsSnapshot(r, b, reading);
  }
}
