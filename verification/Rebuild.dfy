/**
 A telemetry frame lists every app and container with its resource use, a change event carries the rest.
 Together they lose nothing: what the replica holds and the latest telemetry frame give back the whole
 list of instances, even when apps or containers vanished and the replica still holds them.
 */
module Rebuild {
  import opened Telemetry
  import opened Emitter
  import opened Replica
  import opened EmitterTheorems

  /** A snapshot carries the heartbeat with every field, a telemetry frame the host and an entry for each instance. */
  lemma FramesCarryTheHeartbeat(h: Heartbeat)
    ensures var e := SnapshotEvent(h);
            e.NodeSnapshot? && Heartbeat(e.agentVersion, e.capabilities, e.host, e.instances) == h
    ensures var e := TelemetryEvent(h);
            && e.NodeTelemetry? && e.host == h.host && |e.usage| == |h.instances|
            && forall k | 0 <= k < |h.instances| ::
                 var i, u := h.instances[k], e.usage[k];
                 && u.appId == i.appId && u.resources == i.resources && |u.containers| == |i.containers|
                 && forall j | 0 <= j < |i.containers| ::
                      u.containers[j] == ContainerResource(i.containers[j].name, i.containers[j].usage)
  {
  }

  /** The replica has an entry for everything the telemetry lists. */
  predicate Known(r: Apps, usage: seq<InstanceResource>) {
    forall k | 0 <= k < |usage| :: KnownInstance(r, usage[k])
  }

  predicate KnownInstance(r: Apps, u: InstanceResource) {
    && u.appId in r && r[u.appId].deployment.Some?
    && forall j | 0 <= j < |u.containers| :: u.containers[j].name in r[u.appId].containers
  }

  function RebuiltContainer(s: ContainerSignature, c: ContainerResource): Container {
    Container(c.name, s.service, s.status, s.health, c.usage, s.memoryLimitMb, s.restartCount)
  }

  function RebuiltInstance(r: Apps, u: InstanceResource): Instance
    requires KnownInstance(r, u)
  {
    var app := r[u.appId];
    Instance(u.appId, app.metadata, app.deployment.value, u.resources,
             seq(|u.containers|, j requires 0 <= j < |u.containers| =>
               RebuiltContainer(app.containers[u.containers[j].name], u.containers[j])))
  }

  function Rebuilt(r: Apps, usage: seq<InstanceResource>): seq<Instance>
    requires Known(r, usage)
  {
    seq(|usage|, k requires 0 <= k < |usage| => RebuiltInstance(r, usage[k]))
  }

  /** Containers listed under one name look the same. */
  predicate SameNamesAgree(cs: seq<Container>) {
    forall j, k | 0 <= j < |cs| && 0 <= k < |cs| && cs[j].name == cs[k].name ::
      SignatureOfContainer(cs[j]) == SignatureOfContainer(cs[k])
  }

  lemma {:induction false} NamedIsOneOf(cs: seq<Container>, j: nat)
    requires j < |cs|
    ensures cs[j].name in Names(cs)
    ensures exists k :: 0 <= k < |cs| && cs[k] == Named(cs, cs[j].name) && cs[k].name == cs[j].name
  {
    var n := |cs| - 1;
    if cs[n].name != cs[j].name {
      NamedIsOneOf(cs[..n], j);
      var k :| 0 <= k < n && cs[..n][k] == Named(cs[..n], cs[j].name) && cs[..n][k].name == cs[j].name;
      assert cs[k] == Named(cs, cs[j].name);
    } else {
      assert cs[n] == Named(cs, cs[j].name);
    }
  }

  lemma ContainerIsRebuilt(app: App, i: Instance, j: nat)
    requires Covers(app, SignatureOf(i)) && SameNamesAgree(i.containers) && j < |i.containers|
    ensures var c := i.containers[j];
            c.name in app.containers
            && RebuiltContainer(app.containers[c.name], ContainerResource(c.name, c.usage)) == c
  {
    NamedIsOneOf(i.containers, j);
    assert i.containers[j].name in SignatureOf(i).containers;
  }

  lemma InstanceIsRebuilt(r: Apps, i: Instance)
    requires i.appId in r && Covers(r[i.appId], SignatureOf(i)) && SameNamesAgree(i.containers)
    ensures KnownInstance(r, UsageOf(i)) && RebuiltInstance(r, UsageOf(i)) == i
  {
    forall j | 0 <= j < |i.containers|
      ensures i.containers[j].name in r[i.appId].containers
      ensures RebuiltContainer(r[i.appId].containers[i.containers[j].name],
                               ContainerResource(i.containers[j].name, i.containers[j].usage)) == i.containers[j]
    {
      ContainerIsRebuilt(r[i.appId], i, j);
    }
  }

  lemma MemoryShowsLatest(calls: seq<Call>, k: nat)
    requires calls != [] && k < |calls[|calls| - 1].h.instances|
    requires DuplicatesAgree(calls[|calls| - 1].h.instances)
    ensures var i := calls[|calls| - 1].h.instances[k];
            i.appId in MemoryOf(calls) && MemoryOf(calls)[i.appId] == SignatureOf(i)
  {
    var last := calls[|calls| - 1];
    AgreeingIsRemembered(last.h.instances, k);
    if last.TakeChanges? {
      UpdatedCoversAll(MemoryOf(calls[..|calls| - 1]), last.h.instances);
    }
  }

  /** After any run that starts with a snapshot, the replica and the telemetry frame of the latest heartbeat
      give back its instances with every field, in order, whatever vanished on the way. */
  lemma {:induction false} TelemetryRebuildsHeartbeat(r: Apps, calls: seq<Call>, reading: Reading)
    requires calls != [] && calls[0].TakeSnapshot?
    requires DuplicatesAgree(calls[|calls| - 1].h.instances)
    requires forall i | i in calls[|calls| - 1].h.instances :: SameNamesAgree(i.containers)
    ensures var h := calls[|calls| - 1].h;
            var replica := Fold(r, Stream(calls), reading);
            && Known(replica, TelemetryEvent(h).usage) && Rebuilt(replica, TelemetryEvent(h).usage) == h.instances
            && TelemetryEvent(h).host == h.host
  {
    var h := calls[|calls| - 1].h;
    var replica := Fold(r, Stream(calls), reading);
    DeltaConvergence(r, calls, reading);
    forall k | 0 <= k < |h.instances|
      ensures KnownInstance(replica, UsageOf(h.instances[k]))
      ensures RebuiltInstance(replica, UsageOf(h.instances[k])) == h.instances[k]
    {
      MemoryShowsLatest(calls, k);
      InstanceIsRebuilt(replica, h.instances[k]);
    }
  }
}
