/**
 `AgentEventEmitter` (agent/events.py:20-124): the class, and the functions on values it computes.
 */
module Emitter {
  import opened Sequences
  import opened Telemetry

  // ----- Signatures -----

  /** What of a container is structural; CPU and memory use are telemetry. */
  datatype ContainerSignature = ContainerSignature(
    service: Option<string>, status: string, health: Option<string>,
    memoryLimitMb: Option<real>, restartCount: int)

  datatype Signature = Signature(
    metadata: Metadata, deployment: Deployment, containers: map<string, ContainerSignature>)

  /** The remembered instances, by app id. */
  type Memory = map<string, Signature>

  function SignatureOfContainer(c: Container): ContainerSignature {
    ContainerSignature(c.service, c.status, c.health, c.memoryLimitMb, c.restartCount)
  }

  /** The keys of a dictionary filled from `cs`: each name where it first occurs. */
  function Names(cs: seq<Container>): (r: seq<string>)
    ensures forall n | n in r :: exists k :: 0 <= k < |cs| && cs[k].name == n
  {
    if cs == [] then []
    else
      var front, last := Names(cs[..|cs| - 1]), cs[|cs| - 1];
      if last.name in front then front else front + [last.name]
  }

  /** The value of a dictionary filled from `cs`: the last container of that name. */
  function Named(cs: seq<Container>, name: string): Container
    requires name in Names(cs)
  {
    var last := cs[|cs| - 1];
    if last.name == name then last else Named(cs[..|cs| - 1], name)
  }

  function SignatureOf(i: Instance): Signature {
    Signature(i.metadata, i.deployment,
              map n | n in Names(i.containers) :: SignatureOfContainer(Named(i.containers, n)))
  }

  function Remembered(instances: seq<Instance>): Memory {
    if instances == [] then map[]
    else
      var last := instances[|instances| - 1];
      Remembered(instances[..|instances| - 1])[last.appId := SignatureOf(last)]
  }

  // ----- Events -----

  function SnapshotEvent(h: Heartbeat): Event {
    NodeSnapshot(h.agentVersion, h.capabilities, h.host, h.instances)
  }

  function TelemetryEvent(h: Heartbeat): Event {
    NodeTelemetry(h.host, seq(|h.instances|, k requires 0 <= k < |h.instances| => UsageOf(h.instances[k])))
  }

  function UsageOf(i: Instance): InstanceResource {
    InstanceResource(i.appId, i.resources,
      seq(|i.containers|, k requires 0 <= k < |i.containers| =>
        ContainerResource(i.containers[k].name, i.containers[k].usage)))
  }

  predicate Differs(previous: Option<Signature>, i: Instance, name: string)
    requires name in Names(i.containers)
  {
    previous.None? || name !in previous.value.containers
    || previous.value.containers[name] != SignatureOfContainer(Named(i.containers, name))
  }

  function ContainerEvents(previous: Option<Signature>, i: Instance, names: seq<string>): seq<Event>
    requires forall n | n in names :: n in Names(i.containers)
  {
    if names == [] then []
    else
      var name := names[|names| - 1];
      ContainerEvents(previous, i, names[..|names| - 1])
      + (if Differs(previous, i, name) then [ContainerChanged(i.appId, Named(i.containers, name))] else [])
  }

  lemma ContainerEventsStart(previous: Option<Signature>, i: Instance)
    ensures ContainerEvents(previous, i, []) == []
  {
  }

  lemma ContainerEventsSnoc(previous: Option<Signature>, i: Instance, names: seq<string>, k: nat)
    requires k < |names| && forall n | n in names :: n in Names(i.containers)
    ensures ContainerEvents(previous, i, names[..k + 1])
         == ContainerEvents(previous, i, names[..k])
            + (if Differs(previous, i, names[k]) then [ContainerChanged(i.appId, Named(i.containers, names[k]))]
               else [])
  {
    hide Differs, Names, Named;
    assert names[..k + 1][..k] == names[..k];
  }

  lemma SignatureOfNamed(i: Instance, n: string)
    requires n in Names(i.containers)
    ensures n in SignatureOf(i).containers
    ensures SignatureOf(i).containers[n] == SignatureOfContainer(Named(i.containers, n))
  {
  }

  function HeadEvents(previous: Option<Signature>, i: Instance): seq<Event> {
    (if previous.None? || previous.value.metadata != i.metadata then [InstanceChanged(i)] else [])
    + (if previous.None? || previous.value.deployment != i.deployment
       then [DeploymentChanged(i.appId, i.deployment)] else [])
  }

  function InstanceEvents(previous: Option<Signature>, i: Instance): seq<Event> {
    HeadEvents(previous, i) + ContainerEvents(previous, i, Names(i.containers))
  }

  function Lookup(m: Memory, appId: string): Option<Signature> {
    if appId in m then Some(m[appId]) else None
  }

  /** The memory once `instances` were compared, in order. */
  function Updated(m: Memory, instances: seq<Instance>): Memory {
    if instances == [] then m
    else
      var last := instances[|instances| - 1];
      Updated(m, instances[..|instances| - 1])[last.appId := SignatureOf(last)]
  }

  /** The change events for `instances`, each compared with what is remembered by then. */
  function ChangeEvents(m: Memory, instances: seq<Instance>): seq<Event> {
    if instances == [] then []
    else
      var front, last := instances[..|instances| - 1], instances[|instances| - 1];
      ChangeEvents(m, front) + InstanceEvents(Lookup(Updated(m, front), last.appId), last)
  }

  function Batch(m: Memory, h: Heartbeat): seq<Event> {
    [TelemetryEvent(h)] + ChangeEvents(m, h.instances)
  }

  lemma RememberedSnoc(instances: seq<Instance>, k: nat)
    requires k < |instances|
    ensures Remembered(instances[..k + 1])
         == Remembered(instances[..k])[instances[k].appId := SignatureOf(instances[k])]
  {
    PrefixSnoc(instances, k);
  }

  lemma ChangesSnoc(m: Memory, instances: seq<Instance>, k: nat)
    requires k < |instances|
    ensures var i, before := instances[k], Updated(m, instances[..k]);
            && Updated(m, instances[..k + 1]) == before[i.appId := SignatureOf(i)]
            && ChangeEvents(m, instances[..k + 1])
               == ChangeEvents(m, instances[..k]) + InstanceEvents(Lookup(before, i.appId), i)
  {
    PrefixSnoc(instances, k);
  }

  lemma PrefixSnoc<T>(s: seq<T>, k: nat)
    requires k < |s|
    ensures s[..k + 1] == s[..k] + [s[k]] && s[..k + 1][..k] == s[..k]
  {
  }

  // ----- The class -----

  /** A remembered instance; the container objects are kept, but never compared. */
  datatype Entry = Entry(signature: Signature, containersByName: map<string, ContainerTelemetry>)

  datatype Emission<+T> = Emitted(value: T) | Rejected

  function Signatures(entries: map<string, Entry>): Memory {
    map a | a in entries :: entries[a].signature
  }

  lemma SignaturesPut(entries: map<string, Entry>, a: string, e: Entry)
    ensures Signatures(entries[a := e]) == Signatures(entries)[a := e.signature]
  {
  }

  class AgentEventEmitter {
    const nodeId: string
    var instances: map<string, Entry>

    constructor (nodeId: string)
      ensures Compared() == map[] && this.nodeId == nodeId
    {
      this.nodeId := nodeId;
      instances := map[];
    }

    /** What later heartbeats are compared with. It reads no heartbeat object. */
    ghost function Compared(): Memory
      reads this
    {
      Signatures(instances)
    }

    method Snapshot(h: HeartbeatPayload) returns (r: Emission<Event>)
      modifies this
      ensures Compared() == Remembered(h.View().instances)
      ensures r == if WireId(nodeId) && SnapshotFits(h.View()) then Emitted(SnapshotEvent(h.View())) else Rejected
      ensures r.Rejected? <==> !WireId(nodeId) || |h.capabilities| > 16 || |h.instances| > 100
    {
      Remember(h);
      var frame := SnapshotEvent(h.View());
      if |h.capabilities| > 16 || |h.instances| > 100 || !WireId(nodeId) {
        return Rejected;
      }
      return Emitted(frame);
    }

    method Remember(h: HeartbeatPayload)
      modifies this
      ensures Compared() == Remembered(h.View().instances)
    {
      var remembered := EntriesOf(h.instances);
      label compared:
      instances := remembered;
      InstanceViewsSame@compared(h.instances);
    }

    /** The dictionary comprehension over the instances. */
    static method EntriesOf(instances: seq<InstanceTelemetry>) returns (entries: map<string, Entry>)
      ensures Signatures(entries) == Remembered(InstanceViews(instances))
    {
      hide SignatureOf;
      entries := map[];
      ghost var views := InstanceViews(instances);
      for k := 0 to |instances|
        invariant Signatures(entries) == Remembered(views[..k])
      {
        var entry := SignatureOfInstance(instances[k]);
        InstanceViewsSame(instances);
        InstanceViewsAt(instances, k);
        RememberedSnoc(views, k);
        SignaturesPut(entries, instances[k].appId, entry);
        entries := entries[instances[k].appId := entry];
      }
      assert views[..|views|] == views;
      InstanceViewsSame(instances);
    }

    /** The `containers_by_name` dictionary. */
    static method ContainersByName(containers: seq<ContainerTelemetry>)
      returns (byName: map<string, ContainerTelemetry>)
      ensures forall n :: n in byName <==> n in Names(Views(containers))
      ensures forall n | n in byName :: byName[n].View() == Named(Views(containers), n)
    {
      byName := map[];
      ghost var cs := Views(containers);
      for k := 0 to |containers|
        invariant forall n :: n in byName <==> n in Names(cs[..k])
        invariant forall n | n in byName :: byName[n].View() == Named(cs[..k], n)
      {
        PrefixSnoc(cs, k);
        byName := byName[containers[k].name := containers[k]];
      }
      assert cs[..|cs|] == cs;
    }

    static method SignatureOfInstance(instance: InstanceTelemetry) returns (entry: Entry)
      ensures entry.signature == SignatureOf(instance.View())
      ensures forall n | n in Names(instance.View().containers) ::
                && n in entry.containersByName && n in entry.signature.containers
                && entry.containersByName[n].View() == Named(instance.View().containers, n)
    {
      hide SignatureOfContainer, Named, Names;
      var byName := ContainersByName(instance.containers);
      var containers := map n | n in byName :: SignatureOfContainer(byName[n].View());
      assert containers == SignatureOf(instance.View()).containers;
      entry := Entry(Signature(instance.metadata, instance.deployment.View(), containers), byName);
    }

    method ChangesAndTelemetry(h: HeartbeatPayload) returns (r: Emission<seq<Event>>)
      modifies this
      ensures WireId(nodeId) && TelemetryFits(h.View()) ==>
                && r == Emitted(Batch(old(Compared()), h.View()))
                && Compared() == Updated(old(Compared()), h.View().instances)
      ensures !(WireId(nodeId) && TelemetryFits(h.View())) ==> r == Rejected && instances == old(instances)
    {
      var view := h.View();
      if !WireId(nodeId) || !TelemetryFits(view) {
        return Rejected;
      }
      var changes := CompareInstances(h);
      InstanceViewsSame(h.instances);
      return Emitted([TelemetryEvent(view)] + changes);
    }

    method CompareInstances(h: HeartbeatPayload) returns (events: seq<Event>)
      modifies this
      ensures events == ChangeEvents(old(Compared()), h.View().instances)
      ensures Compared() == Updated(old(Compared()), h.View().instances)
    {
      hide InstanceEvents, SignatureOf, Lookup;
      events := [];
      ghost var before := Compared();
      ghost var views := InstanceViews(h.instances);
      for k := 0 to |h.instances|
        invariant events == ChangeEvents(before, views[..k])
        invariant Compared() == Updated(before, views[..k])
      {
        InstanceViewsSame(h.instances);
        InstanceViewsAt(h.instances, k);
        var changes := CompareInstance(h.instances[k]);
        ChangesSnoc(before, views, k);
        events := events + changes;
      }
      InstanceViewsSame(h.instances);
      assert views[..|views|] == views;
    }

    method CompareInstance(instance: InstanceTelemetry) returns (events: seq<Event>)
      modifies this
      ensures events == InstanceEvents(Lookup(old(Compared()), instance.appId), old(instance.View()))
      ensures Compared() == old(Compared())[instance.appId := SignatureOf(old(instance.View()))]
    {
      var appId := instance.appId;
      var previous := if appId in instances then Some(instances[appId].signature) else None;
      var current;
      current, events := Compare(previous, instance);
      SignaturesPut(instances, appId, current);
      instances := instances[appId := current];
    }

    static method Compare(previous: Option<Signature>, instance: InstanceTelemetry)
      returns (current: Entry, events: seq<Event>)
      ensures current.signature == SignatureOf(instance.View())
      ensures events == InstanceEvents(previous, instance.View())
    {
      hide ContainerEvents, Names, Named;
      current := SignatureOfInstance(instance);
      events := [];
      if previous.None? || previous.value.metadata != current.signature.metadata {
        events := events + [InstanceChanged(instance.View())];
      }
      if previous.None? || previous.value.deployment != current.signature.deployment {
        events := events + [DeploymentChanged(instance.appId, instance.deployment.View())];
      }
      assert events == HeadEvents(previous, instance.View());
      var changes := CompareContainers(previous, instance, current);
      events := events + changes;
    }

    static method CompareContainers(previous: Option<Signature>, instance: InstanceTelemetry, current: Entry)
      returns (events: seq<Event>)
      requires current.signature == SignatureOf(instance.View())
      requires forall n | n in Names(instance.View().containers) ::
                 && n in current.containersByName
                 && current.containersByName[n].View() == Named(instance.View().containers, n)
      ensures events == ContainerEvents(previous, instance.View(), Names(instance.View().containers))
    {
      var previousContainers := if previous.Some? then previous.value.containers else map[];
      hide SignatureOf, Names, Named, ContainerEvents;
      var names := Names(instance.View().containers);
      ghost var view := instance.View();
      events := [];
      ContainerEventsStart(previous, view);
      for k := 0 to |names|
        invariant events == ContainerEvents(previous, view, names[..k])
      {
        var name := names[k];
        ContainerEventsSnoc(previous, view, names, k);
        SignatureOfNamed(view, name);
        if name !in previousContainers || previousContainers[name] != current.signature.containers[name] {
          events := events + [ContainerChanged(instance.appId, current.containersByName[name].View())];
        }
      }
      assert names[..|names|] == names;
    }
  }
}
