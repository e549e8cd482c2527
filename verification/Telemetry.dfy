/**
 Heartbeats as the collectors build them, and the events of the v2 protocol (agent/models.py:51-88,
 133-170). The heartbeat models are mutable objects; what goes over the wire are their values.
 */
module Telemetry {
  import opened Sequences

  datatype Deployment = Deployment(
    status: string, step: Option<string>, currentSha: Option<string>, previousSha: Option<string>,
    targetSha: Option<string>, deployedAt: Option<string>, startedAt: Option<string>,
    finishedAt: Option<string>, lastError: Option<string>, source: Option<string>)

  datatype Resources = Resources(cpuPercent: real, memoryUsedMb: real)

  datatype Container = Container(
    name: string, service: Option<string>, status: string, health: Option<string>,
    usage: Resources, memoryLimitMb: Option<real>, restartCount: int)

  /** The structural metadata of an instance. */
  datatype Metadata = Metadata(
    repository: Option<string>, branch: Option<string>, composeProject: Option<string>)

  datatype Instance = Instance(
    appId: string, metadata: Metadata, deployment: Deployment, resources: Resources,
    containers: seq<Container>)

  /** Host metrics are passed through untouched. */
  datatype Host = Host(hostname: string, metrics: seq<real>)

  datatype Heartbeat = Heartbeat(
    agentVersion: string, capabilities: seq<string>, host: Host, instances: seq<Instance>)

  // ----- Mutable heartbeat objects -----

  class ContainerTelemetry {
    const name: string
    var service: Option<string>
    var status: string
    var health: Option<string>
    var usage: Resources
    var memoryLimitMb: Option<real>
    var restartCount: int

    constructor (c: Container)
      ensures View() == c
    {
      name, service, status, health := c.name, c.service, c.status, c.health;
      usage, memoryLimitMb, restartCount := c.usage, c.memoryLimitMb, c.restartCount;
    }

    function View(): Container
      reads this
    {
      Container(name, service, status, health, usage, memoryLimitMb, restartCount)
    }
  }

  class DeploymentTelemetry {
    var status: string
    var step: Option<string>
    var currentSha: Option<string>
    var previousSha: Option<string>
    var targetSha: Option<string>
    var deployedAt: Option<string>
    var startedAt: Option<string>
    var finishedAt: Option<string>
    var lastError: Option<string>
    var source: Option<string>

    constructor (d: Deployment)
      ensures View() == d
    {
      status, step, currentSha, previousSha := d.status, d.step, d.currentSha, d.previousSha;
      targetSha, deployedAt, startedAt := d.targetSha, d.deployedAt, d.startedAt;
      finishedAt, lastError, source := d.finishedAt, d.lastError, d.source;
    }

    function View(): Deployment
      reads this
    {
      Deployment(status, step, currentSha, previousSha, targetSha, deployedAt, startedAt, finishedAt,
                 lastError, source)
    }
  }

  class InstanceResources {
    var cpuPercent: real
    var memoryUsedMb: real

    constructor (r: Resources)
      ensures View() == r
    {
      cpuPercent, memoryUsedMb := r.cpuPercent, r.memoryUsedMb;
    }

    function View(): Resources
      reads this
    {
      Resources(cpuPercent, memoryUsedMb)
    }
  }

  class InstanceTelemetry {
    const appId: string
    var metadata: Metadata
    var deployment: DeploymentTelemetry
    var resources: InstanceResources
    var containers: seq<ContainerTelemetry>

    constructor (appId: string, metadata: Metadata, deployment: DeploymentTelemetry,
                 resources: InstanceResources, containers: seq<ContainerTelemetry>)
      ensures this.appId == appId && this.metadata == metadata && this.deployment == deployment
      ensures this.resources == resources && this.containers == containers
    {
      this.appId, this.metadata, this.deployment := appId, metadata, deployment;
      this.resources, this.containers := resources, containers;
    }

    function View(): Instance
      reads this, deployment, resources, containers
    {
      Instance(appId, metadata, deployment.View(), resources.View(), Views(containers))
    }
  }

  function Views(containers: seq<ContainerTelemetry>): (r: seq<Container>)
    reads containers
    ensures |r| == |containers|
    ensures forall i | 0 <= i < |r| :: r[i] == containers[i].View()
  {
    if containers == [] then []
    else Views(containers[..|containers| - 1]) + [containers[|containers| - 1].View()]
  }

  class HeartbeatPayload {
    const agentVersion: string
    const capabilities: seq<string>
    var host: Host
    var instances: seq<InstanceTelemetry>

    constructor (agentVersion: string, capabilities: seq<string>, host: Host,
                 instances: seq<InstanceTelemetry>)
      ensures this.agentVersion == agentVersion && this.capabilities == capabilities
      ensures this.host == host && this.instances == instances
    {
      this.agentVersion, this.capabilities := agentVersion, capabilities;
      this.host, this.instances := host, instances;
    }

    function View(): Heartbeat
      reads this, instances, PartsOf(instances)
    {
      Heartbeat(agentVersion, capabilities, host, InstanceViews(instances))
    }
  }

  /** The objects that instances are made of. */
  function PartsOf(instances: seq<InstanceTelemetry>): set<object>
    reads instances
  {
    if instances == [] then {}
    else
      var last := instances[|instances| - 1];
      PartsOf(instances[..|instances| - 1]) + {last.deployment, last.resources} + set c | c in last.containers
  }

  function InstanceViews(instances: seq<InstanceTelemetry>): (r: seq<Instance>)
    reads instances, PartsOf(instances)
    ensures |r| == |instances|
  {
    if instances == [] then []
    else InstanceViews(instances[..|instances| - 1]) + [instances[|instances| - 1].View()]
  }

  lemma {:induction false} InstanceViewsAt(instances: seq<InstanceTelemetry>, k: nat)
    requires k < |instances|
    ensures InstanceViews(instances)[k] == instances[k].View()
  {
    if k < |instances| - 1 {
      InstanceViewsAt(instances[..|instances| - 1], k);
    }
  }

  /** Views depend on the heartbeat objects only. */
  twostate lemma {:induction false} InstanceViewsSame(instances: seq<InstanceTelemetry>)
    requires forall i | i in instances :: i.View() == old(i.View())
    ensures InstanceViews(instances) == old(InstanceViews(instances))
  {
    if instances != [] {
      InstanceViewsSame(instances[..|instances| - 1]);
      assert instances[|instances| - 1] in instances;
    }
  }

  // ----- Events -----

  datatype ContainerResource = ContainerResource(name: string, usage: Resources)

  datatype InstanceResource = InstanceResource(
    appId: string, resources: Resources, containers: seq<ContainerResource>)

  datatype Event =
    | NodeSnapshot(agentVersion: string, capabilities: seq<string>, host: Host, instances: seq<Instance>)
    | NodeTelemetry(host: Host, usage: seq<InstanceResource>)
    | InstanceChanged(instance: Instance)
    | DeploymentChanged(appId: string, deployment: Deployment)
    | ContainerChanged(appId: string, container: Container)

  // ----- Limits enforced when a payload is built -----

  predicate WireIdChar(c: char, first: bool) {
    'a' <= c <= 'z' || '0' <= c <= '9' || (!first && (c == '_' || c == '-'))
  }

  /** At most 120 characters of the lower-case identifier pattern. */
  predicate WireId(s: string) {
    1 <= |s| <= 120 && forall i | 0 <= i < |s| :: WireIdChar(s[i], i == 0)
  }

  predicate SnapshotFits(h: Heartbeat) {
    |h.capabilities| <= 16 && |h.instances| <= 100
  }

  predicate InstanceFits(i: Instance) {
    && WireId(i.appId) && |i.containers| <= 100
    && forall k | 0 <= k < |i.containers| :: 1 <= |i.containers[k].name| <= 255
  }

  predicate TelemetryFits(h: Heartbeat) {
    |h.instances| <= 100 && forall k | 0 <= k < |h.instances| :: InstanceFits(h.instances[k])
  }
}
