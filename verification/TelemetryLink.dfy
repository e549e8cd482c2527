/**
 The telemetry cycle on one socket after another (agent/client/realtime.py:163-178, 220-231): each
 connection starts with a fresh emitter and a full snapshot, batches are sent frame by frame, and
 any send may break the socket in the middle of a batch.
 */
module TelemetryLink {
  import opened Sequences
  import opened Telemetry
  import opened Emitter
  import opened Replica

  /** The send of frame number `at` of a batch raised, though the frame may have crossed all the
      same; past the end of the batch, the connection broke later in the cycle. */
  datatype Break = Break(at: nat, delivered: bool)

  /** One cycle: whether collecting raised, what was collected and when, whether a send broke, and whether
      a snapshot.request arrived afterwards. */
  datatype Cycle = Cycle(raises: bool, h: Heartbeat, now: real, broken: Option<Break>, requested: bool)

  datatype Settings = Settings(nodeId: string, snapshotInterval: real)

  /** What a connection keeps between cycles, the frames that reached the socket, and whether it lives. */
  datatype Link = Link(
    memory: Memory, lastSnapshotAt: real, snapshotRequested: bool, frames: seq<Event>, alive: bool)

  const CONNECTED := Link(map[], 0.0, true, [], true)

  predicate SnapshotDue(l: Link, c: Cycle, s: Settings) {
    l.snapshotRequested || c.now - l.lastSnapshotAt >= s.snapshotInterval
  }

  function CallOf(l: Link, c: Cycle, s: Settings): Call {
    if SnapshotDue(l, c, s) then TakeSnapshot(c.h) else TakeChanges(c.h)
  }

  predicate Accepted(call: Call, s: Settings) {
    WireId(s.nodeId) && if call.TakeSnapshot? then SnapshotFits(call.h) else TelemetryFits(call.h)
  }

  /** The frames of a batch that reach the socket. */
  function Delivered(batch: seq<Event>, broken: Option<Break>): seq<Event> {
    match broken
    case None => batch
    case Some(Break(at, delivered)) =>
      var n := if delivered then at + 1 else at;
      if n <= |batch| then batch[..n] else batch
  }

  function ServeCycle(l: Link, c: Cycle, s: Settings): Link {
    var call := CallOf(l, c, s);
    if !l.alive then l
    else if c.raises || !Accepted(call, s) then l.(alive := false)
    else
      Link(MemoryAfter(l.memory, call),
           if SnapshotDue(l, c, s) then c.now else l.lastSnapshotAt,
           c.requested,
           l.frames + Delivered(EventsOf(l.memory, call), c.broken),
           c.broken.None?)
  }

  function Serve(cycles: seq<Cycle>, s: Settings): Link {
    if cycles == [] then CONNECTED
    else ServeCycle(Serve(cycles[..|cycles| - 1], s), cycles[|cycles| - 1], s)
  }

  // ----- Guarantees -----

  /** On every socket the first frame of the telemetry cycle that gets through is a full snapshot. */
  lemma {:induction false} FirstFrameIsSnapshot(cycles: seq<Cycle>, s: Settings)
    ensures Serve(cycles, s).frames != [] ==> Serve(cycles, s).frames[0].NodeSnapshot?
    ensures cycles != [] && Serve(cycles, s).alive ==> Serve(cycles, s).frames != []
    ensures Serve(cycles, s).alive && Serve(cycles, s).frames == [] ==> Serve(cycles, s).snapshotRequested
  {
    if cycles != [] {
      FirstFrameIsSnapshot(cycles[..|cycles| - 1], s);
    }
  }

  /** Whatever the receiver held when the socket opened, after every completed cycle its replica
      agrees with the emitter. */
  lemma {:induction false} SocketAgrees(r: Apps, cycles: seq<Cycle>, s: Settings, reading: Reading)
    requires cycles != [] && Serve(cycles, s).alive
    ensures Agrees(Fold(r, Serve(cycles, s).frames, reading), Serve(cycles, s).memory)
    decreases |cycles|
  {
    var front, c := cycles[..|cycles| - 1], cycles[|cycles| - 1];
    var l := Serve(front, s);
    if front != [] {
      SocketAgrees(r, front, s, reading);
    }
    var call := CallOf(l, c, s);
    CallConverges(Fold(r, l.frames, reading), l.memory, call, reading);
    FoldConcat(r, l.frames, EventsOf(l.memory, call), reading);
  }

  /** Everything that got through on a series of sockets, broken batches included. */
  function AllFrames(sockets: seq<seq<Cycle>>, s: Settings): seq<Event> {
    if sockets == [] then []
    else AllFrames(sockets[..|sockets| - 1], s) + Serve(sockets[|sockets| - 1], s).frames
  }

  /** A receiver that keeps its replica across connections is back in agreement after the first
      cycle of the next socket, however the earlier ones broke, and stays so at each later cycle. */
  lemma {:induction false} ConnectionRecovery(
    r: Apps, sockets: seq<seq<Cycle>>, current: seq<Cycle>, s: Settings, reading: Reading)
    requires current != [] && Serve(current, s).alive
    ensures Agrees(Fold(r, AllFrames(sockets, s) + Serve(current, s).frames, reading), Serve(current, s).memory)
  {
    FoldConcat(r, AllFrames(sockets, s), Serve(current, s).frames, reading);
    SocketAgrees(Fold(r, AllFrames(sockets, s), reading), current, s, reading);
  }

  /** The first frame alone restores exactness: it shows that cycle's heartbeat and nothing else,
      even when the socket breaks right behind it. */
  lemma {:induction false} FirstFrameRestores(
    r: Apps, sockets: seq<seq<Cycle>>, first: Cycle, s: Settings, reading: Reading)
    requires Serve([first], s).frames != []
    ensures Fold(r, AllFrames(sockets, s) + Serve([first], s).frames, reading) == StructuralView(first.h.instances)
  {
    var was := Fold(r, AllFrames(sockets, s), reading);
    assert [first][..0] == [];
    assert Serve([first], s) == ServeCycle(CONNECTED, first, s);
    assert Serve([first], s).frames == [SnapshotEvent(first.h)];
    FoldConcat(r, AllFrames(sockets, s), [SnapshotEvent(first.h)], reading);
    SnapshotIsExact(was, first.h, reading);
  }

  /** Cycle `k` of `cycles` sent a full snapshot. */
  predicate TookSnapshot(cycles: seq<Cycle>, k: nat, s: Settings)
    requires k < |cycles|
  {
    SnapshotDue(Serve(cycles[..k], s), cycles[k], s)
  }

  /** Cycle `i` sent a snapshot and no request arrived in the cycles from `i` up to `n`. */
  predicate SnapshotHolds(cycles: seq<Cycle>, i: nat, n: nat, s: Settings)
    requires n <= |cycles|
  {
    i < n && TookSnapshot(cycles, i, s) && forall j | i <= j < n :: !cycles[j].requested
  }

  lemma SnapshotHoldsLonger(cycles: seq<Cycle>, i: nat, n: nat, s: Settings)
    requires n < |cycles| && SnapshotHolds(cycles[..n], i, n, s) && !cycles[n].requested
    ensures SnapshotHolds(cycles, i, n + 1, s) && cycles[..n][i] == cycles[i]
  {
    assert cycles[..n][..i] == cycles[..i];
    assert forall j | i <= j < n :: cycles[..n][j] == cycles[j];
  }

  lemma {:induction false} LastSnapshot(cycles: seq<Cycle>, s: Settings) returns (i: nat)
    requires cycles != [] && Serve(cycles, s).alive && !Serve(cycles, s).snapshotRequested
    ensures SnapshotHolds(cycles, i, |cycles|, s) && Serve(cycles, s).lastSnapshotAt == cycles[i].now
    decreases |cycles|
  {
    var n := |cycles| - 1;
    if TookSnapshot(cycles, n, s) {
      i := n;
    } else {
      FirstFrameIsSnapshot(cycles[..n], s);
      i := LastSnapshot(cycles[..n], s);
      SnapshotHoldsLonger(cycles, i, n, s);
      assert cycles == cycles[..n + 1];
    }
  }

  /** Deltas are sent only within the snapshot interval of a snapshot on the same socket, and only
      while no snapshot request has arrived since. */
  lemma DeltasAreRecent(cycles: seq<Cycle>, s: Settings, k: nat)
    requires k < |cycles| && Serve(cycles[..k], s).alive && !TookSnapshot(cycles, k, s)
    ensures exists i :: 0 <= i < k && TookSnapshot(cycles, i, s)
                        && cycles[k].now - cycles[i].now < s.snapshotInterval
                        && forall j | i <= j < k :: !cycles[j].requested
  {
    FirstFrameIsSnapshot(cycles[..k], s);
    var i := LastSnapshot(cycles[..k], s);
    assert cycles[..k][..i] == cycles[..i] && cycles[..k][i] == cycles[i];
    assert forall j | i <= j < k :: cycles[..k][j] == cycles[j];
    assert TookSnapshot(cycles, i, s);
  }

  /** `i` is the latest cycle before `k` that sent a snapshot, and no request arrived since. */
  predicate LatestSnapshot(cycles: seq<Cycle>, i: nat, k: nat, s: Settings)
    requires k <= |cycles|
  {
    SnapshotHolds(cycles, i, k, s) && forall j | i < j < k :: !TookSnapshot(cycles, j, s)
  }

  lemma {:induction false} SinceSnapshot(cycles: seq<Cycle>, i: nat, k: nat, s: Settings)
    requires k <= |cycles| && Serve(cycles[..k], s).alive && LatestSnapshot(cycles, i, k, s)
    ensures Serve(cycles[..k], s).lastSnapshotAt == cycles[i].now && !Serve(cycles[..k], s).snapshotRequested
    decreases k
  {
    hide ServeCycle, SnapshotDue;
    ServedUpTo(cycles, k - 1, s);
    AfterCycle(Serve(cycles[..k - 1], s), cycles[k - 1], s);
    if i < k - 1 {
      assert !TookSnapshot(cycles, k - 1, s);
      SinceSnapshot(cycles, i, k - 1, s);
    }
  }

  lemma ServedUpTo(cycles: seq<Cycle>, k: nat, s: Settings)
    requires k < |cycles|
    ensures Serve(cycles[..k + 1], s) == ServeCycle(Serve(cycles[..k], s), cycles[k], s)
  {
    assert cycles[..k + 1][..k] == cycles[..k];
  }

  lemma AfterCycle(l: Link, c: Cycle, s: Settings)
    requires ServeCycle(l, c, s).alive
    ensures var next := ServeCycle(l, c, s);
            && l.alive && next.snapshotRequested == c.requested
            && next.lastSnapshotAt == if SnapshotDue(l, c, s) then c.now else l.lastSnapshotAt
  {
  }

  lemma LatestOfSome(cycles: seq<Cycle>, i: nat, k: nat, s: Settings) returns (latest: nat)
    requires k <= |cycles| && SnapshotHolds(cycles, i, k, s)
    ensures i <= latest && LatestSnapshot(cycles, latest, k, s)
    decreases k - i
  {
    latest := i;
    if j: nat :| i < j < k && TookSnapshot(cycles, j, s) {
      latest := LatestOfSome(cycles, j, k, s);
    }
  }

  /** A living connection sends a snapshot in cycle `k` if and only if it sent none yet, a request arrived since the
      latest one, or the snapshot interval is over. */
  lemma SnapshotIffDue(cycles: seq<Cycle>, s: Settings, k: nat)
    requires k < |cycles| && Serve(cycles[..k], s).alive
    ensures TookSnapshot(cycles, k, s) <==>
            forall i | 0 <= i < k && LatestSnapshot(cycles, i, k, s) ::
              cycles[k].now - cycles[i].now >= s.snapshotInterval
  {
    forall i | 0 <= i < k && LatestSnapshot(cycles, i, k, s)
      ensures TookSnapshot(cycles, k, s) <==> cycles[k].now - cycles[i].now >= s.snapshotInterval
    {
      SinceSnapshot(cycles, i, k, s);
    }
    if !TookSnapshot(cycles, k, s) {
      hide TookSnapshot, Serve;
      DeltasAreRecent(cycles, s, k);
      var i: nat :| i < k && TookSnapshot(cycles, i, s) && forall j | i <= j < k :: !cycles[j].requested;
      var latest := LatestOfSome(cycles, i, k, s);
    }
  }

  /** What a completed cycle puts on the socket: the whole heartbeat, or its telemetry and then the changes. */
  predicate Carries(sent: seq<Event>, h: Heartbeat, m: Memory, full: bool) {
    sent != [] && match sent[0]
      case NodeSnapshot(version, capabilities, host, instances) =>
        full && |sent| == 1 && Heartbeat(version, capabilities, host, instances) == h
      case NodeTelemetry(host, usage) =>
        !full && host == h.host && sent[1..] == ChangeEvents(m, h.instances)
      case _ => false
  }

  /** A cycle completes if and only if collecting and every send returned and the payload was accepted; then exactly
      what it should carry was sent, and the emitter remembers this heartbeat. */
  lemma CycleSends(cycles: seq<Cycle>, c: Cycle, s: Settings)
    ensures var l, next := Serve(cycles, s), Serve(cycles + [c], s);
            var full := TookSnapshot(cycles + [c], |cycles|, s);
            && (next.alive <==> l.alive && !c.raises && c.broken.None? && WireId(s.nodeId)
                                && if full then |c.h.capabilities| <= 16 && |c.h.instances| <= 100
                                   else TelemetryFits(c.h))
            && (next.alive ==> && next.snapshotRequested == c.requested && l.frames <= next.frames
                               && Carries(next.frames[|l.frames|..], c.h, l.memory, full))
  {
    var l, all := Serve(cycles, s), cycles + [c];
    assert all[..|cycles|] == cycles;
    var sent := Delivered(EventsOf(l.memory, CallOf(l, c, s)), c.broken);
    BehindFirst(l.frames, sent, 0);
    if !SnapshotDue(l, c, s) {
      BehindFirst([TelemetryEvent(c.h)], ChangeEvents(l.memory, c.h.instances), 0);
    }
  }

  // ----- The loop -----

  /** What one cycle meets: the collected objects, the clock, the socket and the dashboard. */
  datatype Surroundings = Surroundings(
    raises: bool, payload: HeartbeatPayload, now: real, broken: Option<Break>, requested: bool)

  class TelemetryConnection {
    const settings: Settings
    const emitter: AgentEventEmitter
    var lastSnapshotAt: real
    var snapshotRequested: bool
    var frames: seq<Event>  // what reached the socket

    ghost predicate Mirrors(l: Link)
      reads this, emitter
    {
      && emitter.nodeId == settings.nodeId
      && emitter.Compared() == l.memory
      && lastSnapshotAt == l.lastSnapshotAt && snapshotRequested == l.snapshotRequested
      && frames == l.frames && l.alive
    }

    constructor (settings: Settings)
      ensures Mirrors(CONNECTED) && this.settings == settings && fresh(emitter)
    {
      this.settings := settings;
      emitter := new AgentEventEmitter(settings.nodeId);
      lastSnapshotAt, snapshotRequested, frames := 0.0, true, [];
    }

    /** The first half of a pass: a full snapshot when one is due, otherwise the changes. */
    method TakeEvents(payload: HeartbeatPayload, now: real, ghost l: Link) returns (r: Emission<seq<Event>>)
      requires Mirrors(l)
      modifies this`lastSnapshotAt, this`snapshotRequested, emitter
      ensures var due := l.snapshotRequested || now - l.lastSnapshotAt >= settings.snapshotInterval;
              var call := if due then TakeSnapshot(old(payload.View())) else TakeChanges(old(payload.View()));
              if Accepted(call, settings)
              then
                && r == Emitted(EventsOf(l.memory, call)) && emitter.Compared() == MemoryAfter(l.memory, call)
                && lastSnapshotAt == (if due then now else l.lastSnapshotAt)
              else r == Rejected
    {
      hide Remembered, ChangeEvents, Updated, WireId, SnapshotFits, TelemetryFits;
      if snapshotRequested || now - lastSnapshotAt >= settings.snapshotInterval {
        var frame := emitter.Snapshot(payload);
        InstanceViewsSame(payload.instances);
        if frame.Rejected? {
          return Rejected;
        }
        lastSnapshotAt := now;
        snapshotRequested := false;
        return Emitted([frame.value]);
      }
      r := emitter.ChangesAndTelemetry(payload);
      InstanceViewsSame(payload.instances);
    }

    /** One pass of the loop; false when an exception ends the connection. */
    method RunCycle(c: Surroundings, ghost l: Link) returns (alive: bool)
      requires Mirrors(l)
      modifies this, emitter
      ensures var cycle := Cycle(c.raises, old(c.payload.View()), c.now, c.broken, c.requested);
              var next := ServeCycle(l, cycle, settings);
              alive == next.alive && frames == next.frames && (alive ==> Mirrors(next))
    {
      if c.raises {
        return false;
      }
      var events := TakeEvents(c.payload, c.now, l);
      if events.Rejected? {
        return false;
      }
      alive := SendBatch(events.value, c.broken);
      snapshotRequested := c.requested;
    }

    method SendBatch(events: seq<Event>, broken: Option<Break>) returns (sent: bool)
      modifies this`frames
      ensures frames == old(frames) + Delivered(events, broken)
      ensures sent == broken.None?
      ensures broken.Some? && broken.value.at < |events| ==>
                frames == old(frames) + events[..broken.value.at]
                          + (if broken.value.delivered then [events[broken.value.at]] else [])
      ensures broken.None? || broken.value.at >= |events| ==> frames == old(frames) + events
    {
      for k := 0 to |events|
        invariant frames == old(frames) + events[..k]
        invariant broken.Some? ==> k <= broken.value.at
      {
        assert events[..k + 1] == events[..k] + [events[k]];
        if broken.Some? && broken.value.at == k {
          if broken.value.delivered {
            frames := frames + [events[k]];
          }
          return false;
        }
        frames := frames + [events[k]];
      }
      assert events[..|events|] == events;
      return broken.None?;
    }
  }
}
