/**
 One socket carries everything (agent/client/realtime.py:163-231, 244-256, 284-294): the telemetry batches,
 the log streams of LogStreams, and whatever else the loop sends behind a batch, such as command frames. The
 loop handles control messages only behind a batch; log streams left over from earlier sockets run at any time.
 */
module SharedSocket {
  import opened Sequences
  import opened Telemetry
  import opened Emitter
  import opened Replica
  import opened TelemetryLink
  import Logs = LogStreams
  import LogFrames

  datatype Frame = Event(event: Telemetry.Event) | Log(frame: Logs.Frame) | Other

  /** What the connection loop does: between sockets, collecting a heartbeat, sending its batch with the first
      pending event crossed or not, or flushing the outbox and handling a control message. */
  datatype Phase = Offline | Collecting | Sending(crossed: bool) | Listening

  /** `link` is what the telemetry cycle keeps on this socket; `wires` what reached each socket so far. */
  datatype State = State(
    logs: Logs.State, link: Link, pending: seq<Telemetry.Event>, phase: Phase, wires: seq<seq<Frame>>)

  const INIT := State(Logs.INIT, CONNECTED, [], Offline, [])

  datatype Step =
    | Connect
    | Leave
    | Collect(raises: bool, h: Heartbeat, now: real)
    | Deliver
    | SendReturns
    | SendOther(delivered: bool)
    | RequestSnapshot
    | NextCycle
    | OfLogs(step: Logs.Step)

  /** Frames reach the socket that is open now. */
  function Put(wires: seq<seq<Frame>>, frames: seq<Frame>): seq<seq<Frame>> {
    if wires == [] then wires else wires[|wires| - 1 := wires[|wires| - 1] + frames]
  }

  /** The log frame that a step of the streams got through, if any. */
  function NewFrames(before: Logs.State, after: Logs.State): seq<Frame> {
    if |after.sent| > |before.sent| then [Log(after.sent[|after.sent| - 1].frame)] else []
  }

  function Connected(s: State): State {
    var logs := Logs.Open(s.logs);
    if s.logs.open || !logs.open then s else State(logs, CONNECTED, [], Collecting, s.wires + [[]])
  }

  /** Any exception on the connection, and its ordinary end. */
  function Left(s: State): State {
    s.(logs := Logs.Leave(s.logs), link := s.link.(alive := false), pending := [], phase := Offline)
  }

  function Taken(s: State, c: Cycle, settings: Settings): State {
    var call := CallOf(s.link, c, settings);
    if c.raises || !Accepted(call, settings) then Left(s)
    else
      var due := SnapshotDue(s.link, c, settings);
      s.(link := s.link.(memory := MemoryAfter(s.link.memory, call),
                         lastSnapshotAt := if due then c.now else s.link.lastSnapshotAt,
                         snapshotRequested := false),
         pending := EventsOf(s.link.memory, call), phase := Sending(false))
  }

  /** A log stream moves on, or the loop starts or stops one while it handles a control message. */
  function LogStep(s: State, step: Logs.Step): State {
    if Logs.IsTaskStep(step) || (s.phase == Listening && (step.LogsStart? || step.LogsStop?)) then
      var logs := Logs.Apply(s.logs, step);
      s.(logs := logs, wires := Put(s.wires, NewFrames(s.logs, logs)))
    else s
  }

  /** One step; a step that is not enabled changes nothing. */
  function Apply(s: State, step: Step, settings: Settings): State {
    match step
    case Connect => Connected(s)
    case Leave => if s.phase == Offline then s else Left(s)
    case Collect(raises, h, now) =>
      if s.phase == Collecting then Taken(s, Cycle(raises, h, now, None, false), settings) else s
    case Deliver =>
      if s.phase == Sending(false) && s.pending != [] then
        s.(link := s.link.(frames := s.link.frames + [s.pending[0]]), pending := s.pending[1..],
           phase := Sending(true), wires := Put(s.wires, [Event(s.pending[0])]))
      else s
    case SendReturns =>
      if s.phase == Sending(true) then s.(phase := if s.pending == [] then Listening else Sending(false)) else s
    case SendOther(delivered) =>
      if s.phase == Listening && delivered then s.(wires := Put(s.wires, [Other])) else s
    case RequestSnapshot =>
      if s.phase == Listening then s.(link := s.link.(snapshotRequested := true)) else s
    case NextCycle => if s.phase == Listening then s.(phase := Collecting) else s
    case OfLogs(l) => LogStep(s, l)
  }

  function RunFrom(s: State, steps: seq<Step>, settings: Settings): State {
    if steps == [] then s else Apply(RunFrom(s, steps[..|steps| - 1], settings), steps[|steps| - 1], settings)
  }

  lemma RunSnoc(s: State, steps: seq<Step>, step: Step, settings: Settings)
    ensures RunFrom(s, steps + [step], settings) == Apply(RunFrom(s, steps, settings), step, settings)
  {
    assert (steps + [step])[..|steps|] == steps;
  }

  // ----- What every run keeps -----

  /** The loop has a connection exactly while the log streams have one, and each has its wire. */
  ghost predicate Inv(s: State) {
    (s.phase == Offline <==> !s.logs.open) && |s.wires| == s.logs.socket && (s.logs.open ==> s.wires != [])
  }

  lemma StepInv(s: State, step: Step, settings: Settings)
    requires Inv(s)
    ensures Inv(Apply(s, step, settings))
  {
  }

  lemma {:induction false} RunInv(steps: seq<Step>, settings: Settings)
    ensures Inv(RunFrom(INIT, steps, settings))
  {
    if steps != [] {
      RunInv(steps[..|steps| - 1], settings);
      StepInv(RunFrom(INIT, steps[..|steps| - 1], settings), steps[|steps| - 1], settings);
    }
  }

  /** The log streams of a run are a run of their own, so all that holds of those holds here. */
  lemma {:induction false} LogsAreARun(steps: seq<Step>, settings: Settings) returns (logs: seq<Logs.Step>)
    ensures RunFrom(INIT, steps, settings).logs == Logs.RunFrom(Logs.INIT, logs)
  {
    logs := [];
    if steps != [] {
      var s := RunFrom(INIT, steps[..|steps| - 1], settings);
      logs := LogsAreARun(steps[..|steps| - 1], settings);
      RunInv(steps[..|steps| - 1], settings);
      var own := LogStepOf(s, steps[|steps| - 1], settings);
      if own != [] {
        Logs.RunSnoc(Logs.INIT, logs, own[0]);
        logs := logs + own;
      }
    }
  }

  /** What a step does to the log streams: nothing, or one step of theirs. */
  lemma LogStepOf(s: State, step: Step, settings: Settings) returns (own: seq<Logs.Step>)
    requires Inv(s)
    ensures |own| <= 1
    ensures Apply(s, step, settings).logs == if own == [] then s.logs else Logs.Apply(s.logs, own[0])
  {
    var s' := Apply(s, step, settings);
    own := match step
      case Connect => [Logs.Connect]
      case OfLogs(l) => [l]
      case _ => [Logs.LeaveConnection];
    if s'.logs == s.logs {
      own := [];
    }
  }

  // ----- The log frames among all others -----

  /** The log frames on a wire, in order. */
  function LogsOn(wire: seq<Frame>): seq<Logs.Frame> {
    if wire == [] then []
    else LogsOn(wire[..|wire| - 1]) + (if wire[|wire| - 1].Log? then [wire[|wire| - 1].frame] else [])
  }

  /** What the log streams sent on socket `n`. */
  function SentOn(sent: seq<Logs.Sent>, n: nat): seq<Logs.Frame> {
    if sent == [] then []
    else
      var last := sent[|sent| - 1];
      SentOn(sent[..|sent| - 1], n) + (if last.on == n then [last.frame] else [])
  }

  // ----- The telemetry frames among all others -----

  /** The events on a wire, in order. */
  function EventsOn(wire: seq<Frame>): seq<Telemetry.Event> {
    if wire == [] then []
    else
      EventsOn(wire[..|wire| - 1]) + (if wire[|wire| - 1].Event? then [wire[|wire| - 1].event] else [])
  }

  lemma EventsOnConcat(wire: seq<Frame>, f: Frame)
    ensures EventsOn(wire + [f]) == EventsOn(wire) + (if f.Event? then [f.event] else [])
  {
    assert (wire + [f])[..|wire|] == wire;
  }

  /** The wire of the open socket. */
  function Wire(s: State): seq<Frame> {
    if s.wires == [] then [] else s.wires[|s.wires| - 1]
  }

  /** No batch was taken on this socket yet. */
  predicate Fresh(s: State) {
    s.phase == Collecting && s.link == CONNECTED
  }

  /** Where the loop stands in a batch. */
  predicate PendingOk(s: State) {
    match s.phase
    case Sending(crossed) => crossed || s.pending != []
    case _ => s.pending == []
  }

  /** Once the pending events are in, the receiver agrees with what the emitter remembers. */
  ghost predicate Converging(s: State, r: Apps, reading: Reading) {
    s.phase != Offline ==>
      && s.wires != [] && EventsOn(Wire(s)) == s.link.frames && PendingOk(s)
      && (Fresh(s) || Agrees(Fold(r, s.link.frames + s.pending, reading), s.link.memory))
  }

  lemma TakenConverges(s: State, c: Cycle, settings: Settings, r: Apps, reading: Reading)
    requires s.phase == Collecting && Converging(s, r, reading)
    ensures Converging(Taken(s, c, settings), r, reading)
  {
    hide MemoryAfter, Agrees, Fold, EventsOn, Accepted, ChangeEvents, Logs.Leave;
    var s', call := Taken(s, c, settings), CallOf(s.link, c, settings);
    if s'.phase != Offline {
      assert s.link.frames + [] == s.link.frames;
      CallConverges(Fold(r, s.link.frames, reading), s.link.memory, call, reading);
      FoldConcat(r, s.link.frames, EventsOf(s.link.memory, call), reading);
    }
  }

  lemma DeliveredConverges(s: State, settings: Settings, r: Apps, reading: Reading)
    requires s.phase == Sending(false) && s.pending != [] && Converging(s, r, reading)
    ensures Converging(Apply(s, Deliver, settings), r, reading)
  {
    hide Agrees, Fold, EventsOn;
    var s' := Apply(s, Deliver, settings);
    EventsOnConcat(Wire(s), Event(s.pending[0]));
    HeadAndTail(s.pending);
    Associative(s.link.frames, [s.pending[0]], s.pending[1..]);
    assert s'.link.frames + s'.pending == s.link.frames + s.pending;
  }

  /** Frames that are no events do not touch the telemetry. */
  lemma OtherConverges(s: State, s': State, frames: seq<Frame>, r: Apps, reading: Reading)
    requires Converging(s, r, reading) && s' == s.(logs := s'.logs, wires := Put(s.wires, frames))
    requires |frames| <= 1 && forall f | f in frames :: !f.Event?
    ensures Converging(s', r, reading)
  {
    if s.phase != Offline {
      if frames == [] {
        assert Wire(s) + [] == Wire(s);
      } else {
        EventsOnConcat(Wire(s), frames[0]);
        assert frames == [frames[0]];
      }
    }
  }

  lemma StepConverges(s: State, step: Step, settings: Settings, r: Apps, reading: Reading)
    requires Converging(s, r, reading)
    ensures Converging(Apply(s, step, settings), r, reading)
  {
    match step
    case Collect(raises, h, now) =>
      if s.phase == Collecting { TakenConverges(s, Cycle(raises, h, now, None, false), settings, r, reading); }
    case Deliver =>
      if s.phase == Sending(false) && s.pending != [] { DeliveredConverges(s, settings, r, reading); }
    case SendOther(_) =>
      OtherConverges(s, s.(wires := Put(s.wires, [Other])), [Other], r, reading);
    case OfLogs(l) =>
      var s' := LogStep(s, l);
      if s' != s { OtherConverges(s, s', NewFrames(s.logs, s'.logs), r, reading); }
    case _ =>
  }

  lemma {:induction false} RunConverges(steps: seq<Step>, settings: Settings, r: Apps, reading: Reading)
    ensures Converging(RunFrom(INIT, steps, settings), r, reading)
  {
    if steps != [] {
      var front := steps[..|steps| - 1];
      RunConverges(front, settings, r, reading);
      StepConverges(RunFrom(INIT, front, settings), steps[|steps| - 1], settings, r, reading);
    }
  }

  /** Whatever else shares the socket, the events on it rebuild what the emitter remembers each time a batch is
      through. */
  lemma SharedSocketAgrees(steps: seq<Step>, settings: Settings, r: Apps, reading: Reading)
    ensures var s := RunFrom(INIT, steps, settings);
            s.phase == Listening || (s.phase == Collecting && !Fresh(s)) ==>
              Agrees(Fold(r, EventsOn(Wire(s)), reading), s.link.memory)
  {
    RunConverges(steps, settings, r, reading);
    var s := RunFrom(INIT, steps, settings);
    assert s.link.frames + [] == s.link.frames;
  }

  // ----- Both parts, step by step -----

  /** Each wire carries exactly the log frames that were sent on its socket. */
  ghost predicate LogsCarried(s: State) {
    && (forall x | x in s.logs.sent :: 1 <= x.on <= |s.wires|)
    && forall n | 0 <= n < |s.wires| :: LogsOn(s.wires[n]) == SentOn(s.logs.sent, n + 1)
  }

  lemma LogsOnSnoc(wire: seq<Frame>, f: Frame)
    ensures LogsOn(wire + [f]) == LogsOn(wire) + (if f.Log? then [f.frame] else [])
  {
    assert (wire + [f])[..|wire|] == wire;
  }

  lemma SentOnSnoc(sent: seq<Logs.Sent>, x: Logs.Sent, n: nat)
    ensures SentOn(sent + [x], n) == SentOn(sent, n) + (if x.on == n then [x.frame] else [])
  {
    assert (sent + [x])[..|sent|] == sent;
  }

  lemma {:induction false} NothingOn(sent: seq<Logs.Sent>, n: nat)
    requires forall x | x in sent :: x.on != n
    ensures SentOn(sent, n) == []
  {
    if sent != [] {
      assert sent[|sent| - 1] in sent;
      NothingOn(sent[..|sent| - 1], n);
    }
  }

  /** A frame that is no log frame leaves them alone. */
  lemma OtherCarried(s: State, s': State, f: Frame)
    requires LogsCarried(s) && !f.Log? && s'.logs.sent == s.logs.sent && s'.wires == Put(s.wires, [f])
    ensures LogsCarried(s')
  {
    if s.wires != [] {
      LogsOnSnoc(Wire(s), f);
    }
  }

  lemma OpenCarried(s: State, s': State)
    requires LogsCarried(s) && s'.logs.sent == s.logs.sent && s'.wires == s.wires + [[]]
    ensures LogsCarried(s')
  {
    NothingOn(s.logs.sent, |s.wires| + 1);
  }

  lemma LogCarried(s: State, step: Logs.Step)
    requires Inv(s) && LogsCarried(s)
    ensures LogsCarried(LogStep(s, step))
  {
    hide LogStep, SentOn, LogsOn;
    var s' := LogStep(s, step);
    if s'.logs.sent == s.logs.sent {
      SilentWires(s, step);
    } else {
      OneFrame(s, step);
      var x := s'.logs.sent[|s.logs.sent|];
      LogsOnSnoc(Wire(s), Log(x.frame));
      forall n ensures SentOn(s'.logs.sent, n) == SentOn(s.logs.sent, n) + (if x.on == n then [x.frame] else []) {
        if n >= 0 { SentOnSnoc(s.logs.sent, x, n); }
      }
    }
  }

  lemma SilentWires(s: State, step: Logs.Step)
    requires LogStep(s, step).logs.sent == s.logs.sent
    ensures LogStep(s, step).wires == s.wires
  {
    if s.wires != [] {
      assert Wire(s) + [] == Wire(s);
    }
  }

  /** What a log step sends goes on the open socket. */
  lemma OneFrame(s: State, step: Logs.Step)
    requires Inv(s) && LogStep(s, step).logs.sent != s.logs.sent
    ensures var s' := LogStep(s, step);
            && |s'.logs.sent| == |s.logs.sent| + 1 && s.wires != []
            && var x := s'.logs.sent[|s.logs.sent|];
               && s'.logs.sent == s.logs.sent + [x] && x.on == |s.wires|
               && s'.wires == s.wires[|s.wires| - 1 := Wire(s) + [Log(x.frame)]]
  {
  }

  lemma StepCarried(s: State, step: Step, settings: Settings)
    requires Inv(s) && LogsCarried(s)
    ensures LogsCarried(Apply(s, step, settings))
  {
    hide LogsCarried, LogStep, Logs.Apply, Put, Inv;
    var s' := Apply(s, step, settings);
    match step
    case Connect => if s' != s { OpenCarried(s, s'); }
    case Deliver => if s' != s { OtherCarried(s, s', Event(s.pending[0])); }
    case SendOther(_) => if s' != s { OtherCarried(s, s', Other); }
    case OfLogs(l) => LogCarried(s, l);
    case _ => SameCarried(s, s');
  }

  lemma SameCarried(s: State, s': State)
    requires LogsCarried(s) && s'.logs.sent == s.logs.sent && s'.wires == s.wires
    ensures LogsCarried(s')
  {
  }

  lemma {:induction false} RunCarried(steps: seq<Step>, settings: Settings)
    ensures LogsCarried(RunFrom(INIT, steps, settings))
  {
    if steps != [] {
      var front := steps[..|steps| - 1];
      RunCarried(front, settings);
      RunInv(front, settings);
      StepCarried(RunFrom(INIT, front, settings), steps[|steps| - 1], settings);
    }
  }

  /** Every socket carries exactly the frames the log streams sent while it was open, in order. */
  lemma WiresCarryTheLogs(steps: seq<Step>, settings: Settings, n: nat)
    ensures var s := RunFrom(INIT, steps, settings);
            n < |s.wires| ==> LogsOn(s.wires[n]) == SentOn(s.logs.sent, n + 1)
  {
    RunCarried(steps, settings);
  }

  /** A frame of another kind that gets through behind a batch is the next one on the open socket. */
  lemma OtherFramesFollow(steps: seq<Step>, settings: Settings)
    requires RunFrom(INIT, steps, settings).phase == Listening
    ensures var s, t := RunFrom(INIT, steps, settings), RunFrom(INIT, steps + [SendOther(true)], settings);
            Wire(t) == Wire(s) + [Other] && t.phase == Listening
  {
    RunInv(steps, settings);
    RunSnoc(INIT, steps, SendOther(true), settings);
  }

  /** The telemetry of the open socket is that of these cycles, once the pending events are sent. */
  ghost predicate Cycles(s: State, cycles: seq<Cycle>, settings: Settings) {
    s.phase != Offline ==>
      && s.link.(frames := s.link.frames + s.pending) == Serve(cycles, settings) && s.link.alive && PendingOk(s)
      && (s.phase != Collecting ==> cycles != [])
  }

  lemma ServeSnoc(cycles: seq<Cycle>, c: Cycle, settings: Settings)
    ensures Serve(cycles + [c], settings) == ServeCycle(Serve(cycles, settings), c, settings)
  {
    assert (cycles + [c])[..|cycles|] == cycles;
  }

  lemma RequestedLater(cycles: seq<Cycle>, settings: Settings) returns (later: seq<Cycle>)
    requires cycles != [] && Serve(cycles, settings).alive
    ensures later != [] && Serve(later, settings) == Serve(cycles, settings).(snapshotRequested := true)
  {
    var front, last := cycles[..|cycles| - 1], cycles[|cycles| - 1];
    later := front + [last.(requested := true)];
    ServeSnoc(front, last.(requested := true), settings);
  }

  lemma StepCycles(s: State, step: Step, settings: Settings, cycles: seq<Cycle>) returns (next: seq<Cycle>)
    requires Cycles(s, cycles, settings)
    ensures Cycles(Apply(s, step, settings), next, settings)
  {
    hide Serve, ServeCycle, Logs.Apply, Logs.Leave, Logs.Open;
    next := cycles;
    match step
    case Connect =>
      if Apply(s, step, settings) != s {
        next := [];
        NoCycleYet(settings);
      }
    case Collect(raises, h, now) =>
      if s.phase == Collecting {
        var c := Cycle(raises, h, now, None, false);
        next := cycles + [c];
        CollectCycles(s, c, settings, cycles);
      }
    case Deliver =>
      if s.phase == Sending(false) && s.pending != [] {
        HeadAndTail(s.pending);
        Associative(s.link.frames, [s.pending[0]], s.pending[1..]);
      }
    case RequestSnapshot =>
      if s.phase == Listening {
        assert s.link.frames + [] == s.link.frames;
        next := RequestedLater(cycles, settings);
      }
    case _ =>
  }

  lemma NoCycleYet(settings: Settings)
    ensures Serve([], settings) == CONNECTED && CONNECTED.frames + [] == CONNECTED.frames
  {
  }

  lemma CollectCycles(s: State, c: Cycle, settings: Settings, cycles: seq<Cycle>)
    requires Cycles(s, cycles, settings) && s.phase == Collecting && c.broken.None? && !c.requested
    ensures Cycles(Taken(s, c, settings), cycles + [c], settings)
  {
    hide Serve, EventsOf, MemoryAfter, Accepted;
    assert s.link.frames + [] == s.link.frames;
    ServeSnoc(cycles, c, settings);
    BatchIsNotEmpty(s.link.memory, CallOf(s.link, c, settings));
  }

  lemma BatchIsNotEmpty(m: Memory, call: Call)
    ensures EventsOf(m, call) != []
  {
  }

  /** The telemetry cycle of the open socket is one of TelemetryLink, whatever else shares the socket, so all that
      holds of those cycles holds here; a snapshot.request counts for the cycle it came in. */
  lemma {:induction false} TelemetryIsARun(steps: seq<Step>, settings: Settings) returns (cycles: seq<Cycle>)
    ensures Cycles(RunFrom(INIT, steps, settings), cycles, settings)
    ensures var s := RunFrom(INIT, steps, settings);
            s.phase == Listening || s.phase == Collecting ==> s.link == Serve(cycles, settings)
  {
    cycles := [];
    if steps != [] {
      var front := steps[..|steps| - 1];
      cycles := TelemetryIsARun(front, settings);
      cycles := StepCycles(RunFrom(INIT, front, settings), steps[|steps| - 1], settings, cycles);
    }
    var s := RunFrom(INIT, steps, settings);
    assert s.link.frames + [] == s.link.frames;
  }

  // ----- The first frame of a socket -----

  predicate SnapshotFirst(wire: seq<Frame>) {
    wire != [] ==> wire[0].Event? && wire[0].event.NodeSnapshot?
  }

  /** No log stream can send any more. */
  ghost predicate Quiet(logs: Logs.State) {
    forall k | 0 <= k < |logs.streams| :: !LogFrames.CanSend(logs.streams[k])
  }

  /** Nothing but a snapshot can come first on wire `n`. */
  ghost predicate Guarded(s: State, n: nat) {
    && n < |s.wires| && SnapshotFirst(s.wires[n])
    && (s.wires[n] == [] && n == |s.wires| - 1 && s.phase != Offline ==>
          && Quiet(s.logs)
          && (if s.phase == Collecting then s.link.snapshotRequested
              else s.phase == Sending(false) && s.pending != [] && s.pending[0].NodeSnapshot?))
  }

  lemma QuietStays(logs: Logs.State, step: Logs.Step)
    requires Quiet(logs) && Logs.IsTaskStep(step)
    ensures Quiet(Logs.ApplyTask(logs, step)) && Logs.ApplyTask(logs, step).sent == logs.sent
  {
    assert step.k < |logs.streams| ==> !LogFrames.CanSend(logs.streams[step.k]);
  }

  lemma PutBehind(s: State, n: nat, frames: seq<Frame>)
    requires n < |s.wires| && SnapshotFirst(s.wires[n])
    requires n < |s.wires| - 1 || s.wires[n] != [] || SnapshotFirst(frames)
    ensures var wires := Put(s.wires, frames);
            n < |wires| == |s.wires| && SnapshotFirst(wires[n]) && (wires[n] == [] ==> s.wires[n] == [])
  {
  }

  lemma LogStepGuarded(s: State, step: Logs.Step, n: nat)
    requires Inv(s) && Guarded(s, n)
    ensures Guarded(LogStep(s, step), n)
  {
    var s' := LogStep(s, step);
    var frames := NewFrames(s.logs, s'.logs);
    if s' != s {
      if s.wires[n] == [] && n == |s.wires| - 1 && s.phase != Offline {
        QuietStays(s.logs, step);
        assert frames == [] && s'.wires[n] == [];
      } else if s.phase == Offline && s.wires[n] == [] {
        assert Logs.IsTaskStep(step) && s'.logs.sent == s.logs.sent;
      } else {
        PutBehind(s, n, frames);
      }
    }
  }

  lemma StepGuarded(s: State, step: Step, n: nat, settings: Settings)
    requires Inv(s) && Guarded(s, n)
    ensures Guarded(Apply(s, step, settings), n)
  {
    match step
    case Deliver =>
      if s.phase == Sending(false) && s.pending != [] { PutBehind(s, n, [Event(s.pending[0])]); }
    case SendOther(delivered) =>
      if s.phase == Listening && delivered { PutBehind(s, n, [Other]); }
    case OfLogs(l) => LogStepGuarded(s, l, n);
    case _ =>
  }

  lemma {:induction false} RunGuarded(s: State, more: seq<Step>, n: nat, settings: Settings)
    requires Inv(s) && Guarded(s, n)
    ensures Inv(RunFrom(s, more, settings)) && Guarded(RunFrom(s, more, settings), n)
  {
    if more != [] {
      var front := more[..|more| - 1];
      RunGuarded(s, front, n, settings);
      StepInv(RunFrom(s, front, settings), more[|more| - 1], settings);
      StepGuarded(RunFrom(s, front, settings), more[|more| - 1], n, settings);
    }
  }

  /** The steps by which stream `k` sends its `logs.ended`. */
  function Finish(k: nat): seq<Step> {
    [OfLogs(Logs.Begin(k)), OfLogs(Logs.Close(k)), OfLogs(Logs.SendEnded(k, true))]
  }

  lemma RunThree(s: State, a: Step, b: Step, c: Step, settings: Settings)
    ensures RunFrom(s, [a, b, c], settings) == Apply(Apply(Apply(s, a, settings), b, settings), c, settings)
  {
    hide Apply;
    assert [a, b, c][..2] == [a, b] && [a, b][..1] == [a] && [a][..0] == [];
    assert RunFrom(s, [a], settings) == Apply(s, a, settings);
  }

  /** A step of a stream that sends nothing leaves the wires alone. */
  lemma SilentStep(s: State, step: Logs.Step)
    requires Logs.IsTaskStep(step) && Logs.ApplyTask(s.logs, step).sent == s.logs.sent
    ensures LogStep(s, step) == s.(logs := Logs.Apply(s.logs, step))
  {
    if s.wires != [] {
      assert Wire(s) + [] == Wire(s);
      assert s.wires[|s.wires| - 1 := Wire(s)] == s.wires;
    }
  }

  lemma EndedCrosses(s: State, k: nat)
    requires s.wires != [] && s.logs.open && k < |s.logs.streams| && s.logs.streams[k].pc == Logs.Closing
    ensures LogStep(s, Logs.SendEnded(k, true)).wires
         == Put(s.wires, [Log(Logs.LogsEnded(s.logs.streams[k].id))])
  {
  }

  /** A leftover that can send does so before anything else. */
  lemma LeftoverIsFirst(s: State, k: nat, settings: Settings)
    requires Inv(s) && s.logs.open && Wire(s) == []
    requires k < |s.logs.streams| && LogFrames.CanSend(s.logs.streams[k])
    ensures var wires := RunFrom(s, Finish(k), settings).wires;
            |wires| == |s.wires| && wires[|s.wires| - 1] == [Log(Logs.LogsEnded(s.logs.streams[k].id))]
  {
    hide LogStep, Logs.Start, Logs.Stop, Logs.Open, Logs.Leave;
    RunThree(s, OfLogs(Logs.Begin(k)), OfLogs(Logs.Close(k)), OfLogs(Logs.SendEnded(k, true)), settings);
    LogFrames.ClosesQuietly(s.logs, k);
    SilentStep(s, Logs.Begin(k));
    var one := LogStep(s, Logs.Begin(k));
    SilentStep(one, Logs.Close(k));
    EndedCrosses(LogStep(one, Logs.Close(k)), k);
    assert [] + [Log(Logs.LogsEnded(s.logs.streams[k].id))] == [Log(Logs.LogsEnded(s.logs.streams[k].id))];
  }

  /** A socket opens next. */
  ghost predicate Opens(s: State) {
    !s.logs.open && Logs.Open(s.logs).open
  }

  /** In every continuation, over later sockets too, a snapshot is the first frame on wire `n`. */
  ghost predicate AlwaysSnapshotFirst(s: State, n: nat, settings: Settings) {
    forall more :: n < |RunFrom(s, more, settings).wires| && SnapshotFirst(RunFrom(s, more, settings).wires[n])
  }

  lemma ConnectedFacts(before: State)
    requires Inv(before) && Opens(before)
    ensures var s := Connected(before);
            && s.logs.open && |s.wires| == |before.wires| + 1 && s.wires[|s.wires| - 1] == [] && Inv(s)
            && (Quiet(s.logs) ==> Guarded(s, |s.wires| - 1))
  {
  }

  lemma GuardedIsAlways(s: State, n: nat, settings: Settings)
    requires Inv(s) && Guarded(s, n)
    ensures AlwaysSnapshotFirst(s, n, settings)
  {
    hide Inv, RunFrom, SnapshotFirst;
    forall more
      ensures n < |RunFrom(s, more, settings).wires| && SnapshotFirst(RunFrom(s, more, settings).wires[n])
    {
      RunGuarded(s, more, n, settings);
    }
  }

  /** When a socket opens, a snapshot is its first frame whatever else shares it, in every continuation, if and
      only if no log stream of an earlier socket can still send. */
  lemma SnapshotIsFirstIff(steps: seq<Step>, settings: Settings)
    requires Opens(RunFrom(INIT, steps, settings))
    ensures var s := Connected(RunFrom(INIT, steps, settings));
            s.wires != [] && (AlwaysSnapshotFirst(s, |s.wires| - 1, settings) <==> Quiet(s.logs))
  {
    hide RunFrom, Connected, Opens, Inv, Guarded;
    var before := RunFrom(INIT, steps, settings);
    RunInv(steps, settings);
    var s := Connected(before);
    ConnectedFacts(before);
    if Quiet(s.logs) {
      GuardedIsAlways(s, |s.wires| - 1, settings);
    } else {
      var k :| 0 <= k < |s.logs.streams| && LogFrames.CanSend(s.logs.streams[k]);
      LeftoverIsFirst(s, k, settings);
      assert !SnapshotFirst(RunFrom(s, Finish(k), settings).wires[|s.wires| - 1]);
    }
  }

  // ----- A dashboard that stops no stream -----

  /** Every task is still found: in the dictionary of the open socket, or among those the last one waits for. */
  ghost predicate AllFound(logs: Logs.State) {
    && Logs.TrackedOk(logs)
    && forall k | 0 <= k < |logs.streams| && !logs.streams[k].released ::
         if logs.open then logs.streams[k].id in logs.tracked && logs.tracked[logs.streams[k].id] == k
         else k in logs.awaited
  }

  lemma FoundAfterStart(logs: Logs.State, id: Logs.Registry.Uuid, delivered: bool)
    requires AllFound(logs) && logs.open
    ensures AllFound(Logs.Start(logs, id, delivered))
  {
    if id !in logs.tracked && |logs.tracked| < Logs.LIMIT {
      var after := Logs.Start(logs, id, delivered);
      Logs.AddIsOneMore(logs.tracked, id, |logs.streams|);
      Logs.AddedTracked(logs, after, id);
      assert forall k | 0 <= k < |logs.streams| :: after.streams[k] == logs.streams[k];
    }
  }

  lemma FoundAfterCallback(logs: Logs.State, k: nat)
    requires AllFound(logs) && k < |logs.streams| && logs.streams[k].pc == Logs.Over && !logs.streams[k].released
    ensures AllFound(Logs.ApplyTask(logs, Logs.Callback(k)))
  {
    Logs.CallbackKeepsTracked(logs, k);
  }

  lemma FoundAfterTask(logs: Logs.State, step: Logs.Step)
    requires AllFound(logs) && Logs.IsTaskStep(step)
    ensures AllFound(Logs.ApplyTask(logs, step))
  {
    hide AllFound;
    if step.k < |logs.streams| {
      if step.Callback? {
        if logs.streams[step.k].pc == Logs.Over && !logs.streams[step.k].released { FoundAfterCallback(logs, step.k); }
      } else {
        var after, k := Logs.ApplyTask(logs, step), step.k;
        if after != logs { FoundAfterMove(logs, k, after.streams[k].pc, after.sent); }
      }
    }
  }

  lemma FoundAfterMove(logs: Logs.State, k: nat, pc: Logs.Pc, sent: seq<Logs.Sent>)
    requires AllFound(logs) && k < |logs.streams| && logs.streams[k].pc != Logs.Over
    ensures AllFound(Logs.Move(logs, k, pc).(sent := sent))
  {
  }

  lemma FoundAfterOpen(logs: Logs.State)
    requires AllFound(logs)
    ensures AllFound(Logs.Open(logs))
  {
  }

  lemma FoundAfterLeave(logs: Logs.State)
    requires AllFound(logs) && logs.open
    ensures AllFound(Logs.Leave(logs))
  {
    var after := Logs.Leave(logs);
    forall k | 0 <= k < |logs.streams|
      ensures after.streams[k].id == logs.streams[k].id && after.streams[k].released == logs.streams[k].released
      ensures logs.streams[k].pc == Logs.Over ==> after.streams[k].pc == Logs.Over
      ensures !logs.streams[k].released ==> k in after.awaited
    {
      assert !logs.streams[k].released ==> logs.streams[k].id in logs.tracked;
    }
  }

  lemma StepFinds(s: State, step: Step, settings: Settings)
    requires Inv(s) && AllFound(s.logs) && !(step.OfLogs? && step.step.LogsStop?)
    ensures AllFound(Apply(s, step, settings).logs)
  {
    hide AllFound;
    match step
    case OfLogs(l) =>
      if Logs.IsTaskStep(l) { FoundAfterTask(s.logs, l); }
      else if s.phase == Listening && l.LogsStart? { FoundAfterStart(s.logs, l.id, l.delivered); }
    case Connect => FoundAfterOpen(s.logs);
    case Leave => if s.phase != Offline { FoundAfterLeave(s.logs); }
    case Collect(_, _, _) => if s.phase == Collecting { FoundAfterLeave(s.logs); }
    case _ =>
  }

  lemma {:induction false} RunFinds(steps: seq<Step>, settings: Settings)
    requires forall step | step in steps :: !(step.OfLogs? && step.step.LogsStop?)
    ensures AllFound(RunFrom(INIT, steps, settings).logs)
  {
    if steps != [] {
      var front := steps[..|steps| - 1];
      RunFinds(front, settings);
      RunInv(front, settings);
      assert steps[|steps| - 1] in steps;
      StepFinds(RunFrom(INIT, front, settings), steps[|steps| - 1], settings);
    }
  }

  /** So with a dashboard that never stops a log stream, a snapshot is the first frame of every socket. */
  lemma SnapshotIsFirstWithoutStops(steps: seq<Step>, settings: Settings)
    requires forall step | step in steps :: !(step.OfLogs? && step.step.LogsStop?)
    requires Opens(RunFrom(INIT, steps, settings))
    ensures var s := Connected(RunFrom(INIT, steps, settings));
            s.wires != [] && AlwaysSnapshotFirst(s, |s.wires| - 1, settings)
  {
    var before := RunFrom(INIT, steps, settings);
    RunFinds(steps, settings);
    SnapshotIsFirstIff(steps, settings);
    forall k | 0 <= k < |before.logs.streams| ensures !LogFrames.CanSend(before.logs.streams[k]) {
      assert before.logs.streams[k].released;
    }
  }

  // ----- An input that fails -----

  /** One cycle on the first socket, in which a stream is started and stopped whose helper is slow to die. */
  function StoppedStream(id: nat, h: Heartbeat): seq<Step> {
    [Connect, Collect(false, h, 0.0), Deliver]
    + [SendReturns, OfLogs(Logs.LogsStart(id, true)), OfLogs(Logs.Begin(0))]
    + [OfLogs(Logs.LogsStop(id)), OfLogs(Logs.Close(0)), Leave]
  }

  lemma {:induction false} RunConcat(s: State, a: seq<Step>, b: seq<Step>, settings: Settings)
    ensures RunFrom(s, a + b, settings) == RunFrom(RunFrom(s, a, settings), b, settings)
  {
    hide Apply;
    if b == [] {
      assert a + b == a;
    } else {
      var front, last := b[..|b| - 1], b[|b| - 1];
      RunConcat(s, a, front, settings);
      RunSnoc(s, a + front, last, settings);
      assert b == front + [last];
      Associative(a, front, [last]);
    }
  }

  lemma FirstBatch(h: Heartbeat, settings: Settings)
    requires WireId(settings.nodeId) && SnapshotFits(h)
    ensures RunFrom(INIT, [Connect, Collect(false, h, 0.0), Deliver], settings)
         == State(Logs.INIT.(socket := 1, open := true),
                  Link(Remembered(h.instances), 0.0, false, [SnapshotEvent(h)], true),
                  [], Sending(true), [[Event(SnapshotEvent(h))]])
  {
    RunThree(INIT, Connect, Collect(false, h, 0.0), Deliver, settings);
    var one := Apply(INIT, Connect, settings);
    assert one == State(Logs.INIT.(socket := 1, open := true), CONNECTED, [], Collecting, [[]]);
    var two := Apply(one, Collect(false, h, 0.0), settings);
    assert two.pending == [SnapshotEvent(h)] && two.wires == [[]];
    assert [] + [SnapshotEvent(h)] == [SnapshotEvent(h)];
    assert [] + [Event(SnapshotEvent(h))] == [Event(SnapshotEvent(h))];
  }

  lemma StreamStops(s: State, id: nat, h: Heartbeat, settings: Settings)
    requires s.logs == Logs.INIT.(socket := 1, open := true) && s.phase == Sending(true) && s.pending == []
    requires s.wires == [[Event(SnapshotEvent(h))]]
    ensures var start := [SendReturns, OfLogs(Logs.LogsStart(id, true)), OfLogs(Logs.Begin(0))];
            var stop := [OfLogs(Logs.LogsStop(id)), OfLogs(Logs.Close(0)), Leave];
            var t := RunFrom(RunFrom(s, start, settings), stop, settings);
            && t.logs == Logs.State([Logs.Stream(id, 1, Logs.Closing, true, false)], map[], {}, [], 1, false)
            && t.wires == [[Event(SnapshotEvent(h))]]
  {
    var a, b, c := SendReturns, OfLogs(Logs.LogsStart(id, true)), OfLogs(Logs.Begin(0));
    RunThree(s, a, b, c, settings);
    var one := Apply(s, a, settings);
    assert one.phase == Listening && one.wires[0] + [] == one.wires[0];
    var two := Apply(one, b, settings);
    assert two.logs.streams == [Logs.Stream(id, 1, Logs.Created, false, false)] && two.wires == s.wires;
    var three := Apply(two, c, settings);
    assert three.logs.streams == [Logs.Stream(id, 1, Logs.Streaming, false, false)] && three.wires == s.wires;
    StreamLeaves(three, id, settings);
  }

  lemma StreamLeaves(s: State, id: nat, settings: Settings)
    requires s.phase == Listening && |s.wires| == 1
    requires s.logs == Logs.State([Logs.Stream(id, 1, Logs.Streaming, false, false)], map[id := 0], {}, [], 1, true)
    ensures var t := RunFrom(s, [OfLogs(Logs.LogsStop(id)), OfLogs(Logs.Close(0)), Leave], settings);
            && t.logs == Logs.State([Logs.Stream(id, 1, Logs.Closing, true, false)], map[], {}, [], 1, false)
            && t.wires == s.wires
  {
    RunThree(s, OfLogs(Logs.LogsStop(id)), OfLogs(Logs.Close(0)), Leave, settings);
    assert s.wires[0] + [] == s.wires[0];
    var one := Apply(s, OfLogs(Logs.LogsStop(id)), settings);
    assert one.logs == Logs.State([Logs.Stream(id, 1, Logs.Streaming, true, false)], map[], {}, [], 1, true);
    SilentStep(one, Logs.Close(0));
    var two := Apply(one, OfLogs(Logs.Close(0)), settings);
    assert two.logs == Logs.State([Logs.Stream(id, 1, Logs.Closing, true, false)], map[], {}, [], 1, true);
  }

  /** On the second socket the `logs.ended` of that stream comes before the snapshot. */
  lemma EndedBeforeSnapshot(id: nat, h: Heartbeat, settings: Settings)
    requires WireId(settings.nodeId) && SnapshotFits(h)
    ensures var s := RunFrom(INIT, StoppedStream(id, h), settings);
            && Opens(s)
            && Apply(Connected(s), OfLogs(Logs.SendEnded(0, true)), settings).wires
            == [[Event(SnapshotEvent(h))], [Log(Logs.LogsEnded(id))]]
  {
    var batch := [Connect, Collect(false, h, 0.0), Deliver];
    var start := [SendReturns, OfLogs(Logs.LogsStart(id, true)), OfLogs(Logs.Begin(0))];
    var stop := [OfLogs(Logs.LogsStop(id)), OfLogs(Logs.Close(0)), Leave];
    FirstBatch(h, settings);
    StreamStops(RunFrom(INIT, batch, settings), id, h, settings);
    RunConcat(INIT, batch, start, settings);
    RunConcat(INIT, batch + start, stop, settings);
    LeftoverEnds(RunFrom(INIT, StoppedStream(id, h), settings), id, settings);
  }

  lemma LeftoverEnds(s: State, id: nat, settings: Settings)
    requires s.logs == Logs.State([Logs.Stream(id, 1, Logs.Closing, true, false)], map[], {}, [], 1, false)
    ensures Opens(s)
    ensures Apply(Connected(s), OfLogs(Logs.SendEnded(0, true)), settings).wires
         == s.wires + [[Log(Logs.LogsEnded(id))]]
  {
    var t := Connected(s);
    assert t.wires == s.wires + [[]] && [] + [Log(Logs.LogsEnded(id))] == [Log(Logs.LogsEnded(id))];
  }
}
