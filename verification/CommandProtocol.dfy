/**
 Command execution over a lossy socket (agent/client/realtime.py:99-161, 163-190,
 257-266, 284-311) as a state machine. Every stretch of code between two suspension
 points of the event loop is one step, so a run is an arbitrary interleaving of
 command tasks, the flush of the shared outbox, replays, broken sends, reconnects
 and the final shutdown.
 */
module CommandProtocol {
  import opened Sequences
  import opened Registry

  // ----- Frames and executions -----

  datatype Failure = ExitCode(code: int) | TimedOut | HelperUnavailable | AgentStopped
  datatype Outcome = Success | Failed(why: Failure)
  datatype Kind = Ack | Running | Terminal(outcome: Outcome)

  /** A lifecycle frame; `exec` numbers the execution that made it, as the fresh message id does. */
  datatype Frame = Frame(exec: nat, id: Uuid, kind: Kind)

  datatype End =
    | Reported(outcome: Outcome)
    | NeverStarted   // cancelled before its first step: nothing runs, not even the finally block
    | Unreported     // a second interruption inside the cancellation handler

  /** Where a command task is suspended. */
  datatype Pc = Created | Spawning | Waiting | ReapingTimeout | ReapingCancel | Ended(end: End)

  datatype Execution = Execution(
    id: Uuid, claimedAt: nat, pc: Pc, emitted: seq<Frame>, spawned: nat, observed: Option<int>)

  /** What the connection loop is doing, as far as command frames are concerned. */
  datatype Phase =
    | Offline
    | Idle
    | Flushing
    | SendingHead(frame: Frame, delivered: bool)
    | Replaying(frames: seq<Frame>, next: nat, delivered: bool)
    | Stopped

  /** The protocol state, and the histories its properties speak of. */
  datatype State = State(
    book: Book<Frame>,
    outbox: seq<Frame>,
    execs: seq<Execution>,
    phase: Phase,
    ops: seq<Op<Frame>>,
    enqueued: seq<Frame>,
    popped: seq<Frame>,
    outboxCrossed: seq<Frame>,  // frames of the outbox that reached a socket, repeats included
    crossed: seq<Frame>)        // all frames that reached a socket

  const INIT := State(Empty(), [], [], Offline, [], [], [], [], [])

  datatype Step =
    | Connect | BeginFlush | ReadHead | Deliver | SendReturns | SendRaises | Receive(id: Uuid) | Stop
    | Start(e: nat) | SpawnReturns(e: nat) | SpawnRaises(e: nat)
    | Exit(e: nat, code: int) | Timeout(e: nat, killRaises: bool) | Reap(e: nat)
    | Cancel(e: nat, exited: bool, killRaises: bool)

  function IsTaskStep(step: Step): bool {
    step.Start? || step.SpawnReturns? || step.SpawnRaises? || step.Exit? || step.Timeout?
    || step.Reap? || step.Cancel?
  }

  // ----- Command tasks -----

  function OutcomeOf(code: int): Outcome {
    if code == 0 then Success else Failed(ExitCode(code))
  }

  function Emit(s: State, e: nat, kind: Kind): State
    requires e < |s.execs|
  {
    var x := s.execs[e];
    var f := Frame(e, x.id, kind);
    s.(execs := s.execs[e := x.(emitted := x.emitted + [f])],
       outbox := s.outbox + [f],
       enqueued := s.enqueued + [f])
  }

  function MoveTo(s: State, e: nat, pc: Pc): State
    requires e < |s.execs|
  {
    s.(execs := s.execs[e := s.execs[e].(pc := pc)])
  }

  /** The finally block: the registry records the frames emitted so far. */
  function Finish(s: State, e: nat, end: End, max: nat): State
    requires e < |s.execs|
  {
    var x := s.execs[e];
    MoveTo(s, e, Ended(end)).(
      book := Recorded(s.book, x.id, x.emitted, max),
      ops := s.ops + [CompleteOp(x.id, x.emitted)])
  }

  function Report(s: State, e: nat, outcome: Outcome, max: nat): State
    requires e < |s.execs|
  {
    Finish(Emit(s, e, Terminal(outcome)), e, Reported(outcome), max)
  }

  function ApplyTask(s: State, step: Step, max: nat): State
    requires IsTaskStep(step)
  {
    if step.e >= |s.execs| then s else
    var e, x := step.e, s.execs[step.e];
    match step
    case Start(_) =>
      if x.pc != Created then s else MoveTo(Emit(Emit(s, e, Ack), e, Running), e, Spawning)
    case SpawnReturns(_) =>
      if x.pc != Spawning then s
      else s.(execs := s.execs[e := x.(pc := Waiting, spawned := x.spawned + 1)])
    case SpawnRaises(_) =>
      if x.pc != Spawning then s else Report(s, e, Failed(HelperUnavailable), max)
    case Exit(_, code) =>
      if x.pc != Waiting then s
      else Report(s.(execs := s.execs[e := x.(observed := Some(code))]), e, OutcomeOf(code), max)
    case Timeout(_, killRaises) =>
      if x.pc != Waiting then s
      else if killRaises then Report(s, e, Failed(HelperUnavailable), max)
      else MoveTo(s, e, ReapingTimeout)
    case Reap(_) =>
      if x.pc == ReapingTimeout then Report(s, e, Failed(TimedOut), max)
      else if x.pc == ReapingCancel then Report(s, e, Failed(AgentStopped), max)
      else s
    case Cancel(_, exited, killRaises) =>
      if s.phase != Stopped then s
      else match x.pc
      case Created => MoveTo(s, e, Ended(NeverStarted))
      case Spawning => Report(s, e, Failed(AgentStopped), max)
      case Waiting => CancelHelper(s, e, exited, killRaises, max)
      case ReapingTimeout => CancelHelper(s, e, exited, killRaises, max)
      case ReapingCancel => Finish(s, e, Unreported, max)
      case Ended(_) => s
  }

  /** The cancellation handler when a helper process exists. */
  function CancelHelper(s: State, e: nat, exited: bool, killRaises: bool, max: nat): State
    requires e < |s.execs|
  {
    if exited then Report(s, e, Failed(AgentStopped), max)
    else if killRaises then Finish(s, e, Unreported, max)
    else MoveTo(s, e, ReapingCancel)
  }

  // ----- The connection loop -----

  function ReceiveExecute(s: State, id: Uuid): State {
    if id in s.book.frames then
      s.(phase := Replaying(s.book.frames[id], 0, false))
    else
      var t := s.(book := Claimed(s.book, id), ops := s.ops + [ClaimOp(id)]);
      if !Claimable(s.book, id) then t
      else t.(execs := s.execs + [Execution(id, |s.ops|, Created, [], 0, None)])
  }

  function ApplyLoop(s: State, step: Step): State
    requires !IsTaskStep(step)
  {
    if step.Stop? then s.(phase := Stopped) else
    match s.phase
    case Stopped => s
    case Offline => if step.Connect? then s.(phase := Idle) else s
    case Idle =>
      if step.BeginFlush? then s.(phase := Flushing)
      else if step.Receive? then ReceiveExecute(s, step.id)
      else if step.SendRaises? then s.(phase := Offline)
      else s
    case Flushing =>
      if !step.ReadHead? then s
      else if s.outbox == [] then s.(phase := Idle)
      else s.(phase := SendingHead(s.outbox[0], false))
    case SendingHead(frame, delivered) =>
      if step.Deliver? && !delivered then
        s.(phase := SendingHead(frame, true),
           outboxCrossed := s.outboxCrossed + [frame], crossed := s.crossed + [frame])
      else if step.SendReturns? && delivered then
        // popleft removes whatever is at the head by now
        if s.outbox == [] then s.(phase := Offline)
        else s.(phase := Flushing, outbox := s.outbox[1..], popped := s.popped + [s.outbox[0]])
      else if step.SendRaises? then s.(phase := Offline)
      else s
    case Replaying(frames, next, delivered) =>
      if next >= |frames| then s.(phase := Idle)
      else if step.Deliver? && !delivered then
        s.(phase := Replaying(frames, next, true), crossed := s.crossed + [frames[next]])
      else if step.SendReturns? && delivered then s.(phase := Replaying(frames, next + 1, false))
      else if step.SendRaises? then s.(phase := Offline)
      else s
  }

  /** One step; a step that is not enabled changes nothing. */
  function Apply(s: State, step: Step, max: nat): State {
    if IsTaskStep(step) then ApplyTask(s, step, max) else ApplyLoop(s, step)
  }

  function Run(steps: seq<Step>, max: nat): State {
    if steps == [] then INIT
    else Apply(Run(steps[..|steps| - 1], max), steps[|steps| - 1], max)
  }
}
