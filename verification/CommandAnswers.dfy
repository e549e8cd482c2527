/**
 What the dashboard is told of a command: each way an execution can go (agent/client/realtime.py:116-161),
 what a repeated command.execute gets (257-266), and that all of it arrives. Stated on what runs enqueue
 and deliver.
 */
module CommandAnswers {
  import opened Sequences
  import opened Registry
  import opened CommandProtocol
  import opened CommandInvariants
  import opened CommandSteps
  import opened CommandTheorems

  // ----- One execution -----

  /** Lifecycle frames of execution `e`, of these kinds. */
  function Frames(e: nat, id: Uuid, kinds: seq<Kind>): seq<Frame> {
    seq(|kinds|, i requires 0 <= i < |kinds| => Frame(e, id, kinds[i]))
  }

  /** Between `s` and `t` execution `e` enqueued frames of exactly these kinds, and went on to `pc`. */
  ghost predicate Answers(s: State, t: State, e: nat, kinds: seq<Kind>, pc: Pc) {
    && e < |s.execs| == |t.execs|
    && t.execs[e].id == s.execs[e].id && t.execs[e].pc == pc
    && (forall k | 0 <= k < |s.execs| && k != e :: t.execs[k] == s.execs[k])
    && t.enqueued == s.enqueued + Frames(e, s.execs[e].id, kinds)
    && t.outbox == s.outbox + Frames(e, s.execs[e].id, kinds)
    && t.phase == s.phase && t.popped == s.popped && t.crossed == s.crossed
  }

  /** The registry does not hear of it. */
  ghost predicate Unrecorded(s: State, t: State) {
    t.book == s.book && t.ops == s.ops
  }

  /** The registry has completed the execution: its frames are there to be replayed, and its id may not be
      claimed for as long as they are. */
  ghost predicate Completes(s: State, t: State, e: nat, max: nat) {
    && e < |t.execs|
    && t.ops == s.ops + [CompleteOp(t.execs[e].id, Project(t.enqueued, e))]
    && t.execs[e].id !in t.book.inflight
    && (max > 0 ==> t.execs[e].id in t.book.frames && t.book.frames[t.execs[e].id] == Project(t.enqueued, e))
  }

  lemma FramesOfTwo(e: nat, id: Uuid, a: Kind, b: Kind)
    ensures Frames(e, id, [a, b]) == [Frame(e, id, a), Frame(e, id, b)]
  {
  }

  lemma {:induction false} LastIsKept(order: seq<Uuid>, id: Uuid, max: nat)
    requires max > 0
    ensures id in LastN(order + [id], max)
  {
    var kept := LastN(order + [id], max);
    assert kept[|kept| - 1] == id;
  }

  /** A terminal frame, and the registry hears of it. */
  lemma ReportAnswers(s: State, e: nat, outcome: Outcome, max: nat)
    requires e < |s.execs|
    ensures var t := Report(s, e, outcome, max);
            && Answers(s, t, e, [Terminal(outcome)], Ended(Reported(outcome)))
            && t.ops == s.ops + [CompleteOp(s.execs[e].id, t.execs[e].emitted)]
            && s.execs[e].id !in t.book.inflight
            && (max > 0 ==> s.execs[e].id in t.book.frames && t.book.frames[s.execs[e].id] == t.execs[e].emitted)
  {
    var x := Report(s, e, outcome, max).execs[e];
    if max > 0 {
      LastIsKept(Remove(s.book.order, x.id), x.id, max);
    }
  }

  /** A started task announces the command: ACK and RUNNING. */
  lemma StartAnnounces(steps: seq<Step>, max: nat, e: nat)
    requires e < |Run(steps, max).execs| && Run(steps, max).execs[e].pc == Created
    ensures var s, t := Run(steps, max), Run(steps + [Start(e)], max);
            Answers(s, t, e, [Ack, Running], Spawning) && Unrecorded(s, t)
  {
    hide Run;
    RunAppend(steps, Start(e), max);
    OpeningAnswers(Run(steps, max), e);
  }

  lemma OpeningAnswers(s: State, e: nat)
    requires e < |s.execs|
    ensures var t := MoveTo(Emit(Emit(s, e, Ack), e, Running), e, Spawning);
            Answers(s, t, e, [Ack, Running], Spawning) && Unrecorded(s, t)
  {
    var id := s.execs[e].id;
    FramesOfTwo(e, id, Ack, Running);
    Associative(s.enqueued, [Frame(e, id, Ack)], [Frame(e, id, Running)]);
    Associative(s.outbox, [Frame(e, id, Ack)], [Frame(e, id, Running)]);
  }

  /** The helper was spawned: the task waits for it. */
  lemma SpawnWaits(steps: seq<Step>, max: nat, e: nat)
    requires e < |Run(steps, max).execs| && Run(steps, max).execs[e].pc == Spawning
    ensures var s, t := Run(steps, max), Run(steps + [SpawnReturns(e)], max);
            Answers(s, t, e, [], Waiting) && Unrecorded(s, t) && t.execs[e].spawned == s.execs[e].spawned + 1
  {
    hide Run;
    RunAppend(steps, SpawnReturns(e), max);
  }

  ghost predicate Reports(steps: seq<Step>, step: Step, max: nat, e: nat, outcome: Outcome) {
    var s, t := Run(steps, max), Run(steps + [step], max);
    Answers(s, t, e, [Terminal(outcome)], Ended(Reported(outcome))) && Completes(s, t, e, max)
  }

  lemma ReportReports(steps: seq<Step>, step: Step, max: nat, s: State, e: nat, outcome: Outcome)
    requires e < |Run(steps, max).execs| && s == Run(steps, max).(execs := s.execs)
    requires |s.execs| == |Run(steps, max).execs| && s.execs[e].id == Run(steps, max).execs[e].id
    requires forall k | 0 <= k < |s.execs| && k != e :: s.execs[k] == Run(steps, max).execs[k]
    requires Run(steps + [step], max) == Report(s, e, outcome, max)
    ensures Reports(steps, step, max, e, outcome)
  {
    hide Report, Run;
    ReportAnswers(s, e, outcome, max);
    RunInv(steps + [step], max);
  }

  /** The helper could not be spawned. */
  lemma SpawnFails(steps: seq<Step>, max: nat, e: nat)
    requires e < |Run(steps, max).execs| && Run(steps, max).execs[e].pc == Spawning
    ensures Reports(steps, SpawnRaises(e), max, e, Failed(HelperUnavailable))
  {
    RunAppend(steps, SpawnRaises(e), max);
    ReportReports(steps, SpawnRaises(e), max, Run(steps, max), e, Failed(HelperUnavailable));
  }

  /** The helper exited: SUCCESS for exit code 0, FAILED with the code for any other. */
  lemma ExitReports(steps: seq<Step>, max: nat, e: nat, code: int)
    requires e < |Run(steps, max).execs| && Run(steps, max).execs[e].pc == Waiting
    ensures Reports(steps, Exit(e, code), max, e, if code == 0 then Success else Failed(ExitCode(code)))
  {
    RunAppend(steps, Exit(e, code), max);
    var s := Run(steps, max);
    ReportReports(steps, Exit(e, code), max, s.(execs := s.execs[e := s.execs[e].(observed := Some(code))]), e,
                  if code == 0 then Success else Failed(ExitCode(code)));
  }

  lemma SuspendsQuietly(steps: seq<Step>, step: Step, max: nat, e: nat, pc: Pc)
    requires e < |Run(steps, max).execs| && Run(steps + [step], max) == MoveTo(Run(steps, max), e, pc)
    ensures Answers(Run(steps, max), Run(steps + [step], max), e, [], pc)
    ensures Unrecorded(Run(steps, max), Run(steps + [step], max))
  {
    hide Run;
  }

  /** The killed helper is gone. */
  lemma ReapReports(steps: seq<Step>, max: nat, e: nat)
    requires e < |Run(steps, max).execs|
    ensures Run(steps, max).execs[e].pc == ReapingTimeout ==> Reports(steps, Reap(e), max, e, Failed(TimedOut))
    ensures Run(steps, max).execs[e].pc == ReapingCancel ==> Reports(steps, Reap(e), max, e, Failed(AgentStopped))
  {
    hide Run, Report, Reports;
    RunAppend(steps, Reap(e), max);
    var s := Run(steps, max);
    if s.execs[e].pc == ReapingTimeout { ReportReports(steps, Reap(e), max, s, e, Failed(TimedOut)); }
    if s.execs[e].pc == ReapingCancel { ReportReports(steps, Reap(e), max, s, e, Failed(AgentStopped)); }
  }

  /** The helper ran too long: it is killed, waited for, and the timeout reported; if the kill raises, the
      helper counts as unavailable. */
  lemma TimeoutReports(steps: seq<Step>, max: nat, e: nat)
    requires e < |Run(steps, max).execs| && Run(steps, max).execs[e].pc == Waiting
    ensures Reports(steps, Timeout(e, true), max, e, Failed(HelperUnavailable))
    ensures var s, t := Run(steps, max), Run(steps + [Timeout(e, false)], max);
            Answers(s, t, e, [], ReapingTimeout) && Unrecorded(s, t)
    ensures Reports(steps + [Timeout(e, false)], Reap(e), max, e, Failed(TimedOut))
  {
    hide Run, Report, Reports, MoveTo;
    RunAppend(steps, Timeout(e, true), max);
    ReportReports(steps, Timeout(e, true), max, Run(steps, max), e, Failed(HelperUnavailable));
    RunAppend(steps, Timeout(e, false), max);
    SuspendsQuietly(steps, Timeout(e, false), max, e, ReapingTimeout);
    ReapReports(steps + [Timeout(e, false)], max, e);
  }

  /** A running task that is cancelled reports that the agent stopped: at once if no helper runs any more,
      otherwise when the killed one is gone. */
  lemma CancelReports(steps: seq<Step>, max: nat, e: nat, exited: bool, killRaises: bool)
    requires Run(steps, max).phase == Stopped && e < |Run(steps, max).execs|
    ensures var pc := Run(steps, max).execs[e].pc;
            pc == Spawning || ((pc == Waiting || pc == ReapingTimeout) && exited) ==>
              Reports(steps, Cancel(e, exited, killRaises), max, e, Failed(AgentStopped))
    ensures var s, t := Run(steps, max), Run(steps + [Cancel(e, false, false)], max);
            s.execs[e].pc == Waiting || s.execs[e].pc == ReapingTimeout ==>
              && Answers(s, t, e, [], ReapingCancel) && Unrecorded(s, t)
              && Reports(steps + [Cancel(e, false, false)], Reap(e), max, e, Failed(AgentStopped))
  {
    hide Run, Report, Reports, MoveTo;
    var s := Run(steps, max);
    var pc := s.execs[e].pc;
    var step := Cancel(e, exited, killRaises);
    if pc == Spawning || ((pc == Waiting || pc == ReapingTimeout) && exited) {
      RunAppend(steps, step, max);
      ReportReports(steps, step, max, s, e, Failed(AgentStopped));
    }
    if pc == Waiting || pc == ReapingTimeout {
      RunAppend(steps, Cancel(e, false, false), max);
      SuspendsQuietly(steps, Cancel(e, false, false), max, e, ReapingCancel);
      ReapReports(steps + [Cancel(e, false, false)], max, e);
    }
  }

  // ----- Which event brought which outcome -----

  /** The step ends execution `e` with this outcome. */
  ghost predicate Brings(s: State, step: Step, e: nat, outcome: Outcome) {
    && e < |s.execs| && IsTaskStep(step) && step.e == e
    && (var pc := s.execs[e].pc;
        match outcome
        case Success => step == Exit(e, 0) && pc == Waiting
        case Failed(ExitCode(code)) => step == Exit(e, code) && code != 0 && pc == Waiting
        case Failed(TimedOut) => step.Reap? && pc == ReapingTimeout
        case Failed(HelperUnavailable) =>
          (step.SpawnRaises? && pc == Spawning) || (step == Timeout(e, true) && pc == Waiting)
        case Failed(AgentStopped) =>
          || (step.Reap? && pc == ReapingCancel)
          || (step.Cancel? && s.phase == Stopped
              && (pc == Spawning || ((pc == Waiting || pc == ReapingTimeout) && step.exited))))
  }

  ghost predicate BroughtAt(steps: seq<Step>, max: nat, e: nat, outcome: Outcome, k: int) {
    0 <= k < |steps| && Brings(Run(steps[..k], max), steps[k], e, outcome)
  }

  lemma CancelBrings(s: State, step: Step, max: nat, outcome: Outcome)
    requires step.Cancel? && step.e < |s.execs|
    ensures ApplyTask(s, step, max).execs[step.e].pc == Ended(Reported(outcome))
       <==> s.execs[step.e].pc == Ended(Reported(outcome)) || Brings(s, step, step.e, outcome)
  {
    hide Registry.Recorded;
  }

  lemma OwnStepBrings(s: State, step: Step, max: nat, outcome: Outcome)
    requires IsTaskStep(step) && !step.Cancel? && step.e < |s.execs|
    ensures ApplyTask(s, step, max).execs[step.e].pc == Ended(Reported(outcome))
       <==> s.execs[step.e].pc == Ended(Reported(outcome)) || Brings(s, step, step.e, outcome)
  {
    hide Report;
    var e, x := step.e, s.execs[step.e];
    match step
    case SpawnRaises(_) => ReportEnds(s, e, Failed(HelperUnavailable), max);
    case Exit(_, code) =>
      ReportEnds(s.(execs := s.execs[e := x.(observed := Some(code))]), e, OutcomeOf(code), max);
    case Timeout(_, _) => ReportEnds(s, e, Failed(HelperUnavailable), max);
    case Reap(_) =>
      ReportEnds(s, e, Failed(TimedOut), max);
      ReportEnds(s, e, Failed(AgentStopped), max);
    case _ =>
  }

  lemma ReportEnds(s: State, e: nat, outcome: Outcome, max: nat)
    requires e < |s.execs|
    ensures var t := Report(s, e, outcome, max);
            |t.execs| == |s.execs| && t.execs[e].pc == Ended(Reported(outcome))
  {
  }

  lemma StepBrings(s: State, step: Step, max: nat, e: nat, outcome: Outcome)
    requires e < |s.execs|
    ensures var t := Apply(s, step, max);
            && e < |t.execs|
            && (t.execs[e].pc == Ended(Reported(outcome))
                <==> s.execs[e].pc == Ended(Reported(outcome)) || Brings(s, step, e, outcome))
  {
    if !IsTaskStep(step) || step.e != e {
      OthersUntouched(s, step, max, e);
    } else {
      TaskExtends(s, step, max);
      if step.Cancel? {
        CancelBrings(s, step, max, outcome);
      } else {
        OwnStepBrings(s, step, max, outcome);
      }
    }
  }

  lemma BroughtLater(steps: seq<Step>, max: nat, e: nat, outcome: Outcome)
    requires steps != []
    ensures var n := |steps| - 1;
            (exists k :: BroughtAt(steps, max, e, outcome, k))
            <==> (exists k :: BroughtAt(steps[..n], max, e, outcome, k)) || BroughtAt(steps, max, e, outcome, n)
  {
    var n := |steps| - 1;
    var front := steps[..n];
    forall k | 0 <= k < n
      ensures BroughtAt(front, max, e, outcome, k) <==> BroughtAt(steps, max, e, outcome, k)
    {
      assert front[..k] == steps[..k] && front[k] == steps[k];
    }
  }

  lemma {:induction false} EndedIffBrought(steps: seq<Step>, max: nat, e: nat, outcome: Outcome)
    requires e < |Run(steps, max).execs|
    ensures Run(steps, max).execs[e].pc == Ended(Reported(outcome))
       <==> exists k :: BroughtAt(steps, max, e, outcome, k)
  {
    var n := |steps| - 1;
    var s := Run(steps[..n], max);
    BroughtLater(steps, max, e, outcome);
    if e < |s.execs| {
      EndedIffBrought(steps[..n], max, e, outcome);
      StepBrings(s, steps[n], max, e, outcome);
    } else {
      NotYetCreated(steps, max, e);
      assert forall k :: !BroughtAt(steps, max, e, outcome, k);
    }
  }

  /** The third frame of a command says what happened to it: that outcome is there if and only if the event
      that means it took place. */
  lemma OutcomeIffCause(steps: seq<Step>, max: nat, e: nat, outcome: Outcome)
    requires e < |Run(steps, max).execs|
    ensures var trace := Project(Run(steps, max).enqueued, e);
            (|trace| == 3 && trace[2].kind == Terminal(outcome))
            <==> exists k :: BroughtAt(steps, max, e, outcome, k)
  {
    hide Run, OutboxOk, PhaseOk, RegistryOk, ClaimsOk, StopOk, Causal;
    RunInv(steps, max);
    EndedIffBrought(steps, max, e, outcome);
    assert ExecutionOk(e, Run(steps, max).execs[e]);
  }

  /** SUCCESS is reported if and only if the helper was waited for and exited with 0. */
  lemma SuccessIffExitZero(steps: seq<Step>, max: nat, e: nat)
    requires e < |Run(steps, max).execs|
    ensures var trace := Project(Run(steps, max).enqueued, e);
            (|trace| == 3 && trace[2].kind == Terminal(Success))
            <==> exists k :: 0 <= k < |steps| && steps[k] == Exit(e, 0)
                             && e < |Run(steps[..k], max).execs| && Run(steps[..k], max).execs[e].pc == Waiting
  {
    hide Run;
    OutcomeIffCause(steps, max, e, Success);
    forall k ensures BroughtAt(steps, max, e, Success, k)
                <==> 0 <= k < |steps| && steps[k] == Exit(e, 0)
                     && e < |Run(steps[..k], max).execs| && Run(steps[..k], max).execs[e].pc == Waiting
    {
    }
  }

  // ----- What a command.execute gets -----

  /** A command that is neither running nor remembered starts exactly one task. */
  lemma NewCommandStarts(steps: seq<Step>, max: nat, id: Uuid)
    requires var s := Run(steps, max);
             s.phase == Idle && id !in s.book.frames && id !in s.book.inflight
    ensures var s, t := Run(steps, max), Run(steps + [Receive(id)], max);
            var e := |s.execs|;
            && |t.execs| == e + 1 && t.execs[..e] == s.execs
            && t.execs[e].id == id && t.execs[e].pc == Created && Project(t.enqueued, e) == []
            && t.book == s.book.(inflight := s.book.inflight + {id})
            && t.phase == Idle && t.enqueued == s.enqueued && t.outbox == s.outbox && t.crossed == s.crossed
  {
    hide Run, Inv;
    RunAppend(steps, Receive(id), max);
    NothingYet(steps, max);
  }

  lemma NothingYet(steps: seq<Step>, max: nat)
    ensures Project(Run(steps, max).enqueued, |Run(steps, max).execs|) == []
  {
    RunInv(steps, max);
    ProjectFresh(Run(steps, max).enqueued, |Run(steps, max).execs|);
  }

  /** One that is in flight gets nothing, and no second task. */
  lemma CommandInFlightIsIgnored(steps: seq<Step>, max: nat, id: Uuid)
    requires Run(steps, max).phase == Idle && id in Run(steps, max).book.inflight
    ensures var s, t := Run(steps, max), Run(steps + [Receive(id)], max);
            t == s.(ops := t.ops)
  {
    RunAppend(steps, Receive(id), max);
    RunInv(steps, max);
    AfterWellFormed(Run(steps, max).ops, max);
  }

  /** The sends of a replay of `n` frames, none of them broken, and the loop going on. */
  function ReplaySends(n: nat): seq<Step> {
    if n == 0 then [BeginFlush] else [Deliver, SendReturns] + ReplaySends(n - 1)
  }

  lemma ReplayOne(steps: seq<Step>, max: nat, frames: seq<Frame>, i: nat)
    requires i < |frames| && Run(steps, max).phase == Replaying(frames, i, false)
    ensures var s := Run(steps, max);
            Run(steps + [Deliver, SendReturns], max)
            == s.(phase := Replaying(frames, i + 1, false), crossed := s.crossed + [frames[i]])
  {
    hide Run;
    RunAppend(steps, Deliver, max);
    RunAppend(steps + [Deliver], SendReturns, max);
    assert steps + [Deliver, SendReturns] == steps + [Deliver] + [SendReturns];
  }

  lemma ReplayEnds(steps: seq<Step>, max: nat, frames: seq<Frame>)
    requires Run(steps, max).phase == Replaying(frames, |frames|, false)
    ensures Run(steps + [BeginFlush], max) == Run(steps, max).(phase := Idle)
  {
    hide Run;
    RunAppend(steps, BeginFlush, max);
  }

  lemma {:induction false} ReplayDelivers(steps: seq<Step>, max: nat, frames: seq<Frame>, i: nat)
    requires i <= |frames| && Run(steps, max).phase == Replaying(frames, i, false)
    ensures var s := Run(steps, max);
            Run(steps + ReplaySends(|frames| - i), max) == s.(phase := Idle, crossed := s.crossed + frames[i..])
    decreases |frames| - i
  {
    hide Run, Apply;
    var s := Run(steps, max);
    if i == |frames| {
      ReplayEnds(steps, max, frames);
      assert s.crossed + frames[i..] == s.crossed;
    } else {
      var two := [Deliver, SendReturns];
      ReplayOne(steps, max, frames, i);
      ReplayDelivers(steps + two, max, frames, i + 1);
      Associative(steps, two, ReplaySends(|frames| - i - 1));
      assert frames[i..] == [frames[i]] + frames[i + 1..];
      Associative(s.crossed, [frames[i]], frames[i + 1..]);
    }
  }

  /** One that the registry remembers is not run again: exactly the frames of its latest execution are sent
      again, in order, and nothing else changes. */
  lemma ReplayAnswers(steps: seq<Step>, max: nat, id: Uuid) returns (e: nat)
    requires Run(steps, max).phase == Idle && id in Run(steps, max).book.frames
    ensures var s := Run(steps, max);
            && e < |s.execs| && s.execs[e].id == id && s.execs[e].pc.Ended?
            && (forall k | e < k < |s.execs| :: s.execs[k].id != id)
            && var trace := Project(s.enqueued, e);
               Run(steps + [Receive(id)] + ReplaySends(|trace|), max)
               == s.(phase := Idle, crossed := s.crossed + trace)
  {
    hide Run;
    var s := Run(steps, max);
    ReplayIsFaithful(steps, max, id);
    e :| e < |s.execs| && s.execs[e].id == id && s.execs[e].pc.Ended?
         && s.book.frames[id] == Project(s.enqueued, e)
         && forall k | e < k < |s.execs| :: s.execs[k].id != id;
    var trace := Project(s.enqueued, e);
    RunAppend(steps, Receive(id), max);
    ReplayDelivers(steps + [Receive(id)], max, trace, 0);
    assert trace[0..] == trace;
  }

  /** A broken connection takes nothing with it: outbox, tasks and registry are what they were, and the head of the
      outbox is still queued when it was being sent. */
  lemma BrokenConnectionKeepsAll(steps: seq<Step>, max: nat)
    requires var s := Run(steps, max);
             || s.phase == Idle || s.phase.SendingHead?
             || (s.phase.Replaying? && s.phase.next < |s.phase.frames|)
    ensures var s := Run(steps, max);
            && Run(steps + [SendRaises], max) == s.(phase := Offline)
            && (s.phase.SendingHead? ==> s.outbox != [] && s.outbox[0] == s.phase.frame)
  {
    hide Run;
    RunAppend(steps, SendRaises, max);
    if Run(steps, max).phase.SendingHead? {
      PopleftTakesTheSentFrame(steps, max);
    }
  }

  // ----- From the command to the dashboard -----

  /** A command that is received, runs and exits, and the flush behind it. */
  function WholeCommand(id: Uuid, e: nat, code: int, queued: nat): seq<Step> {
    [Receive(id), Start(e), SpawnReturns(e), Exit(e, code), BeginFlush] + Drain(queued + 3)
  }

  function WholeTrace(e: nat, id: Uuid, outcome: Outcome): seq<Frame> {
    [Frame(e, id, Ack), Frame(e, id, Running), Frame(e, id, Terminal(outcome))]
  }

  lemma RunsToItsEnd(steps: seq<Step>, max: nat, id: Uuid, code: int)
    requires var s := Run(steps, max);
             s.phase == Idle && id !in s.book.frames && id !in s.book.inflight
    ensures var s := Run(steps, max);
            var e, outcome := |s.execs|, if code == 0 then Success else Failed(ExitCode(code));
            var t := Run(steps + [Receive(id), Start(e), SpawnReturns(e), Exit(e, code)], max);
            && t.phase == Idle && t.crossed == s.crossed && t.outbox == s.outbox + WholeTrace(e, id, outcome)
            && Project(t.enqueued, e) == WholeTrace(e, id, outcome)
            && (max > 0 ==> id in t.book.frames && t.book.frames[id] == WholeTrace(e, id, outcome))
  {
    hide Run, Inv, Project;
    var s := Run(steps, max);
    var e, outcome := |s.execs|, if code == 0 then Success else Failed(ExitCode(code));
    var a := steps + [Receive(id)];
    NewCommandStarts(steps, max, id);
    StartAnnounces(a, max, e);
    SpawnWaits(a + [Start(e)], max, e);
    ExitReports(a + [Start(e)] + [SpawnReturns(e)], max, e, code);
    var all := a + [Start(e)] + [SpawnReturns(e)] + [Exit(e, code)];
    assert all == steps + [Receive(id), Start(e), SpawnReturns(e), Exit(e, code)];
    ThreeFrames(s.outbox, e, id, outcome);
    TraceOfThree(Run(a, max), Run(all, max), e, id, outcome);
  }

  lemma ThreeFrames(h: seq<Frame>, e: nat, id: Uuid, outcome: Outcome)
    ensures h + Frames(e, id, [Ack, Running]) + Frames(e, id, []) + Frames(e, id, [Terminal(outcome)])
         == h + WholeTrace(e, id, outcome)
  {
  }

  lemma TraceOfThree(s: State, t: State, e: nat, id: Uuid, outcome: Outcome)
    requires Project(s.enqueued, e) == []
    requires t.enqueued == s.enqueued + Frames(e, id, [Ack, Running]) + Frames(e, id, [])
                           + Frames(e, id, [Terminal(outcome)])
    ensures Project(t.enqueued, e) == WholeTrace(e, id, outcome)
  {
    hide Project;
    ThreeFrames(s.enqueued, e, id, outcome);
    var f := WholeTrace(e, id, outcome);
    assert s.enqueued + f == s.enqueued + [f[0]] + [f[1]] + [f[2]];
    ProjectAppend(s.enqueued, f[0], e);
    ProjectAppend(s.enqueued + [f[0]], f[1], e);
    ProjectAppend(s.enqueued + [f[0]] + [f[1]], f[2], e);
  }

  /** A new command that runs undisturbed brings the dashboard, behind whatever was queued, ACK, RUNNING and the
      outcome its exit code means; when the command is repeated, the same three frames come again. */
  lemma CommandIsAnswered(steps: seq<Step>, max: nat, id: Uuid, code: int)
    requires var s := Run(steps, max);
             s.phase == Idle && id !in s.book.frames && id !in s.book.inflight
    ensures var s := Run(steps, max);
            var e, outcome := |s.execs|, if code == 0 then Success else Failed(ExitCode(code));
            var answered := steps + WholeCommand(id, e, code, |s.outbox|);
            var t := Run(answered, max);
            && t.phase == Idle && t.outbox == []
            && t.crossed == s.crossed + s.outbox + WholeTrace(e, id, outcome)
            && (max > 0 ==> Run(answered + [Receive(id)] + ReplaySends(3), max)
                            == t.(crossed := t.crossed + WholeTrace(e, id, outcome)))
  {
    hide Run, Drain;
    var s := Run(steps, max);
    var e, outcome := |s.execs|, if code == 0 then Success else Failed(ExitCode(code));
    var trace := WholeTrace(e, id, outcome);
    RunsToItsEnd(steps, max, id, code);
    var ran := steps + [Receive(id), Start(e), SpawnReturns(e), Exit(e, code)];
    RunAppend(ran, BeginFlush, max);
    DrainDelivers(ran + [BeginFlush], max, |s.outbox| + 3);
    var answered := steps + WholeCommand(id, e, code, |s.outbox|);
    assert ran + [BeginFlush] + Drain(|s.outbox| + 3) == answered;
    Associative(s.crossed, s.outbox, trace);
    if max > 0 {
      RunAppend(answered, Receive(id), max);
      ReplayDelivers(answered + [Receive(id)], max, trace, 0);
      assert trace[0..] == trace;
    }
  }

  // ----- The ids in flight -----

  /** Every id in flight belongs to an execution that is not over, or never started. */
  ghost predicate InFlightOk(s: State) {
    forall id | id in s.book.inflight :: exists e :: HoldsId(s, e, id)
  }

  ghost predicate HoldsId(s: State, e: int, id: Uuid) {
    0 <= e < |s.execs| && s.execs[e].id == id && Holding(s.execs[e].pc)
  }

  /** A task step keeps the id of its execution in flight as long as that holds it, and no other. */
  lemma TaskHolds(s: State, step: Step, max: nat)
    requires IsTaskStep(step) && step.e < |s.execs|
    ensures var t := ApplyTask(s, step, max);
            && t.execs[step.e].id == s.execs[step.e].id
            && t.book.inflight <= s.book.inflight
            && (s.execs[step.e].id in t.book.inflight && Holding(s.execs[step.e].pc) ==> Holding(t.execs[step.e].pc))
  {
    hide Report, Finish;
    var e, x := step.e, s.execs[step.e];
    forall outcome { ReportReleases(s, e, outcome, max); }
    FinishReleases(s, e, Unreported, max);
    if step.Exit? {
      ReportReleases(s.(execs := s.execs[e := x.(observed := Some(step.code))]), e, OutcomeOf(step.code), max);
    }
  }

  lemma FinishReleases(s: State, e: nat, end: End, max: nat)
    requires e < |s.execs|
    ensures var t := Finish(s, e, end, max);
            && |t.execs| == |s.execs| && t.execs[e].id == s.execs[e].id
            && t.book.inflight == s.book.inflight - {s.execs[e].id}
  {
  }

  lemma ReportReleases(s: State, e: nat, outcome: Outcome, max: nat)
    requires e < |s.execs|
    ensures var t := Report(s, e, outcome, max);
            && |t.execs| == |s.execs| && t.execs[e].id == s.execs[e].id
            && t.book.inflight == s.book.inflight - {s.execs[e].id}
  {
    hide Finish;
    FinishReleases(Emit(s, e, Terminal(outcome)), e, Reported(outcome), max);
  }

  lemma StepInFlight(s: State, step: Step, max: nat)
    requires InFlightOk(s)
    ensures InFlightOk(Apply(s, step, max))
  {
    var t := Apply(s, step, max);
    if IsTaskStep(step) {
      TaskExtends(s, step, max);
      if step.e < |s.execs| { TaskHolds(s, step, max); }
    } else {
      LoopExtends(s, step);
    }
    forall id | id in t.book.inflight ensures exists e :: HoldsId(t, e, id) {
      if id in s.book.inflight {
        var e :| HoldsId(s, e, id);
        assert HoldsId(t, e, id);
      } else {
        assert HoldsId(t, |s.execs|, id);
      }
    }
  }

  lemma {:induction false} RunInFlight(steps: seq<Step>, max: nat)
    ensures InFlightOk(Run(steps, max))
  {
    if steps != [] {
      RunInFlight(steps[..|steps| - 1], max);
      StepInFlight(Run(steps[..|steps| - 1], max), steps[|steps| - 1], max);
    }
  }

  /** Over every run the ids in flight are exactly those of the executions that are not over, or never started:
      any other id is either replayed or can be claimed. */
  lemma InFlightIffHeld(steps: seq<Step>, max: nat, id: Uuid)
    ensures var s := Run(steps, max);
            id in s.book.inflight
            <==> exists e :: 0 <= e < |s.execs| && s.execs[e].id == id && Holding(s.execs[e].pc)
  {
    RunInv(steps, max);
    RunInFlight(steps, max);
    var s := Run(steps, max);
    if id in s.book.inflight {
      var e :| HoldsId(s, e, id);
    }
  }
}
