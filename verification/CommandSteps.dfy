/** Preservation of the command invariant by every step, and hence over every run. */
module CommandSteps {
  import opened Sequences
  import opened Registry
  import opened CommandProtocol
  import opened CommandInvariants

  /** The parts of the invariant that also hold between the emission and the bookkeeping of one step. */
  ghost predicate Rest(s: State, max: nat) {
    Traced(s.enqueued, s.execs) && OutboxOk(s) && PhaseOk(s) && RegistryOk(s, max) && ClaimsOk(s, max)
  }

  // ----- Registry bookkeeping -----

  lemma AfterAppend(ops: seq<Op<Frame>>, op: Op<Frame>, max: nat)
    ensures After(ops + [op], max) == ApplyOp(After(ops, max), op, max)
  {
    assert (ops + [op])[..|ops|] == ops;
  }

  lemma ClaimsAppend(s: State, op: Op<Frame>, max: nat)
    requires ClaimsOk(s, max)
    ensures ClaimsOk(s.(ops := s.ops + [op]), max)
  {
    var s' := s.(ops := s.ops + [op]);
    forall e | 0 <= e < |s.execs|
      ensures ClaimsAt(s'.ops, s'.execs[e].claimedAt, s'.execs[e].id, max)
    {
      var c := s.execs[e].claimedAt;
      assert s'.ops[..c] == s.ops[..c];
    }
  }

  // ----- Primitive changes -----

  /** Changing an execution without touching its identity, its frames or its hold on the id. */
  ghost predicate SameFrames(x: Execution, y: Execution) {
    x.id == y.id && x.claimedAt == y.claimedAt && x.emitted == y.emitted && Holding(x.pc) == Holding(y.pc)
  }

  lemma TouchRest(s: State, e: nat, y: Execution, max: nat)
    requires Rest(s, max) && e < |s.execs| && SameFrames(s.execs[e], y)
    ensures Rest(s.(execs := s.execs[e := y]), max)
  {
    var s' := s.(execs := s.execs[e := y]);
    assert forall k | 0 <= k < |s.execs| :: SameFrames(s.execs[k], s'.execs[k]);
    LatestKept(s, s', max);
  }

  lemma LatestKept(s: State, s': State, max: nat)
    requires RegistryOk(s, max) && |s'.execs| == |s.execs|
    requires forall k | 0 <= k < |s.execs| ::
               && s.execs[k].id == s'.execs[k].id
               && Holding(s.execs[k].pc) == Holding(s'.execs[k].pc)
               && (Holding(s.execs[k].pc) || s.execs[k].emitted == s'.execs[k].emitted)
    requires s'.book == s.book && s'.ops == s.ops
    ensures RegistryOk(s', max)
  {
    forall id | id in s.book.frames
      ensures exists e :: LatestOf(s'.execs, e, id, s'.book.frames[id])
    {
      var e: nat :| LatestOf(s.execs, e, id, s.book.frames[id]);
      assert LatestOf(s'.execs, e, id, s'.book.frames[id]);
    }
  }

  lemma EmitRest(s: State, e: nat, kind: Kind, max: nat)
    requires Rest(s, max) && e < |s.execs| && Holding(s.execs[e].pc)
    requires var f := Frame(e, s.execs[e].id, kind);
             f !in s.execs[e].emitted && forall g | g in Earlier(f) :: g in s.execs[e].emitted
    ensures Rest(Emit(s, e, kind), max)
  {
    EmitTraced(s, e, kind);
    EmitOutbox(s, e, kind);
    EmitRegistry(s, e, kind, max);
  }

  lemma EmitRegistry(s: State, e: nat, kind: Kind, max: nat)
    requires RegistryOk(s, max) && e < |s.execs| && Holding(s.execs[e].pc)
    ensures RegistryOk(Emit(s, e, kind), max)
  {
    LatestKept(s, Emit(s, e, kind), max);
  }

  lemma FinishRegistry(s: State, e: nat, end: End, max: nat)
    requires RegistryOk(s, max) && e < |s.execs| && Holding(s.execs[e].pc) && end != NeverStarted
    ensures RegistryOk(Finish(s, e, end, max), max)
  {
    var s' := Finish(s, e, end, max);
    var x := s.execs[e];
    AfterAppend(s.ops, CompleteOp(x.id, x.emitted), max);
    forall id | id in s'.book.frames
      ensures exists k :: LatestOf(s'.execs, k, id, s'.book.frames[id])
    {
      if id == x.id {
        assert LatestOf(s'.execs, e, id, s'.book.frames[id]);
      } else {
        var k: nat :| LatestOf(s.execs, k, id, s.book.frames[id]);
        assert LatestOf(s'.execs, k, id, s'.book.frames[id]);
      }
    }
    forall k | 0 <= k < |s.execs| && Holding(s'.execs[k].pc)
      ensures s'.execs[k].id in s'.book.inflight
    {
      assert k != e;
      assert s.execs[k].id != x.id;
    }
  }

  lemma FinishRest(s: State, e: nat, end: End, max: nat)
    requires Rest(s, max) && e < |s.execs| && Holding(s.execs[e].pc) && end != NeverStarted
    ensures Rest(Finish(s, e, end, max), max)
  {
    FinishRegistry(s, e, end, max);
    ClaimsAppend(s, CompleteOp(s.execs[e].id, s.execs[e].emitted), max);
  }

  lemma ReportRest(s: State, e: nat, outcome: Outcome, max: nat)
    requires Rest(s, max) && e < |s.execs| && Holding(s.execs[e].pc)
    requires s.execs[e].emitted == Lifecycle(e, s.execs[e].id, Waiting)
    ensures Rest(Report(s, e, outcome, max), max)
  {
    EmitRest(s, e, Terminal(outcome), max);
    FinishRest(Emit(s, e, Terminal(outcome)), e, Reported(outcome), max);
  }

  // ----- Task steps -----

  lemma StartRest(s: State, e: nat, max: nat)
    requires Inv(s, max) && e < |s.execs| && s.execs[e].pc == Created
    ensures Rest(ApplyTask(s, Start(e), max), max)
  {
    EmitRest(s, e, Ack, max);
    EmitRest(Emit(s, e, Ack), e, Running, max);
    var t := Emit(Emit(s, e, Ack), e, Running);
    TouchRest(t, e, t.execs[e].(pc := Spawning), max);
  }

  lemma ExitRest(s: State, e: nat, code: int, max: nat)
    requires Inv(s, max) && e < |s.execs| && s.execs[e].pc == Waiting
    ensures Rest(ApplyTask(s, Exit(e, code), max), max)
  {
    var x := s.execs[e];
    assert ExecutionOk(e, x);
    TouchRest(s, e, x.(observed := Some(code)), max);
    ReportRest(s.(execs := s.execs[e := x.(observed := Some(code))]), e, OutcomeOf(code), max);
  }

  lemma TaskRest(s: State, step: Step, max: nat)
    requires Inv(s, max) && IsTaskStep(step)
    ensures Rest(ApplyTask(s, step, max), max)
  {
    if step.e < |s.execs| {
      match step
      case Start(e) =>
        if s.execs[e].pc == Created { StartRest(s, e, max); }
      case SpawnReturns(e) => SpawnRest(s, step, max);
      case SpawnRaises(e) => SpawnRest(s, step, max);
      case Exit(e, code) =>
        if s.execs[e].pc == Waiting { ExitRest(s, e, code, max); }
      case Timeout(_, _) => TimeoutRest(s, step, max);
      case Reap(_) => TimeoutRest(s, step, max);
      case Cancel(_, _, _) => CancelRest(s, step, max);
    }
  }

  lemma SpawnRest(s: State, step: Step, max: nat)
    requires Inv(s, max) && (step.SpawnReturns? || step.SpawnRaises?) && step.e < |s.execs|
    ensures Rest(ApplyTask(s, step, max), max)
  {
    var e, x := step.e, s.execs[step.e];
    assert ExecutionOk(e, x);
    if x.pc == Spawning {
      if step.SpawnReturns? {
        var y := x.(pc := Waiting, spawned := x.spawned + 1);
        TouchRest(s, e, y, max);
        assert ApplyTask(s, step, max) == s.(execs := s.execs[e := y]);
      } else {
        ReportRest(s, e, Failed(HelperUnavailable), max);
        assert ApplyTask(s, step, max) == Report(s, e, Failed(HelperUnavailable), max);
      }
    } else {
      assert ApplyTask(s, step, max) == s;
    }
  }

  lemma TimeoutRest(s: State, step: Step, max: nat)
    requires Inv(s, max) && (step.Timeout? || step.Reap?) && step.e < |s.execs|
    ensures Rest(ApplyTask(s, step, max), max)
  {
    var e, x := step.e, s.execs[step.e];
    assert ExecutionOk(e, x);
    if step.Timeout? && x.pc == Waiting {
      if step.killRaises { ReportRest(s, e, Failed(HelperUnavailable), max); }
      else { TouchRest(s, e, x.(pc := ReapingTimeout), max); }
    } else if step.Reap? && x.pc == ReapingTimeout {
      ReportRest(s, e, Failed(TimedOut), max);
    } else if step.Reap? && x.pc == ReapingCancel {
      ReportRest(s, e, Failed(AgentStopped), max);
    }
  }

  lemma CancelRest(s: State, step: Step, max: nat)
    requires Inv(s, max) && step.Cancel? && step.e < |s.execs|
    ensures Rest(ApplyTask(s, step, max), max)
  {
    hide Report, Finish, Traced, OutboxOk, PhaseOk, RegistryOk, ClaimsOk;
    var e, x := step.e, s.execs[step.e];
    assert ExecutionOk(e, x);
    if s.phase == Stopped {
      match x.pc
      case Created => TouchRest(s, e, x.(pc := Ended(NeverStarted)), max);
      case Spawning => ReportRest(s, e, Failed(AgentStopped), max);
      case ReapingCancel => FinishRest(s, e, Unreported, max);
      case Ended(_) =>
      case _ =>
        if step.exited { ReportRest(s, e, Failed(AgentStopped), max); }
        else if step.killRaises { FinishRest(s, e, Unreported, max); }
        else { TouchRest(s, e, x.(pc := ReapingCancel), max); }
    }
  }

  lemma ReportExecution(s: State, e: nat, outcome: Outcome, max: nat)
    requires e < |s.execs|
    requires var x := s.execs[e];
             && x.emitted == Lifecycle(e, x.id, Waiting) && x.spawned <= 1
             && (if x.observed.Some? then outcome == OutcomeOf(x.observed.value) else !FromExit(outcome))
    ensures var s' := Report(s, e, outcome, max);
            && s'.execs == s.execs[e := s'.execs[e]]
            && ExecutionOk(e, s'.execs[e])
            && s'.execs[e].pc == Ended(Reported(outcome))
  {
  }

  /** The execution that takes a task step, as it stands afterwards. */
  lemma TaskExecution(s: State, step: Step, max: nat)
    requires IsTaskStep(step) && step.e < |s.execs| && ExecutionOk(step.e, s.execs[step.e])
    ensures var s' := ApplyTask(s, step, max);
            && s'.execs == s.execs[step.e := s'.execs[step.e]]
            && ExecutionOk(step.e, s'.execs[step.e])
            && (AboutStop(s'.execs[step.e]) ==> AboutStop(s.execs[step.e]) || s.phase == Stopped)
  {
    var e, x := step.e, s.execs[step.e];
    match step
    case SpawnRaises(_) =>
      if x.pc == Spawning { ReportExecution(s, e, Failed(HelperUnavailable), max); }
    case Exit(_, code) =>
      if x.pc == Waiting {
        ReportExecution(s.(execs := s.execs[e := x.(observed := Some(code))]), e, OutcomeOf(code), max);
      }
    case Timeout(_, killRaises) =>
      if x.pc == Waiting && killRaises { ReportExecution(s, e, Failed(HelperUnavailable), max); }
    case Reap(_) =>
      if x.pc == ReapingTimeout { ReportExecution(s, e, Failed(TimedOut), max); }
      else if x.pc == ReapingCancel { ReportExecution(s, e, Failed(AgentStopped), max); }
    case Cancel(_, _, _) => CancelExecution(s, step, max);
    case _ =>
  }

  lemma CancelExecution(s: State, step: Step, max: nat)
    requires step.Cancel? && step.e < |s.execs| && ExecutionOk(step.e, s.execs[step.e])
    ensures var s' := ApplyTask(s, step, max);
            && s'.execs == s.execs[step.e := s'.execs[step.e]]
            && ExecutionOk(step.e, s'.execs[step.e])
            && (AboutStop(s'.execs[step.e]) ==> AboutStop(s.execs[step.e]) || s.phase == Stopped)
  {
    var e, x := step.e, s.execs[step.e];
    if x.pc == Spawning || x.pc == Waiting || x.pc == ReapingTimeout {
      ReportExecution(s, e, Failed(AgentStopped), max);
    }
  }

  lemma TaskStaysInside(s: State, step: Step, max: nat)
    requires IsTaskStep(step)
    ensures var s' := ApplyTask(s, step, max);
            && s'.phase == s.phase && s'.crossed == s.crossed
            && (step.e >= |s.execs| ==> s' == s)
  {
  }

  lemma {:induction false} TaskExecutions(s: State, step: Step, max: nat)
    requires ExecutionsOk(s.execs) && StopOk(s) && IsTaskStep(step)
    ensures ExecutionsOk(ApplyTask(s, step, max).execs)
    ensures StopOk(ApplyTask(s, step, max))
  {
    hide ExecutionOk, ApplyTask;
    TaskStaysInside(s, step, max);
    if step.e < |s.execs| {
      var s' := ApplyTask(s, step, max);
      TaskExecution(s, step, max);
      forall k | 0 <= k < |s'.execs| ensures ExecutionOk(k, s'.execs[k]) {
        assert ExecutionOk(k, s.execs[k]);
      }
    }
  }

  // ----- Loop steps -----

  lemma ReceiveInv(s: State, id: Uuid, max: nat)
    requires Inv(s, max) && s.phase == Idle
    ensures Inv(ReceiveExecute(s, id), max)
  {
    if id in s.book.frames {
      ReplayIsCausal(s, id, max);
    } else {
      AfterAppend(s.ops, ClaimOp(id), max);
      ClaimsAppend(s, ClaimOp(id), max);
      assert (s.ops + [ClaimOp(id)])[..|s.ops|] == s.ops;
      if Claimable(s.book, id) {
        ClaimCreates(s, id, max);
      } else {
        LatestKeptByClaim(s, id, max);
      }
    }
  }

  lemma LifecycleCausal(e: nat, id: Uuid, pc: Pc)
    ensures Causal(Lifecycle(e, id, pc))
  {
    var ack, running := Frame(e, id, Ack), Frame(e, id, Running);
    assert [] + [ack] == [ack] && [ack] + [running] == [ack, running];
    CausalAppend([], ack);
    CausalAppend([ack], running);
    if pc.Ended? && pc.end.Reported? {
      CausalAppend([ack, running], Frame(e, id, Terminal(pc.end.outcome)));
    }
  }

  lemma EmittedIsEnqueued(s: State, e: nat, f: Frame)
    requires Traced(s.enqueued, s.execs) && e < |s.execs| && ExecutionOk(e, s.execs[e])
    requires f in s.execs[e].emitted
    ensures f in s.enqueued
  {
    assert f.exec == e;
    InProject(s.enqueued, f);
  }

  lemma ReplayIsCausal(s: State, id: Uuid, max: nat)
    requires Inv(s, max) && id in s.book.frames
    ensures Causal(s.book.frames[id])
    ensures forall f | f in s.book.frames[id] :: f in s.enqueued
  {
    var e: nat :| LatestOf(s.execs, e, id, s.book.frames[id]);
    assert ExecutionOk(e, s.execs[e]);
    LifecycleCausal(e, id, s.execs[e].pc);
    forall f | f in s.book.frames[id] ensures f in s.enqueued {
      EmittedIsEnqueued(s, e, f);
    }
  }

  lemma LatestKeptByClaim(s: State, id: Uuid, max: nat)
    requires RegistryOk(s, max) && After(s.ops + [ClaimOp(id)], max) == Claimed(s.book, id)
    requires !Claimable(s.book, id)
    ensures RegistryOk(s.(book := Claimed(s.book, id), ops := s.ops + [ClaimOp(id)]), max)
  {
  }

  lemma ClaimCreates(s: State, id: Uuid, max: nat)
    requires Inv(s, max) && s.phase == Idle && Claimable(s.book, id)
    requires After(s.ops + [ClaimOp(id)], max) == Claimed(s.book, id)
    requires (s.ops + [ClaimOp(id)])[..|s.ops|] == s.ops
    requires ClaimsOk(s.(ops := s.ops + [ClaimOp(id)]), max)
    ensures Inv(ReceiveExecute(s, id), max)
  {
    var s' := ReceiveExecute(s, id);
    var n := |s.execs|;
    assert s'.execs == s.execs + [s'.execs[n]];
    CreatedIsTraced(s, s'.execs[n]);
    ClaimRegistry(s, id, max);
    CreatedIsClaimed(s, s'.execs[n], max);
    assert OutboxOk(s') && PhaseOk(s') && StopOk(s');
  }

  lemma CreatedIsTraced(s: State, x: Execution)
    requires ExecutionsOk(s.execs) && Traced(s.enqueued, s.execs)
    requires x.pc == Created && x.emitted == [] && x.spawned == 0 && x.observed == None
    ensures ExecutionsOk(s.execs + [x]) && Traced(s.enqueued, s.execs + [x])
  {
    ProjectFresh(s.enqueued, |s.execs|);
  }

  lemma CreatedIsClaimed(s: State, x: Execution, max: nat)
    requires Claimable(s.book, x.id) && x.claimedAt == |s.ops| && s.book == After(s.ops, max)
    requires ClaimsOk(s, max) && ClaimsOk(s.(ops := s.ops + [ClaimOp(x.id)]), max)
    ensures ClaimsOk(s.(ops := s.ops + [ClaimOp(x.id)], execs := s.execs + [x]), max)
  {
    assert (s.ops + [ClaimOp(x.id)])[..|s.ops|] == s.ops;
    assert ClaimsAt(s.ops + [ClaimOp(x.id)], |s.ops|, x.id, max);
  }

  lemma ClaimRegistry(s: State, id: Uuid, max: nat)
    requires RegistryOk(s, max) && s.phase == Idle && Claimable(s.book, id)
    requires After(s.ops + [ClaimOp(id)], max) == Claimed(s.book, id)
    ensures RegistryOk(ReceiveExecute(s, id), max)
  {
    var s' := ReceiveExecute(s, id);
    assert forall e | 0 <= e < |s.execs| :: s'.execs[e] == s.execs[e];
    forall done | done in s'.book.frames
      ensures exists e :: LatestOf(s'.execs, e, done, s'.book.frames[done])
    {
      var e: nat :| LatestOf(s.execs, e, done, s.book.frames[done]);
      assert LatestOf(s'.execs, e, done, s'.book.frames[done]);
    }
  }

  /** The head of the outbox reaches the socket: only the head may repeat what crossed last. */
  lemma DeliverHead(s: State, max: nat)
    requires Inv(s, max) && s.phase.SendingHead? && !s.phase.delivered
    ensures Inv(ApplyLoop(s, Deliver), max)
  {
    var s', f := ApplyLoop(s, Deliver), s.phase.frame;
    HeadCrosses(s, max);
    HeadIsNext(s, max);
    NotAboutStop(s, f, max);
    assert OutboxOk(s') && PhaseOk(s');
    RegistryKept(s, s', max);
  }

  lemma HeadCrosses(s: State, max: nat)
    requires Inv(s, max) && s.phase.SendingHead? && !s.phase.delivered
    ensures Causal(s.crossed + [s.phase.frame]) && s.phase.frame in s.enqueued
  {
    var f, n := s.phase.frame, |s.popped|;
    assert s.enqueued[n] == f && s.enqueued[..n] == s.popped;
    forall g | g in Earlier(f) ensures g in s.crossed {
      assert g in s.enqueued[..n];
    }
    CausalAppend(s.crossed, f);
  }

  lemma HeadIsNext(s: State, max: nat)
    requires Inv(s, max) && s.phase.SendingHead?
    ensures Destutter(s.outboxCrossed + [s.phase.frame]) == s.popped + [s.phase.frame]
  {
    DestutterAppend(s.outboxCrossed, s.phase.frame);
    HeadIsFresh(s, max);
  }

  lemma HeadIsFresh(s: State, max: nat)
    requires Inv(s, max) && s.outbox != []
    ensures s.outbox[0] !in s.popped
  {
    var n := |s.popped|;
    assert s.enqueued[n] == s.outbox[0];
    assert forall i | 0 <= i < n :: s.enqueued[i] == s.popped[i];
  }

  lemma NotAboutStop(s: State, f: Frame, max: nat)
    requires Inv(s, max) && s.phase != Stopped && f in s.enqueued
    ensures f.kind != Terminal(Failed(AgentStopped))
  {
    InProject(s.enqueued, f);
    assert f in s.execs[f.exec].emitted;
    assert ExecutionOk(f.exec, s.execs[f.exec]);
    assert !AboutStop(s.execs[f.exec]);
  }

  lemma DeliverReplay(s: State, max: nat)
    requires Inv(s, max) && s.phase.Replaying? && !s.phase.delivered && s.phase.next < |s.phase.frames|
    ensures Inv(ApplyLoop(s, Deliver), max)
  {
    var frames, next := s.phase.frames, s.phase.next;
    var f := frames[next];
    forall g | g in Earlier(f) ensures g in s.crossed {
      assert g in frames[..next];
    }
    CausalAppend(s.crossed, f);
    NotAboutStop(s, f, max);
  }

  lemma {:induction false} PopHead(s: State, max: nat)
    requires Inv(s, max) && s.phase.SendingHead? && s.phase.delivered
    ensures Inv(ApplyLoop(s, SendReturns), max)
    ensures ApplyLoop(s, SendReturns).popped == s.popped + [s.phase.frame]
  {
    var s' := ApplyLoop(s, SendReturns);
    assert s.outbox == [s.outbox[0]] + s'.outbox;
    assert s'.enqueued == s'.popped + s'.outbox;
    assert s.phase.frame in s.crossed by {
      assert s.outboxCrossed != [];
      var last := s.outboxCrossed[|s.outboxCrossed| - 1];
      var d := Destutter(s.outboxCrossed);
      assert d[|d| - 1] == last;
    }
  }

  lemma LoopInv(s: State, step: Step, max: nat)
    requires Inv(s, max) && !IsTaskStep(step)
    ensures Inv(ApplyLoop(s, step), max)
  {
    hide ExecutionsOk, Traced, OutboxOk, RegistryOk, ClaimsOk, StopOk;
    var s' := ApplyLoop(s, step);
    if step.Receive? && s.phase == Idle {
      ReceiveInv(s, step.id, max);
    } else if step.Deliver? && s.phase.SendingHead? && !s.phase.delivered {
      DeliverHead(s, max);
    } else if step.Deliver? && s.phase.Replaying? && !s.phase.delivered && s.phase.next < |s.phase.frames| {
      DeliverReplay(s, max);
    } else if step.SendReturns? && s.phase.SendingHead? && s.phase.delivered {
      PopHead(s, max);
    } else if step.SendReturns? && s.phase.Replaying? && s.phase.delivered {
      assert s.phase.next < |s.phase.frames| ==> s.phase.frames[s.phase.next] in s.crossed;
      assert s' == s.(phase := s'.phase) && PhaseOk(s');
      PhaseInv(s, s'.phase, max);
    } else {
      assert s' == s.(phase := s'.phase) && PhaseOk(s');
      PhaseInv(s, s'.phase, max);
    }
  }

  lemma PhaseInv(s: State, phase: Phase, max: nat)
    requires Inv(s, max) && PhaseOk(s.(phase := phase)) && (s.phase == Stopped ==> phase == Stopped)
    ensures Inv(s.(phase := phase), max)
  {
    RegistryKept(s, s.(phase := phase), max);
  }

  /** Nothing the registry is compared with has changed. */
  lemma RegistryKept(s: State, s': State, max: nat)
    requires RegistryOk(s, max) && ClaimsOk(s, max)
    requires s'.book == s.book && s'.ops == s.ops && s'.execs == s.execs
    ensures RegistryOk(s', max) && ClaimsOk(s', max)
  {
  }

  // ----- Every run -----

  lemma {:induction false} RunInv(steps: seq<Step>, max: nat)
    ensures Inv(Run(steps, max), max)
  {
    if steps != [] {
      var front, step := steps[..|steps| - 1], steps[|steps| - 1];
      RunInv(front, max);
      var s := Run(front, max);
      if IsTaskStep(step) {
        TaskRest(s, step, max);
        TaskExecutions(s, step, max);
      } else {
        LoopInv(s, step, max);
      }
    }
  }
}
