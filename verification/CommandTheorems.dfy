/** What every run of the command protocol guarantees. */
module CommandTheorems {
  import opened Sequences
  import opened Registry
  import opened CommandProtocol
  import opened CommandInvariants
  import opened CommandSteps

  /** Over every interleaving, a frame reaches a socket only after every earlier frame of
      its execution has: ACK, then RUNNING, then the terminal result. */
  lemma CausalDelivery(steps: seq<Step>, max: nat)
    ensures var crossed := Run(steps, max).crossed;
            forall i, f | 0 <= i < |crossed| && f in Earlier(crossed[i]) :: f in crossed[..i]
  {
    RunInv(steps, max);
  }

  /** Frames are neither lost nor reordered nor dropped undelivered: what the flush removed and
      what is still queued make up all that was enqueued, and what reached sockets from the
      outbox is a prefix of it, repeating at most the frame whose send broke. */
  lemma OutboxConservation(steps: seq<Step>, max: nat)
    ensures var s := Run(steps, max);
            && s.enqueued == s.popped + s.outbox
            && s.popped <= Destutter(s.outboxCrossed) <= s.enqueued
            && |Destutter(s.outboxCrossed)| <= |s.popped| + 1
  {
    RunInv(steps, max);
    OutboxIsAPrefix(Run(steps, max));
  }

  lemma OutboxIsAPrefix(s: State)
    requires OutboxOk(s)
    ensures s.popped <= Destutter(s.outboxCrossed) <= s.enqueued && |Destutter(s.outboxCrossed)| <= |s.popped| + 1
  {
    if s.outbox != [] {
      assert s.enqueued == s.popped + [s.outbox[0]] + s.outbox[1..];
    }
  }

  /** When a suspended send returns, the head to be removed is still the frame that was sent. */
  lemma {:induction false} PopleftTakesTheSentFrame(steps: seq<Step>, max: nat)
    requires Run(steps, max).phase.SendingHead?
    ensures var s := Run(steps, max);
            s.outbox != [] && s.outbox[0] == s.phase.frame
  {
    RunInv(steps, max);
  }

  // ----- Histories only grow -----

  lemma RunAppend(steps: seq<Step>, step: Step, max: nat)
    ensures Run(steps + [step], max) == Apply(Run(steps, max), step, max)
  {
    assert (steps + [step])[..|steps|] == steps;
  }

  ghost predicate Extends(s: State, t: State) {
    && s.enqueued <= t.enqueued && s.popped <= t.popped && s.crossed <= t.crossed
    && |s.execs| <= |t.execs| && (s.phase == Stopped ==> t.phase == Stopped && t.crossed == s.crossed)
  }

  lemma ReportExtends(s: State, e: nat, outcome: Outcome, max: nat)
    requires e < |s.execs|
    ensures Extends(s, Report(s, e, outcome, max))
    ensures Report(s, e, outcome, max).execs == s.execs[e := Report(s, e, outcome, max).execs[e]]
  {
  }

  /** A task step changes the execution it belongs to and no other, and appends to the histories. */
  lemma TaskExtends(s: State, step: Step, max: nat)
    requires IsTaskStep(step)
    ensures Extends(s, ApplyTask(s, step, max))
    ensures step.e < |s.execs| ==>
              ApplyTask(s, step, max).execs == s.execs[step.e := ApplyTask(s, step, max).execs[step.e]]
    ensures step.e >= |s.execs| ==> ApplyTask(s, step, max) == s
  {
    if step.e < |s.execs| {
      var e, x := step.e, s.execs[step.e];
      match step
      case SpawnRaises(_) => ReportExtends(s, e, Failed(HelperUnavailable), max);
      case Exit(_, code) =>
        ReportExtends(s.(execs := s.execs[e := x.(observed := Some(code))]), e, OutcomeOf(code), max);
      case Timeout(_, _) => ReportExtends(s, e, Failed(HelperUnavailable), max);
      case Reap(_) =>
        ReportExtends(s, e, Failed(TimedOut), max);
        ReportExtends(s, e, Failed(AgentStopped), max);
      case Cancel(_, _, _) => CancelExtends(s, step, max);
      case _ =>
    }
  }

  lemma CancelExtends(s: State, step: Step, max: nat)
    requires step.Cancel? && step.e < |s.execs|
    ensures Extends(s, ApplyTask(s, step, max))
    ensures ApplyTask(s, step, max).execs == s.execs[step.e := ApplyTask(s, step, max).execs[step.e]]
  {
    ReportExtends(s, step.e, Failed(AgentStopped), max);
  }

  /** The connection loop creates executions and changes none. */
  lemma LoopExtends(s: State, step: Step)
    requires !IsTaskStep(step)
    ensures Extends(s, ApplyLoop(s, step)) && s.execs <= ApplyLoop(s, step).execs
  {
  }

  lemma StepExtends(s: State, step: Step, max: nat)
    ensures Extends(s, Apply(s, step, max))
  {
    if IsTaskStep(step) {
      TaskExtends(s, step, max);
    } else {
      LoopExtends(s, step);
    }
  }

  lemma {:induction false} RunExtends(steps: seq<Step>, more: seq<Step>, max: nat)
    ensures Extends(Run(steps, max), Run(steps + more, max))
    decreases |more|
  {
    if more == [] {
      assert steps + more == steps;
    } else {
      var n := |more| - 1;
      RunExtends(steps, more[..n], max);
      assert steps + more == (steps + more[..n]) + [more[n]];
      RunAppend(steps + more[..n], more[n], max);
      StepExtends(Run(steps + more[..n], max), more[n], max);
    }
  }

  /** Once the loop has stopped nothing reaches a socket any more, so the result a cancelled
      command reports ("Agent stopped before the operation completed.") is never delivered. */
  lemma CancelledResultsStayBehind(steps: seq<Step>, more: seq<Step>, max: nat)
    ensures forall f | f in Run(steps, max).crossed :: f.kind != Terminal(Failed(AgentStopped))
    ensures Run(steps, max).phase == Stopped ==> Run(steps + more, max).crossed == Run(steps, max).crossed
  {
    RunInv(steps, max);
    RunExtends(steps, more, max);
  }

  // ----- After a reconnect the whole outbox gets through -----

  /** Flushing without a broken send. */
  function Drain(n: nat): seq<Step> {
    if n == 0 then [ReadHead] else [ReadHead, Deliver, SendReturns] + Drain(n - 1)
  }

  /** Sending changes neither the executions nor the registry. */
  ghost predicate OnlySent(s: State, t: State) {
    t.execs == s.execs && t.book == s.book && t.ops == s.ops
  }

  lemma FlushOne(steps: seq<Step>, max: nat)
    requires Run(steps, max).phase == Flushing && Run(steps, max).outbox != []
    ensures var s, t := Run(steps, max), Run(steps + [ReadHead, Deliver, SendReturns], max);
            && t.phase == Flushing && t.outbox == s.outbox[1..] && t.enqueued == s.enqueued
            && t.crossed == s.crossed + [s.outbox[0]] && OnlySent(s, t)
  {
    var s := Run(steps, max);
    RunAppend(steps, ReadHead, max);
    var one := Apply(s, ReadHead, max);
    assert one == s.(phase := SendingHead(s.outbox[0], false));
    RunAppend(steps + [ReadHead], Deliver, max);
    var two := Apply(one, Deliver, max);
    assert two.phase == SendingHead(s.outbox[0], true) && two.outbox == s.outbox;
    RunAppend(steps + [ReadHead] + [Deliver], SendReturns, max);
    assert steps + [ReadHead, Deliver, SendReturns] == steps + [ReadHead] + [Deliver] + [SendReturns];
  }

  lemma {:induction false} DrainDelivers(steps: seq<Step>, max: nat, n: nat)
    requires Run(steps, max).phase == Flushing && |Run(steps, max).outbox| == n
    ensures var s, t := Run(steps, max), Run(steps + Drain(n), max);
            && t.phase == Idle && t.outbox == [] && t.enqueued == s.enqueued
            && t.crossed == s.crossed + s.outbox && OnlySent(s, t)
    decreases n
  {
    if n == 0 {
      RunAppend(steps, ReadHead, max);
      assert Run(steps, max).crossed + [] == Run(steps, max).crossed;
    } else {
      hide Run;
      HeadAndTail(Run(steps, max).outbox);
      var three := [ReadHead, Deliver, SendReturns];
      FlushOne(steps, max);
      DrainDelivers(steps + three, max, n - 1);
      assert steps + Drain(n) == steps + three + Drain(n - 1) by {
        Associative(steps, three, Drain(n - 1));
      }
      var s := Run(steps, max);
      Associative(s.crossed, [s.outbox[0]], s.outbox[1..]);
    }
  }

  /** Whatever happened before, one unbroken flush on the next socket delivers, in order,
      every frame that was ever enqueued. */
  lemma ReconnectDeliversEverything(steps: seq<Step>, max: nat)
    requires Run(steps, max).phase == Offline
    ensures var s := Run(steps, max);
            var t := Run(steps + [Connect, BeginFlush] + Drain(|s.outbox|), max);
            && Destutter(t.outboxCrossed) == t.enqueued == s.enqueued
            && forall f | f in s.enqueued :: f in t.crossed
  {
    var s := Run(steps, max);
    RunAppend(steps, Connect, max);
    RunAppend(steps + [Connect], BeginFlush, max);
    var flushing := steps + [Connect, BeginFlush];
    assert flushing == steps + [Connect] + [BeginFlush];
    DrainDelivers(flushing, max, |s.outbox|);
    RunInv(flushing + Drain(|s.outbox|), max);
    RunExtends(flushing, Drain(|s.outbox|), max);
  }

  // ----- The trace of one execution -----

  /** Every execution has enqueued a prefix of ACK, RUNNING and one terminal frame; it spawned the
      helper at most once, and reports SUCCESS only when it read exit code 0. */
  lemma {:induction false} ExecutionTrace(steps: seq<Step>, max: nat, e: nat)
    requires e < |Run(steps, max).execs|
    ensures var s := Run(steps, max);
            var x, trace := s.execs[e], Project(s.enqueued, e);
            && |trace| <= 3
            && (forall i | 0 <= i < |trace| :: trace[i].id == x.id && trace[i].exec == e)
            && (|trace| > 0 ==> trace[0].kind == Ack)
            && (|trace| > 1 ==> trace[1].kind == Running)
            && (|trace| > 2 ==> trace[2].kind.Terminal?)
            && x.spawned <= 1
            && (|trace| == 3 && trace[2].kind == Terminal(Success) ==> x.observed == Some(0))
            && (|trace| == 3 <==> x.pc.Ended? && x.pc.end.Reported?)
            && (|trace| == 0 <==> x.pc == Created || x.pc == Ended(NeverStarted))
  {
    hide Run, OutboxOk, PhaseOk, RegistryOk, ClaimsOk, StopOk, Causal;
    RunInv(steps, max);
    assert ExecutionOk(e, Run(steps, max).execs[e]);
  }

  /** An interruption that leaves the cancellation handler before it reports. */
  ghost predicate Interrupts(s: State, step: Step, e: nat) {
    && e < |s.execs| && step.Cancel? && step.e == e && s.phase == Stopped
    && (var pc := s.execs[e].pc;
        || pc == ReapingCancel
        || ((pc == Waiting || pc == ReapingTimeout) && !step.exited && step.killRaises))
  }

  lemma OthersUntouched(s: State, step: Step, max: nat, e: nat)
    requires e < |s.execs| && (IsTaskStep(step) ==> step.e != e)
    ensures e < |Apply(s, step, max).execs| && Apply(s, step, max).execs[e] == s.execs[e]
  {
    if IsTaskStep(step) {
      TaskExtends(s, step, max);
    } else {
      LoopExtends(s, step);
    }
  }

  lemma StepUnreported(s: State, step: Step, max: nat, e: nat)
    requires e < |s.execs|
    ensures var s' := Apply(s, step, max);
            && e < |s'.execs|
            && (s'.execs[e].pc == Ended(Unreported)
                <==> s.execs[e].pc == Ended(Unreported) || Interrupts(s, step, e))
  {
    if !IsTaskStep(step) || step.e != e {
      OthersUntouched(s, step, max, e);
    } else {
      TaskExtends(s, step, max);
      if step.Cancel? {
        CancelUnreported(s, step, max);
      } else {
        OwnStepReports(s, step, max);
      }
    }
  }

  lemma CancelUnreported(s: State, step: Step, max: nat)
    requires step.Cancel? && step.e < |s.execs|
    ensures ApplyTask(s, step, max).execs[step.e].pc == Ended(Unreported)
       <==> s.execs[step.e].pc == Ended(Unreported) || Interrupts(s, step, step.e)
  {
  }

  lemma OwnStepReports(s: State, step: Step, max: nat)
    requires IsTaskStep(step) && !step.Cancel? && step.e < |s.execs|
    ensures ApplyTask(s, step, max).execs[step.e].pc == Ended(Unreported)
       <==> s.execs[step.e].pc == Ended(Unreported)
  {
  }

  ghost predicate InterruptedAt(steps: seq<Step>, max: nat, e: nat, k: int) {
    0 <= k < |steps| && Interrupts(Run(steps[..k], max), steps[k], e)
  }

  lemma InterruptedLater(steps: seq<Step>, max: nat, e: nat)
    requires steps != []
    ensures var n := |steps| - 1;
            (exists k :: InterruptedAt(steps, max, e, k))
            <==> (exists k :: InterruptedAt(steps[..n], max, e, k)) || InterruptedAt(steps, max, e, n)
  {
    var n := |steps| - 1;
    var front := steps[..n];
    forall k | 0 <= k < n ensures InterruptedAt(front, max, e, k) <==> InterruptedAt(steps, max, e, k) {
      assert front[..k] == steps[..k] && front[k] == steps[k];
    }
  }

  /** A started execution ends without a terminal frame exactly when killing the helper raised, or a
      second cancellation arrived, inside its cancellation handler. */
  lemma {:induction false} UnreportedIffInterrupted(steps: seq<Step>, max: nat, e: nat)
    requires e < |Run(steps, max).execs|
    ensures Run(steps, max).execs[e].pc == Ended(Unreported) <==> exists k :: InterruptedAt(steps, max, e, k)
  {
    var n := |steps| - 1;
    var s := Run(steps[..n], max);
    InterruptedLater(steps, max, e);
    if e < |s.execs| {
      UnreportedIffInterrupted(steps[..n], max, e);
      StepUnreported(s, steps[n], max, e);
    } else {
      NotYetCreated(steps, max, e);
      assert forall k :: !InterruptedAt(steps, max, e, k);
    }
  }

  lemma NotYetCreated(steps: seq<Step>, max: nat, e: nat)
    requires steps != [] && |Run(steps[..|steps| - 1], max).execs| <= e < |Run(steps, max).execs|
    ensures Run(steps, max).execs[e].pc == Created
    ensures forall k | 0 <= k < |steps| :: |Run(steps[..k], max).execs| <= e
  {
    var front := steps[..|steps| - 1];
    forall k | 0 <= k < |steps| ensures |Run(steps[..k], max).execs| <= e {
      assert steps[..k] == front[..k];
      FewerBefore(front, k, max);
    }
    LastCreates(Run(front, max), steps[|steps| - 1], max, e);
  }

  lemma FewerBefore(steps: seq<Step>, k: nat, max: nat)
    requires k <= |steps|
    ensures |Run(steps[..k], max).execs| <= |Run(steps, max).execs|
  {
    RunExtends(steps[..k], steps[k..], max);
    assert steps == steps[..k] + steps[k..];
  }

  lemma LastCreates(s: State, step: Step, max: nat, e: nat)
    requires |s.execs| <= e < |Apply(s, step, max).execs|
    ensures Apply(s, step, max).execs[e].pc == Created
  {
    if IsTaskStep(step) {
      TaskExtends(s, step, max);
      assert false;
    }
  }

  // ----- Idempotency of command ids -----

  /** A replay sends exactly what the latest execution of that id enqueued, and that execution is over. */
  lemma ReplayIsFaithful(steps: seq<Step>, max: nat, id: Uuid)
    requires id in Run(steps, max).book.frames
    ensures var s := Run(steps, max);
            exists e: nat :: && e < |s.execs| && s.execs[e].id == id && s.execs[e].pc.Ended?
                        && s.book.frames[id] == Project(s.enqueued, e)
                        && forall k | e < k < |s.execs| :: s.execs[k].id != id
  {
    RunInv(steps, max);
    var s := Run(steps, max);
    var e: nat :| LatestOf(s.execs, e, id, s.book.frames[id]);
  }

  /** The registry holds the last `max` completed ids in order, none of them in flight. Every command that is
      not finished, and every one cancelled before it started, is in flight and keeps its id to itself. */
  lemma {:induction false} RegistryMirrorsExecutions(steps: seq<Step>, max: nat)
    ensures var s := Run(steps, max);
            && s.book.order == LastN(Completions(s.ops), max)
            && s.book.inflight !! s.book.frames.Keys
            && (forall e | 0 <= e < |s.execs| && Holding(s.execs[e].pc) :: s.execs[e].id in s.book.inflight)
            && (forall e, k | 0 <= e < k < |s.execs| && Holding(s.execs[e].pc) :: s.execs[k].id != s.execs[e].id)
  {
    RunInv(steps, max);
    CompletedIsWindow(Run(steps, max).ops, max);
    AfterWellFormed(Run(steps, max).ops, max);
  }

  /** Two executions of one command id are separated by at least `max` completions of other ids. */
  lemma {:induction false} BoundedReexecution(steps: seq<Step>, max: nat, e: nat, k: nat)
    requires e < k < |Run(steps, max).execs|
    requires Run(steps, max).execs[e].id == Run(steps, max).execs[k].id
    ensures var s := Run(steps, max);
            && s.execs[e].claimedAt < s.execs[k].claimedAt <= |s.ops|
            && |CompletedIds(s.ops[s.execs[e].claimedAt + 1..s.execs[k].claimedAt]) - {s.execs[e].id}| >= max
  {
    hide Run, After, CompletedIds, ExecutionsOk, Traced, OutboxOk, PhaseOk, RegistryOk, StopOk;
    RunInv(steps, max);
    var s := Run(steps, max);
    assert ClaimsAt(s.ops, s.execs[e].claimedAt, s.execs[e].id, max);
    assert ClaimsAt(s.ops, s.execs[k].claimedAt, s.execs[k].id, max);
    BoundedAtMostOnce(s.ops, s.execs[e].claimedAt, s.execs[k].claimedAt, s.execs[e].id, max);
  }
}
