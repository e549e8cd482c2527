/**
 The shared mutable state of `run_realtime` and the code that updates it: the registry, the outbox
 and the command tasks (agent/client/realtime.py:107-161, 183-190, 257-266). Each method is one
 stretch between suspension points, or a loop over such stretches, and is proved to be a run of
 the protocol, so everything shown about runs holds of these objects.
 */
module CommandRuntime {
  import opened Sequences
  import opened Registry
  import opened CommandProtocol
  import opened CommandTheorems

  /** What happens around one suspended send: task steps while the frame has not crossed, whether
      it crosses, task steps after that, and whether the send returns or raises. */
  datatype Sending = Sending(before: seq<Step>, delivered: bool, afterwards: seq<Step>, raises: bool)

  ghost predicate TaskSteps(steps: seq<Step>) {
    forall step | step in steps :: IsTaskStep(step)
  }

  /** A send that returns has crossed the socket. */
  ghost predicate Plausible(s: Sending) {
    TaskSteps(s.before) && TaskSteps(s.afterwards) && (s.raises || s.delivered)
  }

  /** No command task runs while the send is suspended. */
  predicate Alone(s: Sending) {
    s.before == [] && s.afterwards == []
  }

  /** The first send that raises is number `i`. */
  predicate Breaks(sends: seq<Sending>, i: int) {
    0 <= i < |sends| && sends[i].raises && forall k | 0 <= k < i :: !sends[k].raises
  }

  predicate InSend(phase: Phase) {
    phase.SendingHead? || (phase.Replaying? && phase.next < |phase.frames|)
  }

  class CommandRuntime {
    const registry: CommandExecutionRegistry<Frame>
    var outbox: seq<Frame>
    var tasks: seq<Execution>
    var phase: Phase
    var ops: seq<Op<Frame>>  // the registry calls made, which number the claims
    ghost var enqueued: seq<Frame>
    ghost var popped: seq<Frame>
    ghost var outboxCrossed: seq<Frame>
    ghost var crossed: seq<Frame>
    ghost var trace: seq<Step>

    ghost function View(): State
      reads this, registry
    {
      State(registry.View(), outbox, tasks, phase, ops, enqueued, popped, outboxCrossed, crossed)
    }

    ghost predicate Valid()
      reads this, registry
    {
      registry.Valid() && View() == Run(trace, registry.maxCompleted)
    }

    constructor (maxCompleted: nat)
      ensures Valid() && trace == [] && View() == INIT
      ensures fresh(registry) && registry.maxCompleted == maxCompleted
    {
      registry := new CommandExecutionRegistry(maxCompleted);
      outbox, tasks, phase := [], [], Offline;
      ops, enqueued, popped, outboxCrossed, crossed, trace := [], [], [], [], [], [];
    }

    // ----- execute_command -----

    method Emit(e: nat, kind: Kind)
      requires e < |tasks|
      modifies this`outbox, this`tasks, this`enqueued
      ensures View() == CommandProtocol.Emit(old(View()), e, kind)
    {
      var message := Frame(e, tasks[e].id, kind);
      tasks := tasks[e := tasks[e].(emitted := tasks[e].emitted + [message])];
      outbox := outbox + [message];
      enqueued := enqueued + [message];
    }

    method Suspend(e: nat, pc: Pc)
      requires e < |tasks|
      modifies this`tasks
      ensures View() == MoveTo(old(View()), e, pc)
    {
      tasks := tasks[e := tasks[e].(pc := pc)];
    }

    method Finish(e: nat, end: End)
      requires e < |tasks| && registry.Valid()
      modifies this`tasks, this`ops, registry
      ensures registry.Valid()
      ensures View() == CommandProtocol.Finish(old(View()), e, end, registry.maxCompleted)
    {
      Suspend(e, Ended(end));
      registry.Complete(tasks[e].id, tasks[e].emitted);
      ops := ops + [CompleteOp(tasks[e].id, tasks[e].emitted)];
    }

    method Report(e: nat, outcome: Outcome)
      requires e < |tasks| && registry.Valid()
      modifies this`outbox, this`tasks, this`enqueued, this`ops, registry
      ensures registry.Valid()
      ensures View() == CommandProtocol.Report(old(View()), e, outcome, registry.maxCompleted)
    {
      Emit(e, Terminal(outcome));
      Finish(e, Reported(outcome));
    }

    /** The command task `step.e` runs from one suspension point to the next. */
    method ResumeTask(step: Step)
      requires IsTaskStep(step) && Valid()
      modifies this`outbox, this`tasks, this`enqueued, this`ops, this`trace, registry
      ensures Valid() && trace == old(trace) + [step]
      ensures old(outbox) <= outbox
    {
      RunAppend(trace, step, registry.maxCompleted);
      if step.e < |tasks| {
        var e, pc := step.e, tasks[step.e].pc;
        match step {
          case Start(_) =>
            if pc == Created {
              Emit(e, Ack);
              Emit(e, Running);
              Suspend(e, Spawning);
            }
          case SpawnReturns(_) =>
            if pc == Spawning {
              tasks := tasks[e := tasks[e].(pc := Waiting, spawned := tasks[e].spawned + 1)];
            }
          case SpawnRaises(_) =>
            if pc == Spawning { Report(e, Failed(HelperUnavailable)); }
          case Exit(_, code) =>
            if pc == Waiting {
              tasks := tasks[e := tasks[e].(observed := Some(code))];
              if code == 0 { Report(e, Success); } else { Report(e, Failed(ExitCode(code))); }
            }
          case Timeout(_, killRaises) =>
            if pc == Waiting {
              if killRaises { Report(e, Failed(HelperUnavailable)); } else { Suspend(e, ReapingTimeout); }
            }
          case Reap(_) =>
            if pc == ReapingTimeout { Report(e, Failed(TimedOut)); }
            else if pc == ReapingCancel { Report(e, Failed(AgentStopped)); }
          case Cancel(_, exited, killRaises) =>
            if phase == Stopped { CancelTask(e, exited, killRaises); }
        }
      }
      trace := trace + [step];
    }

    method CancelTask(e: nat, exited: bool, killRaises: bool)
      requires e < |tasks| && registry.Valid() && phase == Stopped
      modifies this`outbox, this`tasks, this`enqueued, this`ops, registry
      ensures registry.Valid()
      ensures View() == ApplyTask(old(View()), Cancel(e, exited, killRaises), registry.maxCompleted)
      ensures old(outbox) <= outbox
    {
      match tasks[e].pc {
        case Created => Suspend(e, Ended(NeverStarted));
        case Spawning => Report(e, Failed(AgentStopped));
        case ReapingCancel => Finish(e, Unreported);
        case Ended(_) =>
        case _ =>
          if exited { Report(e, Failed(AgentStopped)); }
          else if killRaises { Finish(e, Unreported); }
          else { Suspend(e, ReapingCancel); }
      }
    }

    method ResumeTasks(steps: seq<Step>)
      requires TaskSteps(steps) && Valid()
      modifies this`outbox, this`tasks, this`enqueued, this`ops, this`trace, registry
      ensures Valid() && trace == old(trace) + steps
      ensures old(outbox) <= outbox
      ensures steps == [] ==> outbox == old(outbox) && enqueued == old(enqueued)
    {
      hide Run, ApplyTask, IsTaskStep;
      for i := 0 to |steps|
        invariant Valid() && trace == old(trace) + steps[..i]
        invariant old(outbox) <= outbox
        invariant i == 0 ==> outbox == old(outbox) && enqueued == old(enqueued)
      {
        ResumeTask(steps[i]);
        assert steps[..i + 1] == steps[..i] + [steps[i]];
      }
      assert steps[..|steps|] == steps;
    }

    // ----- The connection loop -----

    /** A command.execute frame: replay, claim and start a task, or ignore. */
    method ReceiveExecute(id: Uuid)
      requires Valid() && phase == Idle
      modifies this`phase, this`tasks, this`ops, this`trace, registry
      ensures Valid() && trace == old(trace) + [Receive(id)]
      ensures id in old(registry.completed) ==>
                phase == Replaying(old(registry.completed[id]), 0, false) && tasks == old(tasks)
      ensures id in old(registry.inflight) ==> phase == Idle && tasks == old(tasks)
      ensures id !in old(registry.completed) && id !in old(registry.inflight) ==>
                phase == Idle && tasks == old(tasks) + [Execution(id, |old(ops)|, Created, [], 0, None)]
    {
      RunAppend(trace, Receive(id), registry.maxCompleted);
      trace := trace + [Receive(id)];
      var replay := registry.Replay(id);
      match replay
      case Some(frames) =>
        phase := Replaying(frames, 0, false);
      case None =>
        var claimedAt := |ops|;
        var claimed := registry.Claim(id);
        ops := ops + [ClaimOp(id)];
        if claimed {
          tasks := tasks + [Execution(id, claimedAt, Created, [], 0, None)];
        }
    }

    method Advance(step: Step)
      requires Valid() && (step.Connect? || step.BeginFlush? || step.SendRaises? || step.Stop?)
      modifies this`phase, this`trace
      ensures Valid() && trace == old(trace) + [step]
      ensures step.SendRaises? && InSend(old(phase)) ==> phase == Offline
      ensures old(phase).Replaying? && !step.Stop? && !InSend(old(phase)) ==> phase == Idle
    {
      RunAppend(trace, step, registry.maxCompleted);
      if step.Stop? {
        phase := Stopped;
      } else if step.Connect? && phase == Offline {
        phase := Idle;
      } else if step.BeginFlush? && phase == Idle {
        phase := Flushing;
      } else if step.SendRaises? && (phase == Idle || phase.SendingHead?) {
        phase := Offline;
      } else if phase.Replaying? {
        if phase.next >= |phase.frames| {
          phase := Idle;
        } else if step.SendRaises? {
          phase := Offline;
        }
      }
      trace := trace + [step];
    }

    /** The flush reads the head of the outbox, or finds it empty. */
    method ReadHead()
      requires Valid() && phase == Flushing
      modifies this`phase, this`trace
      ensures Valid() && trace == old(trace) + [Step.ReadHead]
      ensures phase == if outbox == [] then Idle else SendingHead(outbox[0], false)
    {
      RunAppend(trace, Step.ReadHead, registry.maxCompleted);
      trace := trace + [Step.ReadHead];
      phase := if outbox == [] then Idle else SendingHead(outbox[0], false);
    }

    ghost predicate Undelivered(frame: Frame)
      reads this`phase
    {
      || phase == SendingHead(frame, false)
      || (phase.Replaying? && !phase.delivered && phase.next < |phase.frames|
          && frame == phase.frames[phase.next])
    }

    /** The frame of the suspended send crosses the socket. */
    method Cross(frame: Frame)
      requires Valid() && Undelivered(frame)
      modifies this`phase, this`trace, this`crossed, this`outboxCrossed
      ensures Valid() && trace == old(trace) + [Deliver]
      ensures phase == old(phase).(delivered := true)
      ensures crossed == old(crossed) + [frame]
    {
      RunAppend(trace, Deliver, registry.maxCompleted);
      trace := trace + [Deliver];
      crossed := crossed + [frame];
      if phase.SendingHead? {
        outboxCrossed := outboxCrossed + [frame];
      }
      phase := phase.(delivered := true);
    }

    /** One suspended send: command tasks may run before and after the frame crosses. */
    method Send(s: Sending, frame: Frame)
      requires Valid() && Plausible(s) && Undelivered(frame)
      modifies this, registry
      ensures Valid() && old(trace) <= trace
      ensures phase == old(phase).(delivered := s.delivered)
      ensures crossed == old(crossed) + (if s.delivered then [frame] else [])
      ensures popped == old(popped) && old(outbox) <= outbox
      ensures Alone(s) ==> outbox == old(outbox) && enqueued == old(enqueued)
    {
      hide Run, IsTaskStep;
      ResumeTasks(s.before);
      if s.delivered {
        Cross(frame);
      }
      ResumeTasks(s.afterwards);
    }

    /** The send of the head returned: `popleft`. */
    method PopHead()
      requires Valid() && phase.SendingHead? && phase.delivered
      modifies this`phase, this`trace, this`outbox, this`popped
      ensures Valid() && trace == old(trace) + [SendReturns]
      ensures phase == Flushing && popped == old(popped) + [old(phase).frame]
      ensures old(outbox) != [] && old(outbox)[0] == old(phase).frame && outbox == old(outbox)[1..]
    {
      PopleftTakesTheSentFrame(trace, registry.maxCompleted);
      RunAppend(trace, SendReturns, registry.maxCompleted);
      trace := trace + [SendReturns];
      popped := popped + [outbox[0]];
      outbox := outbox[1..];
      phase := Flushing;
    }

    /** One pass of the flush loop: the head is popped only when its send returned. */
    method SendHead(s: Sending) returns (sent: bool)
      requires Valid() && phase == Flushing && outbox != [] && Plausible(s)
      modifies this, registry
      ensures Valid() && old(trace) <= trace
      ensures phase == if sent then Flushing else Offline
      ensures sent == !s.raises
      ensures crossed == old(crossed) + (if s.delivered then [old(outbox)[0]] else [])
      ensures popped == old(popped) + (if sent then [old(outbox)[0]] else [])
      ensures if sent then old(outbox)[1..] <= outbox else old(outbox) <= outbox
      ensures Alone(s) ==> enqueued == old(enqueued)
    {
      hide Run;
      ReadHead();
      Send(s, phase.frame);
      sent := !s.raises;
      if sent {
        PopHead();
      } else {
        Advance(SendRaises);
      }
    }

    /** `flush_command_outbox`: the head stays queued until its send returned. The flush goes on until the outbox
        is empty or a send raises, for as many sends as it is given. */
    method FlushCommandOutbox(sends: seq<Sending>) returns (drained: bool)
      requires Valid() && phase == Flushing
      requires forall s | s in sends :: Plausible(s)
      modifies this, registry
      ensures Valid() && old(trace) <= trace
      ensures drained <==> phase == Idle
      ensures phase == Idle || phase == Offline || phase == Flushing
      ensures drained ==> outbox == [] && Destutter(outboxCrossed) == enqueued
      ensures old(popped) <= popped && old(enqueued) <= enqueued
      ensures enqueued == popped + outbox
      ensures phase == Offline ==> exists i :: Breaks(sends, i) && |popped| == |old(popped)| + i && outbox != []
      ensures phase == Flushing ==>
                outbox != [] && |popped| == |old(popped)| + |sends| && forall s | s in sends :: !s.raises
      ensures phase != Offline ==> crossed == old(crossed) + popped[|old(popped)|..]
      ensures (forall s | s in sends :: !s.raises) && |sends| >= |enqueued| - |old(popped)| ==> drained
      ensures (forall s | s in sends :: Alone(s)) ==> enqueued == old(enqueued)
      ensures (forall s | s in sends :: !s.raises && Alone(s)) && |sends| >= |old(outbox)| ==> drained
    {
      hide Run, Destutter, TaskSteps;
      OutboxConservation(trace, registry.maxCompleted);
      var i := 0;
      while outbox != [] && i < |sends|
        invariant Valid() && old(trace) <= trace && phase == Flushing && 0 <= i <= |sends|
        invariant (forall k | 0 <= k < i :: !sends[k].raises) && |popped| == |old(popped)| + i
        invariant old(popped) <= popped && crossed == old(crossed) + popped[|old(popped)|..]
        invariant (forall s | s in sends :: Alone(s)) ==> enqueued == old(enqueued)
        decreases |sends| - i
      {
        ghost var before := popped[|old(popped)|..];
        ghost var head := outbox[0];
        var sent := SendHead(sends[i]);
        assert sent ==> popped[|old(popped)|..] == before + [head];
        if !sent {
          assert Breaks(sends, i);
          TraceExtends(old(trace), trace);
          OutboxConservation(trace, registry.maxCompleted);
          return false;
        }
        i := i + 1;
      }
      drained := outbox == [];
      if drained {
        ReadHead();
      }
      OutboxConservation(trace, registry.maxCompleted);
      TraceExtends(old(trace), trace);
    }

    lemma TraceExtends(before: seq<Step>, now: seq<Step>)
      requires before <= now
      ensures Extends(Run(before, registry.maxCompleted), Run(now, registry.maxCompleted))
    {
      assert now == before + now[|before|..];
      RunExtends(before, now[|before|..], registry.maxCompleted);
    }

    /** The send of one replayed frame returned. */
    method NextReplay()
      requires Valid() && phase.Replaying? && phase.delivered && phase.next < |phase.frames|
      modifies this`phase, this`trace
      ensures Valid() && trace == old(trace) + [SendReturns]
      ensures phase == Replaying(old(phase).frames, old(phase).next + 1, false)
    {
      hide Run;
      RunAppend(trace, SendReturns, registry.maxCompleted);
      trace := trace + [SendReturns];
      phase := Replaying(phase.frames, phase.next + 1, false);
    }

    /** One replayed frame. */
    method SendReplayed(s: Sending, replay: seq<Frame>, i: nat) returns (sent: bool)
      requires Valid() && Plausible(s) && i < |replay| && phase == Replaying(replay, i, false)
      modifies this, registry
      ensures Valid() && old(trace) <= trace
      ensures phase == if sent then Replaying(replay, i + 1, false) else Offline
      ensures crossed == old(crossed) + (if s.delivered then [replay[i]] else [])
      ensures sent == !s.raises && (sent ==> s.delivered)
    {
      Send(s, replay[i]);
      sent := !s.raises;
      if sent {
        NextReplay();
      } else {
        Advance(SendRaises);
      }
    }

    /** Sending a recorded lifecycle again, outside the outbox, until a send raises. */
    method SendReplay(sends: seq<Sending>)
      requires Valid() && phase.Replaying? && phase.next == 0 && !phase.delivered
      requires |sends| >= |phase.frames| && forall s | s in sends :: Plausible(s)
      modifies this, registry
      ensures Valid() && old(trace) <= trace
      ensures phase == Idle || phase == Offline
      ensures exists n :: 0 <= n <= |old(phase).frames| && crossed == old(crossed) + old(phase).frames[..n]
                          && (phase == Idle ==> n == |old(phase).frames|)
      ensures phase == Offline <==> exists i :: Breaks(sends, i) && i < |old(phase).frames|
    {
      hide Run, TaskSteps, CommandRuntime.Undelivered;
      var replay := phase.frames;
      for i := 0 to |replay|
        invariant Valid() && old(trace) <= trace && phase == Replaying(replay, i, false)
        invariant crossed == old(crossed) + replay[..i]
        invariant forall k | 0 <= k < i :: !sends[k].raises
      {
        assert replay[..i + 1] == replay[..i] + [replay[i]];
        var sent := SendReplayed(sends[i], replay, i);
        assert crossed == old(crossed) + replay[..if sends[i].delivered then i + 1 else i];
        if !sent {
          assert Breaks(sends, i);
          return;
        }
      }
      Advance(BeginFlush);
    }
  }
}
