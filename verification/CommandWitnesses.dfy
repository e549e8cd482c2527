/** Runs of the command protocol in which a command ends without its result reaching the dashboard. */
module CommandWitnesses {
  import opened Sequences
  import opened Registry
  import opened CommandProtocol
  import opened CommandTheorems

  /** A command whose helper runs when the loop stops. */
  function RunningSteps(id: Uuid): seq<Step> {
    [Connect, Receive(id)] + [Start(0), SpawnReturns(0)] + [Stop]
  }

  function OpeningFrames(id: Uuid): seq<Frame> {
    [Frame(0, id, Ack), Frame(0, id, Running)]
  }

  function WaitingExecution(id: Uuid): Execution {
    Execution(id, 0, Waiting, OpeningFrames(id), 1, None)
  }

  lemma RunTwo(steps: seq<Step>, a: Step, b: Step, max: nat)
    ensures Run(steps + [a, b], max) == Apply(Apply(Run(steps, max), a, max), b, max)
  {
    RunAppend(steps, a, max);
    RunAppend(steps + [a], b, max);
    assert steps + [a, b] == steps + [a] + [b];
  }

  lemma ReceivedState(id: Uuid, max: nat)
    ensures var s := Run([Connect, Receive(id)], max);
            s == State(Book({id}, [], map[]), [], [Execution(id, 0, Created, [], 0, None)], Idle,
                       [ClaimOp(id)], [], [], [], [])
  {
    assert [] + [Connect, Receive(id)] == [Connect, Receive(id)];
    RunTwo([], Connect, Receive(id), max);
  }

  lemma RunningState(id: Uuid, max: nat)
    ensures var s := Run(RunningSteps(id), max);
            && s.execs == [WaitingExecution(id)] && s.phase == Stopped && s.enqueued == OpeningFrames(id)
            && s.outbox == OpeningFrames(id) && s.crossed == []
  {
    ReceivedState(id, max);
    var received := [Connect, Receive(id)];
    RunTwo(received, Start(0), SpawnReturns(0), max);
    var s := Apply(Run(received, max), Start(0), max);
    assert [] + [Frame(0, id, Ack)] + [Frame(0, id, Running)] == OpeningFrames(id);
    assert s.execs[0] == Execution(id, 0, Spawning, OpeningFrames(id), 0, None) && |s.execs| == 1;
    assert s.enqueued == OpeningFrames(id) && s.outbox == OpeningFrames(id) && s.crossed == [];
    RunAppend(received + [Start(0), SpawnReturns(0)], Stop, max);
  }

  /** Killing the helper raises in the cancellation handler: the execution ends without a terminal frame. */
  lemma KillRaises(id: Uuid, max: nat)
    ensures var s := Run(RunningSteps(id) + [Cancel(0, false, true)], max);
            |s.execs| == 1 && s.execs[0].pc == Ended(Unreported) && s.enqueued == OpeningFrames(id)
  {
    RunningState(id, max);
    RunAppend(RunningSteps(id), Cancel(0, false, true), max);
  }

  /** A second cancellation while the handler waits for the killed helper does the same. */
  lemma CancelledTwice(id: Uuid, max: nat)
    ensures var s := Run(RunningSteps(id) + [Cancel(0, false, false), Cancel(0, false, false)], max);
            |s.execs| == 1 && s.execs[0].pc == Ended(Unreported) && s.enqueued == OpeningFrames(id)
  {
    RunningState(id, max);
    RunTwo(RunningSteps(id), Cancel(0, false, false), Cancel(0, false, false), max);
  }

  /** A cancelled command reports, but its result and everything before it stay in the outbox for good. */
  lemma CancelledResultIsLost(id: Uuid, more: seq<Step>, max: nat)
    ensures var steps := RunningSteps(id) + [Cancel(0, true, false)];
            && Run(steps, max).enqueued == OpeningFrames(id) + [Frame(0, id, Terminal(Failed(AgentStopped)))]
            && Run(steps + more, max).crossed == []
  {
    RunningState(id, max);
    var steps := RunningSteps(id) + [Cancel(0, true, false)];
    RunAppend(RunningSteps(id), Cancel(0, true, false), max);
    CancelledResultsStayBehind(steps, more, max);
  }

  /** A command cancelled before its first step emits nothing and stays in flight. */
  lemma CancelledBeforeItStarts(id: Uuid, max: nat)
    ensures var s := Run([Connect, Receive(id)] + [Stop, Cancel(0, false, false)], max);
            |s.execs| == 1 && s.execs[0].pc == Ended(NeverStarted) && s.enqueued == [] && s.book.inflight == {id}
  {
    ReceivedState(id, max);
    RunTwo([Connect, Receive(id)], Stop, Cancel(0, false, false), max);
  }
}
