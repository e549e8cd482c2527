/** What the dashboard sees of log streams, on one socket and over all of them. */
module LogFrames {
  import opened Registry
  import opened LogStreams

  // ----- Chunks stay on their socket -----

  ghost predicate ChunksAtHome(sent: seq<Sent>) {
    forall x | x in sent && x.frame.Chunk? :: x.on == x.from
  }

  lemma ChunkStep(s: State, step: Step)
    requires Inv(s) && ChunksAtHome(s.sent)
    ensures ChunksAtHome(Apply(s, step).sent)
  {
    if step.SendChunk? && step.k < |s.streams| && s.streams[step.k].pc == Streaming {
      assert !s.streams[step.k].cancelled ==> s.open && s.streams[step.k].socket == s.socket;
    }
  }

  /** Without reuse of an id that is not cleaned up, log lines reach only the socket they were requested on;
      what may come later is the `logs.ended` of a stream that was told to stop. */
  lemma {:induction false} ChunksStayOnTheirSocket(steps: seq<Step>)
    requires NoReuse(INIT, steps)
    ensures ChunksAtHome(RunFrom(INIT, steps).sent)
  {
    if steps != [] {
      var front := steps[..|steps| - 1];
      NoReuseFront(INIT, steps);
      ChunksStayOnTheirSocket(front);
      RunInv(INIT, front);
      ChunkStep(RunFrom(INIT, front), steps[|steps| - 1]);
    }
  }

  // ----- The frames of one request -----

  /** Whether two frames are compared: always, or only when they were sent on one socket. */
  predicate Together(a: nat, b: nat, everywhere: bool) {
    everywhere || a == b
  }

  /** Of the frames with one request id, chunks come first and then at most one `logs.ended`. */
  ghost predicate ProperlyEnded(sent: seq<Sent>, everywhere: bool) {
    forall i, k | 0 <= i < k < |sent| && sent[i].frame.id == sent[k].frame.id
                  && Together(sent[i].on, sent[k].on, everywhere) :: sent[i].frame.Chunk?
  }

  /** A `logs.ended` of this id was sent, on the current socket or anywhere. */
  ghost predicate HasEnded(s: State, id: Uuid, everywhere: bool) {
    exists x :: x in s.sent && x.frame == LogsEnded(id) && Together(x.on, s.socket, everywhere)
  }

  /** The task can still send a frame. */
  predicate CanSend(x: Stream) {
    x.pc == Streaming || x.pc == Closing || (x.pc == Created && !x.cancelled)
  }

  ghost predicate FramesOk(s: State, everywhere: bool) {
    && ProperlyEnded(s.sent, everywhere)
    && (forall x | x in s.sent :: x.on <= s.socket)
    && (forall k | 0 <= k < |s.streams| && CanSend(s.streams[k]) :: !HasEnded(s, s.streams[k].id, everywhere))
    && (forall i, k | 0 <= i < k < |s.streams| && CanSend(s.streams[i]) && CanSend(s.streams[k]) ::
          s.streams[i].id != s.streams[k].id)
  }

  /** The start answers an id that has its `logs.ended`, or that another task can still send for. */
  ghost predicate Stale(s: State, step: Step, everywhere: bool) {
    && step.LogsStart? && s.open && step.id !in s.tracked && (|s.tracked| >= LIMIT ==> step.delivered)
    && (HasEnded(s, step.id, everywhere)
        || exists k :: 0 <= k < |s.streams| && CanSend(s.streams[k]) && s.streams[k].id == step.id)
  }

  lemma AppendOk(s: State, f: Frame, from: nat, delivered: bool, everywhere: bool)
    requires FramesOk(s, everywhere) && !HasEnded(s, f.id, everywhere)
    ensures ProperlyEnded(Deliver(s, f, from, delivered), everywhere)
  {
    forall i | 0 <= i < |s.sent| && s.sent[i].frame.id == f.id && Together(s.sent[i].on, s.socket, everywhere)
      ensures s.sent[i].frame.Chunk?
    {
      assert s.sent[i] in s.sent;
    }
  }

  lemma EndedAfter(s: State, s': State, f: Frame, from: nat, delivered: bool, id: Uuid, everywhere: bool)
    requires s'.sent == Deliver(s, f, from, delivered) && s'.socket == s.socket
    requires !HasEnded(s, id, everywhere) && (f == LogsEnded(id) ==> !delivered)
    ensures !HasEnded(s', id, everywhere)
  {
    forall x | x in s'.sent ensures x in s.sent || (delivered && x.frame == f) {
      if delivered && s.open {
        assert s'.sent == s.sent + [Sent(f, s.socket, from)];
      }
    }
  }

  /** Tasks lose the ability to send, or keep it; nothing is sent. */
  lemma QuietOk(s: State, s': State, everywhere: bool)
    requires FramesOk(s, everywhere) && s'.sent == s.sent && |s'.streams| == |s.streams|
    requires s'.socket == s.socket
    requires forall k | 0 <= k < |s.streams| ::
               s'.streams[k].id == s.streams[k].id && (CanSend(s'.streams[k]) ==> CanSend(s.streams[k]))
    ensures FramesOk(s', everywhere)
  {
    forall k | 0 <= k < |s.streams| && CanSend(s'.streams[k]) ensures !HasEnded(s', s'.streams[k].id, everywhere) {
      assert !HasEnded(s, s.streams[k].id, everywhere);
    }
  }

  lemma ConnectOk(s: State, everywhere: bool)
    requires FramesOk(s, everywhere)
    ensures FramesOk(Open(s), everywhere)
  {
    var s' := Open(s);
    forall k | 0 <= k < |s.streams| && CanSend(s.streams[k]) ensures !HasEnded(s', s.streams[k].id, everywhere) {
      assert !HasEnded(s, s.streams[k].id, everywhere);
    }
  }

  lemma StartOk(s: State, step: Step, everywhere: bool)
    requires FramesOk(s, everywhere) && step.LogsStart? && s.open && !Stale(s, step, everywhere)
    ensures FramesOk(Start(s, step.id, step.delivered), everywhere)
  {
    var s', id := Start(s, step.id, step.delivered), step.id;
    if id !in s.tracked && (|s.tracked| >= LIMIT ==> step.delivered) {
      AppendOk(s, LogsEnded(id), s.socket, step.delivered, everywhere);
      forall k | 0 <= k < |s.streams| && CanSend(s.streams[k]) ensures !HasEnded(s', s.streams[k].id, everywhere) {
        if |s.tracked| >= LIMIT {
          EndedAfter(s, s', LogsEnded(id), s.socket, step.delivered, s.streams[k].id, everywhere);
        } else {
          assert !HasEnded(s, s.streams[k].id, everywhere);
        }
      }
      if |s.tracked| < LIMIT {
        assert !HasEnded(s', id, everywhere) by { assert !HasEnded(s, id, everywhere); }
      }
    }
  }

  lemma SendOk(s: State, k: nat, f: Frame, delivered: bool, s': State, everywhere: bool)
    requires FramesOk(s, everywhere) && k < |s.streams| && CanSend(s.streams[k])
    requires f.id == s.streams[k].id
    requires s'.sent == Deliver(s, f, s.streams[k].socket, delivered) && s'.socket == s.socket
    requires |s'.streams| == |s.streams| && s'.streams[k].id == s.streams[k].id
    requires f.LogsEnded? ==> !CanSend(s'.streams[k])
    requires forall i | 0 <= i < |s.streams| && i != k :: s'.streams[i] == s.streams[i]
    ensures FramesOk(s', everywhere)
  {
    AppendOk(s, f, s.streams[k].socket, delivered, everywhere);
    forall i | 0 <= i < |s.streams| && CanSend(s'.streams[i]) ensures !HasEnded(s', s'.streams[i].id, everywhere) {
      assert CanSend(s.streams[i]);
      EndedAfter(s, s', f, s.streams[k].socket, delivered, s.streams[i].id, everywhere);
    }
  }

  lemma TaskOk(s: State, step: Step, everywhere: bool)
    requires FramesOk(s, everywhere) && IsTaskStep(step)
    ensures FramesOk(ApplyTask(s, step), everywhere)
  {
    var s' := ApplyTask(s, step);
    if step.k < |s.streams| {
      var k, x := step.k, s.streams[step.k];
      if step.SendChunk? && x.pc == Streaming && !x.cancelled && 0 < |WithoutBreak(step.line)| <= MAX_TEXT {
        SendOk(s, k, Chunk(x.id, WithoutBreak(step.line)), step.delivered, s', everywhere);
      } else if step.SendEnded? && x.pc == Closing {
        SendOk(s, k, LogsEnded(x.id), step.delivered, s', everywhere);
      } else {
        QuietOk(s, s', everywhere);
      }
    }
  }

  lemma FramesStep(s: State, step: Step, everywhere: bool)
    requires FramesOk(s, everywhere) && !Stale(s, step, everywhere)
    ensures FramesOk(Apply(s, step), everywhere)
  {
    match step
    case Connect => ConnectOk(s, everywhere);
    case LeaveConnection => if s.open { QuietOk(s, Leave(s), everywhere); }
    case LogsStart(_, _) => if s.open { StartOk(s, step, everywhere); }
    case LogsStop(id) => if s.open { QuietOk(s, Stop(s, id), everywhere); }
    case _ => TaskOk(s, step, everywhere);
  }

  ghost predicate NeverStale(s: State, steps: seq<Step>, everywhere: bool) {
    forall n | 0 <= n < |steps| :: !Stale(RunFrom(s, steps[..n]), steps[n], everywhere)
  }

  lemma {:induction false} FramesRun(s: State, steps: seq<Step>, everywhere: bool)
    requires FramesOk(s, everywhere) && NeverStale(s, steps, everywhere)
    ensures FramesOk(RunFrom(s, steps), everywhere)
  {
    if steps != [] {
      var front := steps[..|steps| - 1];
      forall n | 0 <= n < |front| ensures !Stale(RunFrom(s, front[..n]), front[n], everywhere) {
        assert front[..n] == steps[..n];
      }
      FramesRun(s, front, everywhere);
      FramesStep(RunFrom(s, front), steps[|steps| - 1], everywhere);
    }
  }

  /** In runs without stale starts, on every socket a request id gets chunks, then at most one `logs.ended`,
      and nothing behind it. */
  lemma OneEndPerRequest(steps: seq<Step>, everywhere: bool)
    requires NeverStale(INIT, steps, everywhere)
    ensures ProperlyEnded(RunFrom(INIT, steps).sent, everywhere)
  {
    FramesRun(INIT, steps, everywhere);
  }

  // ----- The guard is exact -----

  /** A task that can send finishes and its `logs.ended` gets through. */
  lemma FinishSends(s: State, k: nat)
    requires k < |s.streams| && CanSend(s.streams[k]) && s.open
    ensures var t := RunFrom(s, Finish(k, true));
            && OnlyMoved(s, t, k)
            && t.sent == s.sent + [Sent(LogsEnded(s.streams[k].id), s.socket, s.streams[k].socket)]
  {
    RunThree(s, Begin(k), Close(k), SendEnded(k, true));
    MovesToOver(s, k, true);
    ClosesQuietly(s, k);
  }

  lemma ClosesQuietly(s: State, k: nat)
    requires k < |s.streams| && CanSend(s.streams[k])
    ensures var t := Apply(Apply(s, Begin(k)), Close(k));
            t == Move(s, k, Closing)
  {
    if s.streams[k].pc == Closing {
      assert s.streams[k := s.streams[k].(pc := Closing)] == s.streams;
    }
  }

  lemma TwoEndsClash(sent: seq<Sent>, x: Sent, everywhere: bool)
    requires x.frame.LogsEnded?
    requires exists y :: y in sent && y.frame == x.frame && Together(y.on, x.on, everywhere)
    ensures !ProperlyEnded(sent + [x], everywhere)
  {
    var y :| y in sent && y.frame == x.frame && Together(y.on, x.on, everywhere);
    var i :| 0 <= i < |sent| && sent[i] == y;
    assert (sent + [x])[i] == y && (sent + [x])[|sent|] == x;
  }

  lemma EndsAgain(s: State, k: nat, everywhere: bool)
    requires k < |s.streams| && CanSend(s.streams[k]) && s.open && HasEnded(s, s.streams[k].id, everywhere)
    ensures !ProperlyEnded(RunFrom(s, Finish(k, true)).sent, everywhere)
  {
    FinishSends(s, k);
    TwoEndsClash(s.sent, Sent(LogsEnded(s.streams[k].id), s.socket, s.streams[k].socket), everywhere);
  }

  lemma EndsTwice(s: State, i: nat, k: nat, everywhere: bool)
    requires i < |s.streams| && k < |s.streams| && i != k && s.streams[i].id == s.streams[k].id
    requires CanSend(s.streams[i]) && CanSend(s.streams[k]) && s.open
    ensures !ProperlyEnded(RunFrom(s, Finish(i, true) + Finish(k, true)).sent, everywhere)
  {
    FinishSends(s, i);
    var t := RunFrom(s, Finish(i, true));
    assert t.sent[|s.sent|] in t.sent;
    EndsAgain(t, k, everywhere);
    RunConcat(s, Finish(i, true), Finish(k, true));
  }

  lemma StaleClashes(s: State, step: Step, everywhere: bool) returns (more: seq<Step>)
    requires Stale(s, step, everywhere)
    ensures NoStarts(more) && !ProperlyEnded(RunFrom(Apply(s, step), more).sent, everywhere)
  {
    var t, id, n := Apply(s, step), step.id, |s.streams|;
    if HasEnded(s, id, everywhere) && |s.tracked| >= LIMIT {
      TwoEndsClash(s.sent, Sent(LogsEnded(id), s.socket, s.socket), everywhere);
      more := [];
    } else if HasEnded(s, id, everywhere) {
      assert HasEnded(t, id, everywhere);
      EndsAgain(t, n, everywhere);
      more := Finish(n, true);
    } else {
      var k: nat :| k < |s.streams| && CanSend(s.streams[k]) && s.streams[k].id == id;
      if |s.tracked| >= LIMIT {
        assert t.sent[|s.sent|] in t.sent;
        EndsAgain(t, k, everywhere);
        more := Finish(k, true);
      } else {
        EndsTwice(t, k, n, everywhere);
        more := Finish(k, true) + Finish(n, true);
      }
    }
  }

  /** After a start, every continuation without further starts keeps the frames of each request proper if and
      only if the start was not stale. */
  lemma OneEndIffNotStale(s: State, step: Step, everywhere: bool)
    requires FramesOk(s, everywhere) && step.LogsStart?
    ensures (forall more | NoStarts(more) :: ProperlyEnded(RunFrom(Apply(s, step), more).sent, everywhere))
       <==> !Stale(s, step, everywhere)
  {
    if Stale(s, step, everywhere) {
      var more := StaleClashes(s, step, everywhere);
    } else {
      FramesStep(s, step, everywhere);
      forall more | NoStarts(more) ensures ProperlyEnded(RunFrom(Apply(s, step), more).sent, everywhere) {
        forall n | 0 <= n < |more| ensures !Stale(RunFrom(Apply(s, step), more[..n]), more[n], everywhere) {
          assert more[n] in more;
        }
        FramesRun(Apply(s, step), more, everywhere);
      }
    }
  }

  // ----- Fresh ids -----

  /** The request ids of all starts, over all sockets, differ. */
  ghost predicate FreshIds(steps: seq<Step>) {
    forall i, k | 0 <= i < k < |steps| && steps[i].LogsStart? && steps[k].LogsStart? :: steps[i].id != steps[k].id
  }

  /** Nothing of this request has been seen. */
  ghost predicate Unused(s: State, id: Uuid) {
    && (forall k | 0 <= k < |s.streams| :: s.streams[k].id != id)
    && (forall x | x in s.sent :: x.frame.id != id)
  }

  lemma UnusedStep(s: State, step: Step, id: Uuid)
    requires Unused(s, id) && (step.LogsStart? ==> step.id != id)
    ensures Unused(Apply(s, step), id)
  {
    hide WithoutBreak;
  }

  lemma {:induction false} StillUnused(steps: seq<Step>, id: Uuid)
    requires forall i | 0 <= i < |steps| && steps[i].LogsStart? :: steps[i].id != id
    ensures Unused(RunFrom(INIT, steps), id)
  {
    if steps != [] {
      StillUnused(steps[..|steps| - 1], id);
      UnusedStep(RunFrom(INIT, steps[..|steps| - 1]), steps[|steps| - 1], id);
    }
  }

  /** With fresh ids no start is stale, so over the whole run each request gets at most one `logs.ended`. */
  lemma FreshIdsAreNeverStale(steps: seq<Step>, everywhere: bool)
    requires FreshIds(steps)
    ensures NeverStale(INIT, steps, everywhere)
    ensures ProperlyEnded(RunFrom(INIT, steps).sent, everywhere)
  {
    forall n | 0 <= n < |steps| ensures !Stale(RunFrom(INIT, steps[..n]), steps[n], everywhere) {
      if steps[n].LogsStart? {
        StillUnused(steps[..n], steps[n].id);
      }
    }
    OneEndPerRequest(steps, everywhere);
  }

  // ----- Inputs that fail -----

  /** Stop and start again under one id, all on the first socket. */
  lemma RestartReuses(id: Uuid)
    ensures var s := RunFrom(INIT, [Connect, LogsStart(id, true), LogsStop(id)]);
            Inv(s) && Reuses(s, LogsStart(id, true))
  {
    var a := Apply(INIT, Connect);
    var b := Apply(a, LogsStart(id, true));
    RunThree(INIT, Connect, LogsStart(id, true), LogsStop(id));
    StepInv(INIT, Connect);
    StepInv(a, LogsStart(id, true));
    StepInv(b, LogsStop(id));
    assert Apply(b, LogsStop(id)).streams[0].id == id;
  }

  /** A stream told to stop whose helper is slow to die, and a new socket. */
  function Leftover(id: Uuid): seq<Step> {
    [Connect, LogsStart(id, true), Begin(0)] + [LogsStop(id), Close(0), LeaveConnection] + [Connect]
  }

  lemma LeftoverState(id: Uuid)
    ensures RunFrom(INIT, Leftover(id)) == State([Stream(id, 1, Closing, true, false)], map[], {}, [], 2, true)
  {
    var one, two := [Connect, LogsStart(id, true), Begin(0)], [LogsStop(id), Close(0), LeaveConnection];
    RunThree(INIT, Connect, LogsStart(id, true), Begin(0));
    var s := RunFrom(INIT, one);
    assert s == State([Stream(id, 1, Streaming, false, false)], map[id := 0], {}, [], 1, true);
    RunThree(s, LogsStop(id), Close(0), LeaveConnection);
    var stopped := Apply(s, LogsStop(id));
    assert stopped == State([Stream(id, 1, Streaming, true, false)], map[], {}, [], 1, true);
    assert Apply(Apply(stopped, Close(0)), LeaveConnection)
        == State([Stream(id, 1, Closing, true, false)], map[], {}, [], 1, false);
    RunConcat(INIT, one, two);
    RunSnoc(INIT, one + two, Connect);
  }

  /** On the second socket the leftover's `logs.ended` comes before anything was requested there, and a start
      under its id, the first on that socket, is both a reuse and stale. */
  lemma LeftoverReachesTheNextSocket(id: Uuid)
    ensures var s := RunFrom(INIT, Leftover(id));
            && Apply(s, SendEnded(0, true)).sent == [Sent(LogsEnded(id), 2, 1)]
            && Reuses(s, LogsStart(id, true)) && Stale(s, LogsStart(id, true), false)
  {
    LeftoverState(id);
    assert RunFrom(INIT, Leftover(id)).streams[0].id == id;
  }
}
