/**
 The dictionary `log_tasks` and the tasks filed in it (agent/client/realtime.py:164, 192-218, 244-256,
 288-293). Every method is one step of the model, so what holds of runs holds of these objects.
 */
module LogRuntime {
  import opened Registry
  import opened LogStreams

  class LogTasks {
    var streams: seq<Stream>
    var logTasks: map<Uuid, nat>
    var awaited: set<nat>
    var socket: nat
    var open: bool
    ghost var sent: seq<Sent>
    ghost var trace: seq<Step>

    ghost function View(): State
      reads this
    {
      State(streams, logTasks, awaited, sent, socket, open)
    }

    ghost predicate Valid()
      reads this
    {
      View() == RunFrom(INIT, trace)
    }

    constructor ()
      ensures Valid() && trace == [] && View() == INIT
    {
      streams, logTasks, awaited, socket, open := [], map[], {}, 0, false;
      sent, trace := [], [];
    }

    /** A new pass of the outer loop with a connection that is established: `log_tasks` is renewed. */
    method Connect()
      requires Valid() && !open && forall k | k in awaited && k < |streams| :: streams[k].released
      modifies this
      ensures Valid() && trace == old(trace) + [Step.Connect]
      ensures open && socket == old(socket) + 1 && logTasks == map[] && streams == old(streams)
    {
      RunSnoc(INIT, trace, Step.Connect);
      logTasks, awaited, socket, open := map[], {}, socket + 1, true;
      trace := trace + [Step.Connect];
    }

    /** A logs.start frame; true when the limit was answered instead. */
    method LogsStart(id: Uuid, ghost delivered: bool) returns (refused: bool)
      requires Valid() && open
      modifies this
      ensures Valid() && trace == old(trace) + [Step.LogsStart(id, delivered)]
      ensures refused <==> id !in old(logTasks) && |old(logTasks)| >= LIMIT
      ensures id in logTasks || refused
      ensures refused ==> streams == old(streams)
                          && sent == if delivered then old(sent) + [Sent(LogsEnded(id), socket, socket)] else old(sent)
      ensures id in old(logTasks) ==> streams == old(streams) && sent == old(sent)
      ensures id !in old(logTasks) && !refused ==>
                && streams == old(streams) + [Stream(id, socket, Created, false, false)]
                && logTasks == old(logTasks)[id := |old(streams)|] && sent == old(sent)
    {
      RunSnoc(INIT, trace, Step.LogsStart(id, delivered));
      trace := trace + [Step.LogsStart(id, delivered)];
      refused := id !in logTasks && |logTasks| >= LIMIT;
      if refused {
        sent := Deliver(View(), LogsEnded(id), socket, delivered);
      } else if id !in logTasks {
        logTasks := logTasks[id := |streams|];
        streams := streams + [Stream(id, socket, Created, false, false)];
      }
    }

    method LogsStop(id: Uuid)
      requires Valid() && open
      modifies this
      ensures Valid() && trace == old(trace) + [Step.LogsStop(id)]
      ensures id !in logTasks
      ensures streams == if id in old(logTasks) && old(logTasks)[id] < |old(streams)|
                         then old(streams)[old(logTasks)[id] := Cancelled(old(streams)[old(logTasks)[id]])]
                         else old(streams)
    {
      RunSnoc(INIT, trace, Step.LogsStop(id));
      if id in logTasks {
        var task := logTasks[id];
        logTasks := logTasks - {id};
        if task < |streams| {
          streams := streams[task := Cancelled(streams[task])];
        }
      }
      trace := trace + [Step.LogsStop(id)];
    }

    /** Leaving the connection block: every filed task is cancelled and waited for. */
    method LeaveConnection()
      requires Valid() && open
      modifies this
      ensures Valid() && trace == old(trace) + [Step.LeaveConnection]
      ensures !open && awaited == logTasks.Values && |streams| == |old(streams)|
      ensures forall id | id in logTasks && logTasks[id] < |streams| :: streams[logTasks[id]].cancelled
    {
      RunSnoc(INIT, trace, Step.LeaveConnection);
      trace := trace + [Step.LeaveConnection];
      awaited, open := logTasks.Values, false;
      streams := CancelAll(streams, awaited);
      assert streams == Leave(old(View())).streams;
    }

    /** `task.cancel()` for each of the tasks. */
    static method CancelAll(streams: seq<Stream>, tasks: set<nat>) returns (r: seq<Stream>)
      ensures |r| == |streams|
      ensures forall i | 0 <= i < |r| :: r[i] == if i in tasks then Cancelled(streams[i]) else streams[i]
    {
      r := streams;
      for k := 0 to |streams|
        invariant |r| == |streams|
        invariant forall i | 0 <= i < |r| :: r[i] == if i < k && i in tasks then Cancelled(streams[i]) else streams[i]
      {
        if k in tasks {
          r := r[k := Cancelled(r[k])];
        }
      }
    }

    /** The stream task `step.k` runs to its next suspension point, or its done callback runs: that one
        removes whatever the current dictionary files under the request id. */
    method ResumeTask(step: Step)
      requires Valid() && IsTaskStep(step)
      modifies this`streams, this`logTasks, this`sent, this`trace
      ensures Valid() && trace == old(trace) + [step]
      ensures step.SendChunk? && step.k < |streams| ==>
                var x, text := old(streams)[step.k], WithoutBreak(step.line);
                sent == if x.pc == Streaming && !x.cancelled && 0 < |text| <= 16384 && step.delivered && open
                        then old(sent) + [Sent(Chunk(x.id, text), socket, x.socket)] else old(sent)
      ensures step.SendEnded? && step.k < |streams| ==>
                var x := old(streams)[step.k];
                && streams[step.k].pc == (if x.pc == Closing || x.pc == Interrupted then Over else x.pc)
                && sent == if x.pc == Closing && step.delivered && open
                           then old(sent) + [Sent(LogsEnded(x.id), socket, x.socket)] else old(sent)
    {
      hide RunFrom;
      RunSnoc(INIT, trace, step);
      trace := trace + [step];
      if step.k < |streams| {
        var k, x := step.k, streams[step.k];
        match step {
          case Begin(_) =>
            if x.pc == Created { Suspend(k, if x.cancelled then Over else Streaming); }
          case SendChunk(_, line, delivered, raises) =>
            var text := WithoutBreak(line);
            if x.pc == Streaming && !x.cancelled && text != "" {
              if |text| <= MAX_TEXT {
                sent := Deliver(View(), Chunk(x.id, text), x.socket, delivered);
              }
              if raises || |text| > MAX_TEXT { Suspend(k, Closing); }
            }
          case Close(_) =>
            if x.pc == Streaming { Suspend(k, Closing); }
          case SendEnded(_, delivered) =>
            if x.pc == Closing { sent := Deliver(View(), LogsEnded(x.id), x.socket, delivered); }
            if x.pc == Closing || x.pc == Interrupted { Suspend(k, Over); }
          case Callback(_) =>
            if x.pc == Over && !x.released {
              logTasks := logTasks - {x.id};
              streams := streams[k := x.(released := true)];
            }
        }
      }
    }

    method Suspend(k: nat, pc: Pc)
      requires k < |streams|
      modifies this`streams
      ensures streams == old(streams)[k := old(streams)[k].(pc := pc)]
    {
      streams := streams[k := streams[k].(pc := pc)];
    }
  }
}
