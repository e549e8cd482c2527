/**
 Live log streams over one socket after another (agent/client/realtime.py:163-172, 180-181, 192-218,
 244-256, 288-293). The dictionary of running tasks is renewed for every socket, but the done callback
 of a task and the function it sends with are looked up when they are used, so a task that outlives its
 socket acts on the next one. As in the command protocol, a step is what happens between suspensions.
 */
module LogStreams {
  import opened Sequences
  import opened Registry

  const LIMIT := 3
  const MAX_TEXT := 16384

  /** Where a stream task is: not started, reading lines, in its finally block, cancelled there, or over. */
  datatype Pc = Created | Streaming | Closing | Interrupted | Over

  /** `socket` is the one it was requested on; `cancelled` once it was told to stop; `released` once its
      done callback ran. */
  datatype Stream = Stream(id: Uuid, socket: nat, pc: Pc, cancelled: bool, released: bool)

  datatype Frame = Chunk(id: Uuid, text: string) | LogsEnded(id: Uuid)

  /** A frame, the socket it was sent on and the one of the request it belongs to. */
  datatype Sent = Sent(frame: Frame, on: nat, from: nat)

  datatype State = State(
    streams: seq<Stream>,
    tracked: map<Uuid, nat>,   // log_tasks
    awaited: set<nat>,         // what leaving the last socket waits for
    sent: seq<Sent>,           // what reached sockets, in order
    socket: nat,               // how many sockets were opened
    open: bool)

  const INIT := State([], map[], {}, [], 0, false)

  datatype Step =
    | Connect
    | LeaveConnection
    | LogsStart(id: Uuid, delivered: bool)
    | LogsStop(id: Uuid)
    | Begin(k: nat)
    | SendChunk(k: nat, line: string, delivered: bool, raises: bool)
    | Close(k: nat)
    | SendEnded(k: nat, delivered: bool)
    | Callback(k: nat)

  predicate IsTaskStep(step: Step) {
    step.Begin? || step.SendChunk? || step.Close? || step.SendEnded? || step.Callback?
  }

  // ----- The connection loop -----

  /** Sending on the current socket; nothing gets through between two sockets. */
  function Deliver(s: State, f: Frame, from: nat, delivered: bool): seq<Sent> {
    if delivered && s.open then s.sent + [Sent(f, s.socket, from)] else s.sent
  }

  /** The next socket opens once every task awaited when the last one was left is cleaned up. */
  function Open(s: State): State {
    if s.open || exists k :: k in s.awaited && k < |s.streams| && !s.streams[k].released then s
    else s.(tracked := map[], awaited := {}, socket := s.socket + 1, open := true)
  }

  function Start(s: State, id: Uuid, delivered: bool): State {
    if id in s.tracked then s
    else if |s.tracked| >= LIMIT then s.(sent := Deliver(s, LogsEnded(id), s.socket, delivered))
    else
      s.(streams := s.streams + [Stream(id, s.socket, Created, false, false)],
         tracked := s.tracked[id := |s.streams|])
  }

  /** `task.cancel()`: inside the finally block it prevents the last send. */
  function Cancelled(x: Stream): Stream {
    x.(cancelled := true, pc := if x.pc == Closing then Interrupted else x.pc)
  }

  function Stop(s: State, id: Uuid): State {
    if id !in s.tracked then s
    else
      var k := s.tracked[id];
      s.(streams := if k < |s.streams| then s.streams[k := Cancelled(s.streams[k])] else s.streams,
         tracked := s.tracked - {id})
  }

  function Leave(s: State): State {
    var awaited := s.tracked.Values;
    s.(streams := seq(|s.streams|, k requires 0 <= k < |s.streams| =>
                        if k in awaited then Cancelled(s.streams[k]) else s.streams[k]),
       awaited := awaited, open := false)
  }

  // ----- The stream tasks -----

  /** `rstrip("\r\n")` on a line the helper printed. */
  function WithoutBreak(line: string): string {
    if line != "" && line[|line| - 1] in "\r\n" then WithoutBreak(line[..|line| - 1]) else line
  }

  function Move(s: State, k: nat, pc: Pc): State
    requires k < |s.streams|
  {
    s.(streams := s.streams[k := s.streams[k].(pc := pc)])
  }

  function ApplyTask(s: State, step: Step): State
    requires IsTaskStep(step)
  {
    if step.k >= |s.streams| then s else
    var k, x := step.k, s.streams[step.k];
    match step
    case Begin(_) =>
      if x.pc != Created then s
      else Move(s, k, if x.cancelled then Over else Streaming)
    case SendChunk(_, line, delivered, raises) =>
      var text := WithoutBreak(line);
      if x.pc != Streaming || x.cancelled || text == "" then s
      else if |text| > MAX_TEXT then Move(s, k, Closing)  // no chunk can be made of it: the task ends
      else
        Move(s, k, if raises then Closing else Streaming)
        .(sent := Deliver(s, Chunk(x.id, text), x.socket, delivered))
    case Close(_) =>
      if x.pc != Streaming then s else Move(s, k, Closing)
    case SendEnded(_, delivered) =>
      if x.pc == Interrupted then Move(s, k, Over)
      else if x.pc != Closing then s
      else Move(s, k, Over).(sent := Deliver(s, LogsEnded(x.id), x.socket, delivered))
    case Callback(_) =>
      if x.pc != Over || x.released then s
      else s.(streams := s.streams[k := x.(released := true)], tracked := s.tracked - {x.id})
  }

  function Apply(s: State, step: Step): State {
    match step
    case Connect => Open(s)
    case LeaveConnection => if s.open then Leave(s) else s
    case LogsStart(id, delivered) => if s.open then Start(s, id, delivered) else s
    case LogsStop(id) => if s.open then Stop(s, id) else s
    case _ => ApplyTask(s, step)
  }

  function RunFrom(s: State, steps: seq<Step>): State {
    if steps == [] then s else Apply(RunFrom(s, steps[..|steps| - 1]), steps[|steps| - 1])
  }

  lemma RunSnoc(s: State, steps: seq<Step>, step: Step)
    ensures RunFrom(s, steps + [step]) == Apply(RunFrom(s, steps), step)
  {
    assert (steps + [step])[..|steps|] == steps;
  }

  lemma {:induction false} RunConcat(s: State, a: seq<Step>, b: seq<Step>)
    ensures RunFrom(s, a + b) == RunFrom(RunFrom(s, a), b)
  {
    if b == [] {
      assert a + b == a;
    } else {
      var front, last := b[..|b| - 1], b[|b| - 1];
      RunConcat(s, a, front);
      ConcatSnoc(s, a, front, last);
      assert b == front + [last];
    }
  }

  lemma ConcatSnoc(s: State, a: seq<Step>, front: seq<Step>, last: Step)
    requires RunFrom(s, a + front) == RunFrom(RunFrom(s, a), front)
    ensures RunFrom(s, a + (front + [last])) == RunFrom(RunFrom(s, a), front + [last])
  {
    Associative(a, front, [last]);
    RunSnoc(s, a + front, last);
    RunSnoc(RunFrom(s, a), front, last);
  }

  // ----- Tracking -----

  /** Every stream that was not told to stop and whose callback has not run is found under its id. */
  ghost predicate Tracks(s: State) {
    forall k | 0 <= k < |s.streams| && !s.streams[k].cancelled && !s.streams[k].released ::
      s.streams[k].id in s.tracked && s.tracked[s.streams[k].id] == k
  }

  /** The dictionary only holds streams of its keys whose callback is still to come. */
  ghost predicate TrackedOk(s: State) {
    && |s.tracked| <= LIMIT
    && (forall id | id in s.tracked ::
          s.tracked[id] < |s.streams| && s.streams[s.tracked[id]].id == id && !s.streams[s.tracked[id]].released)
    && (forall k | 0 <= k < |s.streams| && s.streams[k].released :: s.streams[k].pc == Over)
  }

  /** At most one stream per id, over all sockets, still has its callback to come. */
  ghost predicate OnePerId(s: State) {
    forall i, k | 0 <= i < k < |s.streams| && !s.streams[i].released && !s.streams[k].released ::
      s.streams[i].id != s.streams[k].id
  }

  /** Between sockets, and when it was requested on an earlier one, a stream was told to stop. */
  ghost predicate LeftoversStopped(s: State) {
    forall k | 0 <= k < |s.streams| && !s.streams[k].released && !s.streams[k].cancelled ::
      s.open && s.streams[k].socket == s.socket
  }

  ghost predicate Inv(s: State) {
    Tracks(s) && TrackedOk(s) && OnePerId(s) && LeftoversStopped(s)
  }

  /** The start creates a task although an earlier one of that id, told to stop on this socket or an
      earlier one, is not cleaned up yet. */
  ghost predicate Reuses(s: State, step: Step) {
    && step.LogsStart? && s.open && step.id !in s.tracked && |s.tracked| < LIMIT
    && exists k :: 0 <= k < |s.streams| && s.streams[k].id == step.id && !s.streams[k].released
  }

  lemma StartInv(s: State, step: Step)
    requires Inv(s) && step.LogsStart? && s.open && !Reuses(s, step)
    ensures Inv(Start(s, step.id, step.delivered))
  {
    if step.id !in s.tracked && |s.tracked| < LIMIT {
      AddedInv(s, step.id);
    }
  }

  lemma AddedInv(s: State, id: Uuid)
    requires Inv(s) && s.open && id !in s.tracked && |s.tracked| < LIMIT
    requires forall k | 0 <= k < |s.streams| && !s.streams[k].released :: s.streams[k].id != id
    ensures Inv(s.(streams := s.streams + [Stream(id, s.socket, Created, false, false)],
                   tracked := s.tracked[id := |s.streams|]))
  {
    var s' := s.(streams := s.streams + [Stream(id, s.socket, Created, false, false)],
                 tracked := s.tracked[id := |s.streams|]);
    assert forall k | 0 <= k < |s.streams| :: s'.streams[k] == s.streams[k];
    AddIsOneMore(s.tracked, id, |s.streams|);
    AddedTracked(s, s', id);
    AddedOnePerId(s, s', id);
  }

  lemma AddedOnePerId(s: State, s': State, id: Uuid)
    requires OnePerId(s) && s'.streams == s.streams + [Stream(id, s.socket, Created, false, false)]
    requires forall k | 0 <= k < |s.streams| && !s.streams[k].released :: s.streams[k].id != id
    ensures OnePerId(s')
  {
    assert forall k | 0 <= k < |s.streams| :: s'.streams[k] == s.streams[k];
  }

  lemma AddedTracked(s: State, s': State, id: Uuid)
    requires TrackedOk(s) && |s'.tracked| <= LIMIT
    requires s'.streams == s.streams + [Stream(id, s.socket, Created, false, false)]
    requires s'.tracked == s.tracked[id := |s.streams|]
    ensures TrackedOk(s')
  {
    assert s'.streams[|s.streams|] == Stream(id, s.socket, Created, false, false);
    assert forall k | 0 <= k < |s.streams| :: s'.streams[k] == s.streams[k];
  }

  lemma StopInv(s: State, id: Uuid)
    requires Inv(s)
    ensures Inv(Stop(s, id))
  {
    DropIsSmaller(s.tracked, id);
  }

  lemma LeaveInv(s: State)
    requires Inv(s)
    ensures Inv(Leave(s))
  {
    var s' := Leave(s);
    forall k | 0 <= k < |s.streams|
      ensures s'.streams[k].id == s.streams[k].id && s'.streams[k].released == s.streams[k].released
      ensures s'.streams[k].released || s'.streams[k].cancelled
      ensures s.streams[k].pc == Over ==> s'.streams[k].pc == Over
    {
      assert !s.streams[k].released && !s.streams[k].cancelled ==> s.streams[k].id in s.tracked;
    }
  }

  lemma CallbackKeepsOthers(s: State, k: nat)
    requires Inv(s) && k < |s.streams| && s.streams[k].pc == Over && !s.streams[k].released
    ensures var s' := s.(streams := s.streams[k := s.streams[k].(released := true)],
                         tracked := s.tracked - {s.streams[k].id});
            Tracks(s') && OnePerId(s') && LeftoversStopped(s')
  {
    OthersDiffer(s, k);
  }

  lemma OthersDiffer(s: State, k: nat)
    requires OnePerId(s) && k < |s.streams| && !s.streams[k].released
    ensures forall i | 0 <= i < |s.streams| && i != k && !s.streams[i].released :: s.streams[i].id != s.streams[k].id
  {
  }

  lemma CallbackInv(s: State, k: nat)
    requires Inv(s) && k < |s.streams| && s.streams[k].pc == Over && !s.streams[k].released
    ensures Inv(ApplyTask(s, Callback(k)))
  {
    hide Tracks, TrackedOk, OnePerId, LeftoversStopped;
    CallbackKeepsOthers(s, k);
    CallbackKeepsTracked(s, k);
  }

  lemma CallbackKeepsTracked(s: State, k: nat)
    requires TrackedOk(s) && k < |s.streams| && s.streams[k].pc == Over
    ensures TrackedOk(s.(streams := s.streams[k := s.streams[k].(released := true)],
                         tracked := s.tracked - {s.streams[k].id}))
  {
    var s' := s.(streams := s.streams[k := s.streams[k].(released := true)],
                 tracked := s.tracked - {s.streams[k].id});
    DropIsSmaller(s.tracked, s.streams[k].id);
    forall i | i in s'.tracked
      ensures s'.tracked[i] < |s'.streams| && s'.streams[s'.tracked[i]].id == i && !s'.streams[s'.tracked[i]].released
    {
      assert s'.tracked[i] == s.tracked[i] && s.streams[s.tracked[i]].id == i;
    }
  }

  lemma DropIsSmaller(m: map<Uuid, nat>, id: Uuid)
    ensures |m - {id}| <= |m|
  {
    assert (m - {id}).Keys == m.Keys - {id};
  }

  lemma AddIsOneMore(m: map<Uuid, nat>, id: Uuid, k: nat)
    requires id !in m
    ensures |m[id := k]| == |m| + 1
  {
    assert m[id := k].Keys == m.Keys + {id};
  }

  lemma MoveInv(s: State, k: nat, pc: Pc, sent: seq<Sent>)
    requires Inv(s) && k < |s.streams| && s.streams[k].pc != Over
    ensures Inv(Move(s, k, pc).(sent := sent))
  {
  }

  lemma TaskInv(s: State, step: Step)
    requires Inv(s) && IsTaskStep(step)
    ensures Inv(ApplyTask(s, step))
  {
    if step.k < |s.streams| {
      var s', k := ApplyTask(s, step), step.k;
      if step.Callback? {
        if s.streams[k].pc == Over && !s.streams[k].released { CallbackInv(s, k); }
      } else if s' != s {
        MoveInv(s, k, s'.streams[k].pc, s'.sent);
      }
    }
  }

  lemma StepInv(s: State, step: Step)
    requires Inv(s) && !Reuses(s, step)
    ensures Inv(Apply(s, step))
  {
    match step
    case Connect =>
    case LeaveConnection => LeaveInv(s);
    case LogsStart(_, _) => if s.open { StartInv(s, step); }
    case LogsStop(id) => StopInv(s, id);
    case _ => TaskInv(s, step);
  }

  /** No start in `steps` reuses an id that is not cleaned up yet. */
  ghost predicate NoReuse(s: State, steps: seq<Step>) {
    forall n | 0 <= n < |steps| :: !Reuses(RunFrom(s, steps[..n]), steps[n])
  }

  lemma NoReuseFront(s: State, steps: seq<Step>)
    requires steps != [] && NoReuse(s, steps)
    ensures NoReuse(s, steps[..|steps| - 1])
    ensures !Reuses(RunFrom(s, steps[..|steps| - 1]), steps[|steps| - 1])
  {
    var front := steps[..|steps| - 1];
    forall m | 0 <= m < |front| ensures !Reuses(RunFrom(s, front[..m]), front[m]) {
      assert front[..m] == steps[..m];
    }
  }

  lemma {:induction false} RunInv(s: State, steps: seq<Step>)
    requires Inv(s) && NoReuse(s, steps)
    ensures Inv(RunFrom(s, steps))
  {
    if steps != [] {
      var n := |steps| - 1;
      NoReuseFront(s, steps);
      RunInv(s, steps[..n]);
      StepInv(RunFrom(s, steps[..n]), steps[n]);
    }
  }

  /** The streams that run and were not told to stop. */
  ghost function Running(s: State): set<nat> {
    set k: nat | k < |s.streams| && s.streams[k].pc != Over && !s.streams[k].cancelled
  }

  lemma {:induction false} ValuesAreFew(m: map<Uuid, nat>)
    ensures |m.Values| <= |m|
    decreases |m|
  {
    if m == map[] {
      assert m.Values == {};
    } else {
      var id :| id in m;
      var rest := m - {id};
      ValuesAreFew(rest);
      assert m.Keys == rest.Keys + {id};
      assert m.Values <= rest.Values + {m[id]};
      SubsetCardinality(m.Values, rest.Values + {m[id]});
    }
  }

  lemma RunningAreFew(s: State)
    requires Inv(s)
    ensures forall k | k in Running(s) :: s.streams[k].id in s.tracked && s.tracked[s.streams[k].id] == k
    ensures |Running(s)| <= |s.tracked|
  {
    forall k | k in Running(s) ensures k in s.tracked.Values {
      assert s.streams[k].id in s.tracked;
    }
    ValuesAreFew(s.tracked);
    SubsetCardinality(Running(s), s.tracked.Values);
  }

  /** In runs over any number of sockets without such reuse, every running stream that was not told to stop
      is tracked, so that it can be stopped and is cancelled with its socket, and there are at most three. */
  lemma {:induction false} RunningStreamsAreTracked(steps: seq<Step>)
    requires NoReuse(INIT, steps)
    ensures var s := RunFrom(INIT, steps);
            && (forall k | k in Running(s) :: s.streams[k].id in s.tracked && s.tracked[s.streams[k].id] == k)
            && |Running(s)| <= |s.tracked| <= LIMIT
            && (forall k | k in Running(s) :: s.open && s.streams[k].socket == s.socket)
  {
    RunInv(INIT, steps);
    RunningAreFew(RunFrom(INIT, steps));
  }

  /** Leaving the connection tells every stream that is still running to stop. */
  lemma {:induction false} LeavingStopsEverything(steps: seq<Step>)
    requires NoReuse(INIT, steps)
    ensures Running(Apply(RunFrom(INIT, steps), LeaveConnection)) == {}
  {
    RunInv(INIT, steps);
    LeaveInv(RunFrom(INIT, steps));
  }

  // ----- Reuse loses track -----

  ghost predicate NoStarts(steps: seq<Step>) {
    forall step | step in steps :: !step.LogsStart?
  }

  lemma NoStartsNoReuse(s: State, steps: seq<Step>)
    requires NoStarts(steps)
    ensures NoReuse(s, steps)
  {
    forall n | 0 <= n < |steps| ensures !Reuses(RunFrom(s, steps[..n]), steps[n]) {
      assert steps[n] in steps;
    }
  }

  /** The rest of the life of stream `k`. */
  function Finish(k: nat, delivered: bool): seq<Step> {
    [Begin(k), Close(k), SendEnded(k, delivered)]
  }

  lemma RunThree(s: State, a: Step, b: Step, c: Step)
    ensures RunFrom(s, [a, b, c]) == Apply(Apply(Apply(s, a), b), c)
  {
    assert [a, b, c][..2] == [a, b] && [a, b][..1] == [a] && [a][..0] == [];
    assert RunFrom(s, [a]) == Apply(s, a);
  }

  /** Only stream `k`, and what was sent, may differ. */
  ghost predicate OnlyMoved(s: State, t: State, k: nat)
    requires k < |s.streams|
  {
    && |t.streams| == |s.streams| && t == s.(streams := t.streams, sent := t.sent)
    && t.streams[k].id == s.streams[k].id && t.streams[k].released == s.streams[k].released
    && forall i | 0 <= i < |s.streams| && i != k :: t.streams[i] == s.streams[i]
  }

  lemma BeginMoves(s: State, k: nat)
    requires k < |s.streams|
    ensures var t := Apply(s, Begin(k)); OnlyMoved(s, t, k) && t.streams[k].pc != Created
  {
  }

  lemma CloseMoves(s: State, k: nat)
    requires k < |s.streams| && s.streams[k].pc != Created
    ensures var t := Apply(s, Close(k));
            OnlyMoved(s, t, k) && t.streams[k].pc != Created && t.streams[k].pc != Streaming
  {
  }

  lemma EndMoves(s: State, k: nat, delivered: bool)
    requires k < |s.streams| && s.streams[k].pc != Created && s.streams[k].pc != Streaming
    ensures var t := Apply(s, SendEnded(k, delivered)); OnlyMoved(s, t, k) && t.streams[k].pc == Over
  {
  }

  lemma MovesToOver(s: State, k: nat, delivered: bool)
    requires k < |s.streams|
    ensures var t := RunFrom(s, Finish(k, delivered)); OnlyMoved(s, t, k) && t.streams[k].pc == Over
  {
    RunThree(s, Begin(k), Close(k), SendEnded(k, delivered));
    BeginMoves(s, k);
    CloseMoves(Apply(s, Begin(k)), k);
    EndMoves(Apply(Apply(s, Begin(k)), Close(k)), k, delivered);
  }

  /** When the leftover finishes, its callback drops the stream that took its id. */
  lemma CallbackDrops(s: State, step: Step) returns (more: seq<Step>)
    requires Reuses(s, step)
    ensures NoStarts(more) && !Tracks(RunFrom(Apply(s, step), more))
  {
    var k: nat :| k < |s.streams| && s.streams[k].id == step.id && !s.streams[k].released;
    var t, n := Apply(s, step), |s.streams|;
    assert t.streams[k] == s.streams[k] && t.streams[n] == Stream(step.id, s.socket, Created, false, false);
    MovesToOver(t, k, false);
    more := Finish(k, false) + [Callback(k)];
    RunSnoc(t, Finish(k, false), Callback(k));
    var t' := RunFrom(t, more);
    assert t'.streams[n] == t.streams[n] && step.id !in t'.tracked;
  }

  /** The guard is exact: after a start, every continuation without further starts, also over later sockets,
      keeps all streams tracked if and only if the start did not reuse an id that was not cleaned up. */
  lemma TrackingIffNoReuse(s: State, step: Step)
    requires Inv(s) && step.LogsStart?
    ensures (forall more | NoStarts(more) :: Tracks(RunFrom(Apply(s, step), more))) <==> !Reuses(s, step)
  {
    if Reuses(s, step) {
      var more := CallbackDrops(s, step);
    } else {
      StepInv(s, step);
      forall more | NoStarts(more) ensures Tracks(RunFrom(Apply(s, step), more)) {
        NoStartsNoReuse(Apply(s, step), more);
        RunInv(Apply(s, step), more);
      }
    }
  }
}
