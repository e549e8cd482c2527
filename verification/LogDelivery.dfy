/**
 What log streams bring the dashboard (agent/client/realtime.py:192-218, 244-256): every line that was sent
 while the stream ran, in order, and the `logs.ended` behind them.
 */
module LogDelivery {
  import opened Sequences
  import opened Registry
  import opened LogStreams

  // ----- Lines -----

  lemma DropsLast(s: string, c: char)
    requires c == '\r' || c == '\n'
    ensures WithoutBreak(s + [c]) == WithoutBreak(s)
  {
    assert (s + [c])[..|s|] == s;
  }

  lemma NothingDropped(text: string)
    requires text != "" ==> text[|text| - 1] != '\r' && text[|text| - 1] != '\n'
    ensures WithoutBreak(text) == text
  {
  }

  /** Line breaks at the end of a line are dropped, and nothing else. */
  lemma {:induction false} BreaksAreDropped(text: string, breaks: string)
    requires forall c | c in breaks :: c == '\r' || c == '\n'
    requires text != "" ==> text[|text| - 1] != '\r' && text[|text| - 1] != '\n'
    ensures WithoutBreak(text + breaks) == text
  {
    hide WithoutBreak;
    if breaks == "" {
      assert text + breaks == text;
      NothingDropped(text);
    } else {
      var n := |breaks| - 1;
      assert breaks[n] in breaks && forall c | c in breaks[..n] :: c in breaks;
      BreaksAreDropped(text, breaks[..n]);
      DropsLast(text + breaks[..n], breaks[n]);
      assert text + breaks == text + breaks[..n] + [breaks[n]];
    }
  }

  /** The texts of the chunks with this request id, in the order sent. */
  function ChunksOf(sent: seq<Sent>, id: Uuid): seq<string> {
    if sent == [] then []
    else
      var last := sent[|sent| - 1].frame;
      ChunksOf(sent[..|sent| - 1], id) + (if last.Chunk? && last.id == id then [last.text] else [])
  }

  lemma ChunksSnoc(sent: seq<Sent>, x: Sent, id: Uuid)
    ensures ChunksOf(sent + [x], id)
         == ChunksOf(sent, id) + (if x.frame.Chunk? && x.frame.id == id then [x.frame.text] else [])
  {
    assert (sent + [x])[..|sent|] == sent;
  }

  /** The line a step brings for this id: its stream runs and was not told to stop, there is a socket, the send gets
      through, and there is text of a length that fits a frame. */
  function LineOf(s: State, step: Step, id: Uuid): seq<string> {
    if && step.SendChunk? && step.k < |s.streams| && s.streams[step.k].id == id
       && s.streams[step.k].pc == Streaming && !s.streams[step.k].cancelled
       && s.open && step.delivered && 0 < |WithoutBreak(step.line)| <= 16384
    then [WithoutBreak(step.line)] else []
  }

  function LinesOf(steps: seq<Step>, id: Uuid): seq<string> {
    if steps == [] then []
    else
      var front := steps[..|steps| - 1];
      LinesOf(front, id) + LineOf(RunFrom(INIT, front), steps[|steps| - 1], id)
  }

  lemma StepBringsLine(s: State, step: Step, id: Uuid)
    ensures ChunksOf(Apply(s, step).sent, id) == ChunksOf(s.sent, id) + LineOf(s, step, id)
  {
    hide ChunksOf, WithoutBreak;
    assert ChunksOf(s.sent, id) + [] == ChunksOf(s.sent, id);
    if Apply(s, step).sent != s.sent {
      var x := OneMoreSent(s, step);
      ChunksSnoc(s.sent, x, id);
    }
  }

  /** A step sends at most one frame: a line, or the end of a stream. */
  lemma OneMoreSent(s: State, step: Step) returns (x: Sent)
    requires Apply(s, step).sent != s.sent
    ensures Apply(s, step).sent == s.sent + [x]
    ensures if x.frame.Chunk? then LineOf(s, step, x.frame.id) == [x.frame.text]
            else forall id :: LineOf(s, step, id) == []
    ensures forall id | id != x.frame.id :: LineOf(s, step, id) == []
  {
    hide WithoutBreak;
    x := Apply(s, step).sent[|s.sent|];
  }

  /** Over every run, the chunks a request got are the fitting lines its streams read while a socket was there and
      the send got through: all of them, in order, and no others. */
  lemma {:induction false} ChunksAreTheLines(steps: seq<Step>, id: Uuid)
    ensures ChunksOf(RunFrom(INIT, steps).sent, id) == LinesOf(steps, id)
  {
    if steps != [] {
      var front := steps[..|steps| - 1];
      ChunksAreTheLines(front, id);
      StepBringsLine(RunFrom(INIT, front), steps[|steps| - 1], id);
    }
  }

  // ----- One stream -----

  predicate Reads(s: State, k: nat) {
    k < |s.streams| && s.streams[k].pc == Streaming && !s.streams[k].cancelled
  }

  /** A line of a running stream reaches the open socket as one chunk of its id. */
  lemma LineIsSent(steps: seq<Step>, k: nat, line: string, raises: bool)
    requires var s := RunFrom(INIT, steps); Reads(s, k) && s.open && 0 < |WithoutBreak(line)| <= 16384
    ensures var s := RunFrom(INIT, steps);
            RunFrom(INIT, steps + [SendChunk(k, line, true, raises)]).sent
            == s.sent + [Sent(Chunk(s.streams[k].id, WithoutBreak(line)), s.socket, s.streams[k].socket)]
  {
    RunSnoc(INIT, steps, SendChunk(k, line, true, raises));
  }

  /** The helper's output, line by line. */
  function Lines(k: nat, lines: seq<string>): seq<Step> {
    seq(|lines|, i requires 0 <= i < |lines| => SendChunk(k, lines[i], true, false))
  }

  function Shown(lines: seq<string>, id: Uuid, on: nat, from: nat): seq<Sent> {
    if lines == [] then []
    else
      var text := WithoutBreak(lines[|lines| - 1]);
      Shown(lines[..|lines| - 1], id, on, from) + (if text == "" then [] else [Sent(Chunk(id, text), on, from)])
  }

  lemma {:induction false} LinesAreSent(s: State, k: nat, lines: seq<string>)
    requires Reads(s, k) && s.open && forall line | line in lines :: |WithoutBreak(line)| <= 16384
    ensures RunFrom(s, Lines(k, lines))
         == s.(sent := s.sent + Shown(lines, s.streams[k].id, s.socket, s.streams[k].socket))
  {
    if lines == [] {
      assert s.sent + [] == s.sent;
    } else {
      var n := |lines| - 1;
      LinesAreSent(s, k, lines[..n]);
      assert Lines(k, lines) == Lines(k, lines[..n]) + [SendChunk(k, lines[n], true, false)];
      RunSnoc(s, Lines(k, lines[..n]), SendChunk(k, lines[n], true, false));
      LineStep(RunFrom(s, Lines(k, lines[..n])), k, lines[n]);
      Associative(s.sent, Shown(lines[..n], s.streams[k].id, s.socket, s.streams[k].socket),
                  ShownOne(s, k, lines[n]));
    }
  }

  function ShownOne(s: State, k: nat, line: string): seq<Sent>
    requires k < |s.streams|
  {
    var text, x := WithoutBreak(line), s.streams[k];
    if text == "" then [] else [Sent(Chunk(x.id, text), s.socket, x.socket)]
  }

  lemma LineStep(s: State, k: nat, line: string)
    requires Reads(s, k) && s.open && |WithoutBreak(line)| <= 16384
    ensures Apply(s, SendChunk(k, line, true, false)) == s.(sent := s.sent + ShownOne(s, k, line))
  {
    assert s.streams[k := s.streams[k].(pc := Streaming)] == s.streams;
    assert s.sent + [] == s.sent;
  }

  lemma RunTwo(s: State, a: Step, b: Step)
    ensures RunFrom(s, [a, b]) == Apply(Apply(s, a), b)
  {
    assert [a, b][..1] == [a] && [a][..0] == [];
    assert RunFrom(s, [a]) == Apply(s, a);
  }

  /** What a stream that is started, reads these lines and closes does. */
  function WholeStream(id: Uuid, k: nat, lines: seq<string>): seq<Step> {
    [LogsStart(id, true), Begin(k)] + Lines(k, lines) + [Close(k), SendEnded(k, true)]
  }

  /** While fewer than three streams are tracked, a request for a new one brings all its lines, in order, and its
      `logs.ended`. */
  lemma StreamIsDelivered(s: State, id: Uuid, lines: seq<string>)
    requires s.open && id !in s.tracked && |s.tracked| < 3
    requires forall line | line in lines :: |WithoutBreak(line)| <= 16384
    ensures var t := RunFrom(s, WholeStream(id, |s.streams|, lines));
            && t.sent == s.sent + Shown(lines, id, s.socket, s.socket) + [Sent(LogsEnded(id), s.socket, s.socket)]
            && |t.streams| == |s.streams| + 1 && t.streams[|s.streams|].pc == Over
  {
    hide RunFrom, Lines, Shown;
    var k := |s.streams|;
    var open, close := [LogsStart(id, true), Begin(k)], [Close(k), SendEnded(k, true)];
    RunTwo(s, LogsStart(id, true), Begin(k));
    var a := RunFrom(s, open);
    assert Reads(a, k) && a.streams[k] == Stream(id, s.socket, Streaming, false, false) && a.sent == s.sent;
    LinesAreSent(a, k, lines);
    RunConcat(s, open, Lines(k, lines));
    RunConcat(s, open + Lines(k, lines), close);
    Closes(RunFrom(s, open + Lines(k, lines)), k);
  }

  /** A stream that runs, or was told to stop, closes with its `logs.ended`. */
  lemma Closes(s: State, k: nat)
    requires k < |s.streams| && s.streams[k].pc == Streaming && s.open
    ensures var t := RunFrom(s, [Close(k), SendEnded(k, true)]);
            && t.sent == s.sent + [Sent(LogsEnded(s.streams[k].id), s.socket, s.streams[k].socket)]
            && |t.streams| == |s.streams| && t.streams[k].pc == Over
  {
    RunTwo(s, Close(k), SendEnded(k, true));
  }

  /** A line that is too long for a frame is not sent and ends the stream. */
  lemma LongLineEndsTheStream(s: State, k: nat, line: string)
    requires Reads(s, k) && s.open && |WithoutBreak(line)| > 16384
    ensures var t := RunFrom(s, [SendChunk(k, line, true, false), SendEnded(k, true)]);
            && t.sent == s.sent + [Sent(LogsEnded(s.streams[k].id), s.socket, s.streams[k].socket)]
            && |t.streams| == |s.streams| && t.streams[k].pc == Over
  {
    RunTwo(s, SendChunk(k, line, true, false), SendEnded(k, true));
  }

  /** While three are tracked, a request for another one is answered with its `logs.ended` alone. */
  lemma FourthStreamIsRefused(s: State, id: Uuid)
    requires s.open && id !in s.tracked && |s.tracked| >= 3
    ensures Apply(s, LogsStart(id, true)) == s.(sent := s.sent + [Sent(LogsEnded(id), s.socket, s.socket)])
  {
  }

  /** A stream that is told to stop sends no line any more, only its `logs.ended`. */
  lemma StopEndsTheStream(s: State, id: Uuid, line: string)
    requires s.open && id in s.tracked && Reads(s, s.tracked[id]) && s.streams[s.tracked[id]].id == id
    ensures var k := s.tracked[id];
            var t := RunFrom(s, [LogsStop(id), SendChunk(k, line, true, false)] + [Close(k), SendEnded(k, true)]);
            && t.sent == s.sent + [Sent(LogsEnded(id), s.socket, s.streams[k].socket)]
            && id !in t.tracked && |t.streams| == |s.streams| && t.streams[k].pc == Over
  {
    hide RunFrom;
    var k := s.tracked[id];
    var stop, close := [LogsStop(id), SendChunk(k, line, true, false)], [Close(k), SendEnded(k, true)];
    RunTwo(s, LogsStop(id), SendChunk(k, line, true, false));
    RunConcat(s, stop, close);
    RunTwo(RunFrom(s, stop), Close(k), SendEnded(k, true));
    Closes(RunFrom(s, stop), k);
  }
}
