/** What every step of the command protocol keeps. */
module CommandInvariants {
  import opened Sequences
  import opened Registry
  import opened CommandProtocol

  // ----- Vocabulary -----

  /** The frames of execution `e`, in order. */
  function Project(h: seq<Frame>, e: nat): seq<Frame> {
    if h == [] then []
    else Project(h[..|h| - 1], e) + (if h[|h| - 1].exec == e then [h[|h| - 1]] else [])
  }

  /** The frames of the same execution that must precede `f`. */
  function Earlier(f: Frame): seq<Frame> {
    match f.kind
    case Ack => []
    case Running => [f.(kind := Ack)]
    case Terminal(_) => [f.(kind := Ack), f.(kind := Running)]
  }

  ghost predicate Causal(h: seq<Frame>) {
    forall i, f | 0 <= i < |h| && f in Earlier(h[i]) :: f in h[..i]
  }

  /** Everything an execution that ended as `pc` says has emitted. */
  function Lifecycle(e: nat, id: Uuid, pc: Pc): seq<Frame> {
    var opening := [Frame(e, id, Ack), Frame(e, id, Running)];
    match pc
    case Created => []
    case Ended(NeverStarted) => []
    case Ended(Reported(outcome)) => opening + [Frame(e, id, Terminal(outcome))]
    case _ => opening
  }

  ghost predicate ExecutionOk(e: nat, x: Execution) {
    && x.emitted == Lifecycle(e, x.id, x.pc)
    && x.spawned == (match x.pc
                     case Created => 0
                     case Spawning => 0
                     case Ended(_) => if x.spawned == 0 then 0 else 1
                     case _ => 1)
    && (x.observed.Some? <==> x.pc.Ended? && x.pc.end.Reported? && FromExit(x.pc.end.outcome))
    && (x.observed.Some? ==> x.pc == Ended(Reported(OutcomeOf(x.observed.value))))
  }

  /** The outcomes reported only after an exit code was read. */
  predicate FromExit(o: Outcome) {
    o == Success || o.why.ExitCode?
  }

  /** The id of the execution is still held in flight: it has not ended, or never started. */
  predicate Holding(pc: Pc) {
    pc.Ended? ==> pc.end == NeverStarted
  }

  // ----- The invariant, in independent parts -----

  ghost predicate ExecutionsOk(xs: seq<Execution>) {
    forall e | 0 <= e < |xs| :: ExecutionOk(e, xs[e])
  }

  ghost predicate Traced(h: seq<Frame>, xs: seq<Execution>) {
    && (forall i | 0 <= i < |h| :: h[i].exec < |xs|)
    && (forall e | 0 <= e < |xs| :: xs[e].emitted == Project(h, e))
    && Distinct(h)
    && Causal(h)
  }

  ghost predicate OutboxOk(s: State) {
    && s.enqueued == s.popped + s.outbox
    && (forall f | f in s.popped :: f in s.crossed)
    && Causal(s.crossed)
    && (|| Destutter(s.outboxCrossed) == s.popped
        || (s.outbox != [] && Destutter(s.outboxCrossed) == s.popped + [s.outbox[0]]))
    && (forall f | f in s.outboxCrossed :: f in s.crossed)
    && (forall f | f in s.crossed :: f in s.enqueued)
  }

  ghost predicate PhaseOk(s: State) {
    match s.phase
    case SendingHead(frame, delivered) =>
      && s.outbox != [] && frame == s.outbox[0]
      && (delivered ==> Destutter(s.outboxCrossed) == s.popped + [frame])
    case Replaying(frames, next, delivered) =>
      && Causal(frames)
      && (forall f | f in frames :: f in s.enqueued)
      && next <= |frames| && (delivered ==> next < |frames| && frames[next] in s.crossed)
      && (forall i | 0 <= i < next :: frames[i] in s.crossed)
    case _ => true
  }

  /** The completed execution that `frames` were recorded for: the latest one of its id. */
  ghost predicate LatestOf(xs: seq<Execution>, e: nat, id: Uuid, frames: seq<Frame>) {
    && e < |xs| && xs[e].id == id && !Holding(xs[e].pc) && xs[e].emitted == frames
    && forall k | e < k < |xs| :: xs[k].id != id
  }

  ghost predicate RegistryOk(s: State, max: nat) {
    && s.book == After(s.ops, max)
    && (forall e | 0 <= e < |s.execs| && Holding(s.execs[e].pc) ::
          s.execs[e].id in s.book.inflight)
    && (forall e, k | 0 <= e < k < |s.execs| && Holding(s.execs[e].pc) ::
          s.execs[k].id != s.execs[e].id)
    && (forall id | id in s.book.frames :: exists e :: LatestOf(s.execs, e, id, s.book.frames[id]))
  }

  ghost predicate ClaimsOk(s: State, max: nat) {
    && (forall e | 0 <= e < |s.execs| :: ClaimsAt(s.ops, s.execs[e].claimedAt, s.execs[e].id, max))
    && (forall e, k | 0 <= e < k < |s.execs| :: s.execs[e].claimedAt < s.execs[k].claimedAt)
  }

  predicate AboutStop(x: Execution) {
    x.pc == ReapingCancel || x.pc == Ended(Reported(Failed(AgentStopped)))
  }

  /** Nothing is cancelled while the connection loop lives, and nothing crosses afterwards. */
  ghost predicate StopOk(s: State) {
    && (s.phase != Stopped ==> forall e | 0 <= e < |s.execs| :: !AboutStop(s.execs[e]))
    && (forall f | f in s.crossed :: f.kind != Terminal(Failed(AgentStopped)))
  }

  ghost predicate Inv(s: State, max: nat) {
    && ExecutionsOk(s.execs)
    && Traced(s.enqueued, s.execs)
    && OutboxOk(s)
    && PhaseOk(s)
    && RegistryOk(s, max)
    && ClaimsOk(s, max)
    && StopOk(s)
  }

  // ----- Projections -----

  lemma ProjectAppend(h: seq<Frame>, f: Frame, e: nat)
    ensures Project(h + [f], e) == Project(h, e) + (if f.exec == e then [f] else [])
  {
    assert (h + [f])[..|h|] == h;
  }

  lemma {:induction false} InProject(h: seq<Frame>, f: Frame)
    ensures f in h <==> f in Project(h, f.exec)
  {
    if h != [] {
      InProject(h[..|h| - 1], f);
      assert h == h[..|h| - 1] + [h[|h| - 1]];
    }
  }

  lemma {:induction false} ProjectFresh(h: seq<Frame>, e: nat)
    requires forall i | 0 <= i < |h| :: h[i].exec != e
    ensures Project(h, e) == []
  {
    if h != [] {
      ProjectFresh(h[..|h| - 1], e);
    }
  }

  lemma CausalAppend(h: seq<Frame>, f: Frame)
    requires Causal(h) && forall g | g in Earlier(f) :: g in h
    ensures Causal(h + [f])
  {
    var h' := h + [f];
    forall i, g | 0 <= i < |h'| && g in Earlier(h'[i]) ensures g in h'[..i] {
      if i < |h| {
        assert h'[i] == h[i] && h'[..i] == h[..i];
      } else {
        assert h'[..i] == h;
      }
    }
  }

  // ----- Emitting a frame -----

  lemma EmitTraced(s: State, e: nat, kind: Kind)
    requires e < |s.execs| && Traced(s.enqueued, s.execs)
    requires var f := Frame(e, s.execs[e].id, kind);
             f !in s.execs[e].emitted && forall g | g in Earlier(f) :: g in s.execs[e].emitted
    ensures Traced(Emit(s, e, kind).enqueued, Emit(s, e, kind).execs)
  {
    var f := Frame(e, s.execs[e].id, kind);
    var s' := Emit(s, e, kind);
    forall k | 0 <= k < |s.execs| ensures s'.execs[k].emitted == Project(s'.enqueued, k) {
      ProjectAppend(s.enqueued, f, k);
    }
    InProject(s.enqueued, f);
    forall g | g in Earlier(f) ensures g in s.enqueued {
      InProject(s.enqueued, g);
    }
    CausalAppend(s.enqueued, f);
  }

  lemma {:induction false} EmitOutbox(s: State, e: nat, kind: Kind)
    requires e < |s.execs| && OutboxOk(s) && PhaseOk(s)
    ensures OutboxOk(Emit(s, e, kind)) && PhaseOk(Emit(s, e, kind))
  {
    var s' := Emit(s, e, kind);
    assert s'.enqueued == s.popped + s'.outbox;
    assert s.outbox != [] ==> s'.outbox[0] == s.outbox[0];
  }
}
