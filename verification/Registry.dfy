/**
 The process-local idempotency registry of dashboard commands
 (agent/client/realtime.py:74-96): the class itself, the value it stands for,
 and what every sequence of calls guarantees.
 */
module Registry {
  import opened Sequences

  /** Command, request and message identifiers are only ever compared. */
  type Uuid = nat

  /** What a registry holds; `order` is the insertion order of the completed dictionary. */
  datatype Book<F> = Book(inflight: set<Uuid>, order: seq<Uuid>, frames: map<Uuid, seq<F>>)

  ghost predicate WellFormed<F>(b: Book<F>, max: nat) {
    && Distinct(b.order)
    && Elements(b.order) == b.frames.Keys
    && |b.order| <= max
    && b.inflight !! b.frames.Keys
  }

  function Empty<F>(): Book<F> {
    Book({}, [], map[])
  }

  predicate Claimable<F>(b: Book<F>, id: Uuid) {
    id !in b.inflight && id !in b.frames
  }

  function Claimed<F>(b: Book<F>, id: Uuid): Book<F> {
    if Claimable(b, id) then b.(inflight := b.inflight + {id}) else b
  }

  function Recorded<F>(b: Book<F>, id: Uuid, events: seq<F>, max: nat): Book<F> {
    var kept := LastN(Remove(b.order, id) + [id], max);
    var all := b.frames[id := events];
    Book(b.inflight - {id}, kept, Restricted(all, kept))
  }

  lemma RecordedWellFormed<F>(b: Book<F>, id: Uuid, events: seq<F>, max: nat)
    requires WellFormed(b, max)
    ensures WellFormed(Recorded(b, id, events, max), max)
  {
    RemoveDistinct(b.order, id);
    var b' := Recorded(b, id, events, max);
    forall k | k in b'.order ensures k in b'.frames {
      assert k in Remove(b.order, id) + [id];
      assert k == id || k in Elements(b.order);
    }
    assert Elements(b'.order) == b'.frames.Keys;
  }

  // ----- The class -----

  class CommandExecutionRegistry<F> {
    var inflight: set<Uuid>
    var completed: map<Uuid, seq<F>>
    var order: seq<Uuid>
    const maxCompleted: nat

    ghost function View(): Book<F>
      reads this
    {
      Book(inflight, order, completed)
    }

    ghost predicate Valid()
      reads this
    {
      WellFormed(View(), maxCompleted)
    }

    constructor (maxCompleted: nat)
      ensures Valid() && View() == Empty() && this.maxCompleted == maxCompleted
    {
      inflight, completed, order := {}, map[], [];
      this.maxCompleted := maxCompleted;
    }

    method Claim(id: Uuid) returns (claimed: bool)
      requires Valid()
      modifies this
      ensures Valid()
      ensures claimed <==> id !in old(inflight) && id !in old(completed)
      ensures View() == Claimed(old(View()), id)
    {
      if id in inflight || id in completed {
        return false;
      }
      inflight := inflight + {id};
      return true;
    }

    method Replay(id: Uuid) returns (frames: Option<seq<F>>)
      requires Valid()
      ensures frames.Some? <==> id in order
      ensures frames.Some? ==> id !in inflight && frames.value == completed[id]
    {
      frames := if id in completed then Some(completed[id]) else None;
    }

    /** Records the frames, moves the entry to the end and evicts the oldest entries. */
    method Complete(id: Uuid, events: seq<F>)
      requires Valid()
      modifies this
      ensures Valid()
      ensures View() == Recorded(old(View()), id, events, maxCompleted)
    {
      ghost var was := View();
      inflight := inflight - {id};
      completed := completed[id := events];
      if id !in order {
        order := order + [id];
      }
      order := Remove(order, id) + [id];
      ReinsertionOrder(was, id);
      Evict();
      RecordedWellFormed(was, id, events, maxCompleted);
    }

    method Evict()
      requires Distinct(order) && Elements(order) == completed.Keys
      modifies this`completed, this`order
      ensures order == LastN(old(order), maxCompleted)
      ensures completed == Restricted(old(completed), order)
    {
      DistinctCardinality(order);
      while |completed| > maxCompleted
        invariant Distinct(order) && Elements(order) == completed.Keys && |order| == |completed|
        invariant LastN(order, maxCompleted) == LastN(old(order), maxCompleted)
        invariant completed == Restricted(old(completed), order)
        decreases |order|
      {
        var oldest := order[0];
        DropOldest(order);
        RestrictedTail(old(completed), order);
        LastNTail(order, maxCompleted);
        completed := completed - {oldest};
        order := order[1..];
      }
    }
  }

  /** The entries of `m` whose key is listed in `keys`. */
  function Restricted<F>(m: map<Uuid, F>, keys: seq<Uuid>): map<Uuid, F> {
    map k | k in m && k in keys :: m[k]
  }

  lemma DropOldest(order: seq<Uuid>)
    requires Distinct(order) && order != []
    ensures Distinct(order[1..])
    ensures Elements(order[1..]) == Elements(order) - {order[0]}
    ensures |Elements(order[1..])| == |Elements(order)| - 1
    ensures forall k :: k in order[1..] <==> k in order && k != order[0]
  {
    forall k | k in order && k != order[0] ensures k in order[1..] {
      var i :| 0 <= i < |order| && order[i] == k;
      assert order[1..][i - 1] == k;
    }
    assert order[0] !in order[1..];
  }

  lemma RestrictedTail<F>(m: map<Uuid, F>, order: seq<Uuid>)
    requires Distinct(order) && order != []
    ensures Restricted(m, order[1..]) == Restricted(m, order) - {order[0]}
  {
    DropOldest(order);
  }

  lemma ReinsertionOrder<F>(b: Book<F>, id: Uuid)
    requires Distinct(b.order) && Elements(b.order) == b.frames.Keys
    ensures Remove(b.order + [id], id) == Remove(b.order, id)
    ensures Distinct(Remove(b.order, id) + [id])
    ensures Elements(Remove(b.order, id) + [id]) == b.frames.Keys + {id}
  {
    RemoveConcat(b.order, [id], id);
    assert Remove([id], id) == [];
    ReinsertedElements(b.order, id);
  }

  lemma ReinsertedElements(s: seq<Uuid>, id: Uuid)
    requires Distinct(s)
    ensures Distinct(Remove(s, id) + [id]) && Elements(Remove(s, id) + [id]) == Elements(s) + {id}
  {
    RemoveDistinct(s, id);
    assert forall k :: k in Remove(s, id) + [id] <==> k in Remove(s, id) || k == id;
  }

  // ----- Every sequence of calls -----

  datatype Op<F> = ClaimOp(id: Uuid) | CompleteOp(id: Uuid, events: seq<F>)

  function ApplyOp<F>(b: Book<F>, op: Op<F>, max: nat): Book<F> {
    match op
    case ClaimOp(id) => Claimed(b, id)
    case CompleteOp(id, events) => Recorded(b, id, events, max)
  }

  /** The registry after the calls `ops`, in order, starting from an empty one. */
  function After<F>(ops: seq<Op<F>>, max: nat): Book<F> {
    if ops == [] then Empty()
    else ApplyOp(After(ops[..|ops| - 1], max), ops[|ops| - 1], max)
  }

  lemma {:induction false} AfterWellFormed<F>(ops: seq<Op<F>>, max: nat)
    ensures WellFormed(After(ops, max), max)
  {
    if ops != [] {
      AfterWellFormed(ops[..|ops| - 1], max);
      var b := After(ops[..|ops| - 1], max);
      match ops[|ops| - 1]
      case ClaimOp(_) =>
      case CompleteOp(id, events) => RecordedWellFormed(b, id, events, max);
    }
  }

  // ----- The completed entries are a window on the history of completions -----

  /** The ids completed by `ops`, each at its last completion, in that order. */
  function Completions<F>(ops: seq<Op<F>>): seq<Uuid> {
    if ops == [] then []
    else
      var before := Completions(ops[..|ops| - 1]);
      match ops[|ops| - 1]
      case ClaimOp(_) => before
      case CompleteOp(id, _) => Remove(before, id) + [id]
  }

  /** The frames recorded by the last completion of `id`. */
  function LastFrames<F>(ops: seq<Op<F>>, id: Uuid): Option<seq<F>> {
    if ops == [] then None
    else
      match ops[|ops| - 1]
      case CompleteOp(x, events) =>
        if x == id then Some(events) else LastFrames(ops[..|ops| - 1], id)
      case ClaimOp(_) => LastFrames(ops[..|ops| - 1], id)
  }

  lemma {:induction false} CompletionsDistinct<F>(ops: seq<Op<F>>)
    ensures Distinct(Completions(ops))
  {
    if ops != [] {
      CompletionsDistinct(ops[..|ops| - 1]);
      if ops[|ops| - 1].CompleteOp? {
        RemoveDistinct(Completions(ops[..|ops| - 1]), ops[|ops| - 1].id);
      }
    }
  }

  /** Dropping to the last `n` before or after re-inserting `x` gives the same window. */
  lemma WindowOfReinsertion(s: seq<Uuid>, x: Uuid, n: nat)
    requires Distinct(s)
    ensures LastN(Remove(LastN(s, n), x) + [x], n) == LastN(Remove(s, x) + [x], n)
  {
    var w := LastN(s, n);
    if |s| > n {
      var p := s[..|s| - n];
      assert s == p + w;
      RemoveConcat(p, w, x);
      RemoveDistinct(w, x);
      if x in w {
        assert x !in p;
        RemoveAbsent(p, x);
      } else {
        RemoveAbsent(w, x);
      }
      LastOfConcat(Remove(p, x), Remove(w, x), x, n);
    }
  }

  /** A front does not matter when enough follows it, or when all of it fits. */
  lemma LastOfConcat(p: seq<Uuid>, w: seq<Uuid>, x: Uuid, n: nat)
    requires |w| + 1 >= n
    ensures LastN(w + [x], n) == LastN(p + w + [x], n)
  {
    Associative(p, w, [x]);
    var t := w + [x];
    assert (p + t)[|p| + |t| - n..] == t[|t| - n..];
  }

  /** The completed dictionary is exactly the last `max` completions, with the frames
      each was completed with, and it never overlaps the commands in flight. */
  lemma {:induction false} CompletedIsWindow<F>(ops: seq<Op<F>>, max: nat)
    ensures After(ops, max).order == LastN(Completions(ops), max)
    ensures forall id | id in After(ops, max).frames ::
              LastFrames(ops, id) == Some(After(ops, max).frames[id])
  {
    if ops != [] {
      var front, last := ops[..|ops| - 1], ops[|ops| - 1];
      CompletedIsWindow(front, max);
      AfterWellFormed(front, max);
      if last.CompleteOp? {
        CompletionsDistinct(front);
        WindowOfReinsertion(Completions(front), last.id, max);
      }
    }
  }

  // ----- Bounded at-most-once execution -----

  ghost predicate ClaimsAt<F>(ops: seq<Op<F>>, i: int, id: Uuid, max: nat) {
    0 <= i < |ops| && ops[i] == ClaimOp(id) && Claimable(After(ops[..i], max), id)
  }

  function CompletedBy<F>(op: Op<F>): set<Uuid> {
    if op.CompleteOp? then {op.id} else {}
  }

  /** The distinct ids completed by `ops`. */
  function CompletedIds<F>(ops: seq<Op<F>>): set<Uuid> {
    if ops == [] then {}
    else CompletedIds(ops[..|ops| - 1]) + CompletedBy(ops[|ops| - 1])
  }

  /** What follows `x` in `s`. */
  function Beyond(s: seq<Uuid>, x: Uuid): seq<Uuid> {
    if s == [] then []
    else if s[0] == x then s[1..]
    else Beyond(s[1..], x)
  }

  lemma {:induction false} BeyondConcat(s: seq<Uuid>, t: seq<Uuid>, x: Uuid)
    ensures Beyond(s + t, x) == if x in s then Beyond(s, x) + t else Beyond(t, x)
  {
    if s == [] {
      assert s + t == t;
    } else if s[0] == x {
      assert (s + t)[1..] == s[1..] + t;
    } else {
      assert (s + t)[1..] == s[1..] + t;
      BeyondConcat(s[1..], t, x);
    }
  }

  lemma {:induction false} BeyondRemove(s: seq<Uuid>, x: Uuid, y: Uuid)
    requires x != y && x in s
    ensures Beyond(Remove(s, y), x) == Remove(Beyond(s, x), y)
  {
    if s[0] != x {
      BeyondRemove(s[1..], x, y);
    }
  }

  lemma {:induction false} BeyondFits(s: seq<Uuid>, x: Uuid)
    requires Distinct(s) && x in s
    ensures Distinct(Beyond(s, x)) && x !in Beyond(s, x)
    ensures |Beyond(s, x)| < |s| && Beyond(s, x) == s[|s| - |Beyond(s, x)|..]
    ensures s[|s| - |Beyond(s, x)| - 1] == x
  {
    if s[0] != x {
      BeyondFits(s[1..], x);
    }
  }

  /** Where `x` stands once it was claimed, `done` being the other ids completed since:
      in flight, or completed with only ids of `done` behind it, or possibly evicted. */
  ghost predicate Accounted<F>(b: Book<F>, x: Uuid, done: set<Uuid>, max: nat) {
    || x in b.inflight
    || (x in b.order && Elements(Beyond(b.order, x)) <= done)
    || |done| >= max
  }

  lemma CompletedIdsGrow<F>(ops: seq<Op<F>>, i: nat, n: nat, x: Uuid)
    requires i < n < |ops|
    ensures CompletedIds(ops[i + 1..n + 1]) - {x}
         == ((CompletedIds(ops[i + 1..n]) - {x}) + CompletedBy(ops[n])) - {x}
  {
    assert ops[i + 1..n + 1][..n - i - 1] == ops[i + 1..n];
  }

  lemma ReinsertionBehind(s: seq<Uuid>, y: Uuid, x: Uuid, done: set<Uuid>)
    requires Distinct(s) && (x == y || (x in s && Elements(Beyond(s, x)) <= done))
    ensures var moved := Remove(s, y) + [y];
            x in moved && Distinct(moved) && Elements(Beyond(moved, x)) <= done + {y}
    ensures x == y ==> Beyond(Remove(s, y) + [y], x) == []
  {
    RemoveDistinct(s, y);
    BeyondConcat(Remove(s, y), [y], x);
    if x != y {
      BeyondRemove(s, x, y);
      assert forall z | z in Beyond(s, x) :: z in Elements(Beyond(s, x));
    }
  }

  /** Trimming to the last `n` keeps `x` and what is behind it unless `n` ids are behind it. */
  lemma TrimBehind(s: seq<Uuid>, x: Uuid, n: nat)
    requires Distinct(s) && x in s && |Beyond(s, x)| < n
    ensures x in LastN(s, n) && Beyond(LastN(s, n), x) == Beyond(s, x)
  {
    if |s| > n {
      var at := PositionOf(s, x);
      var cut := |s| - n;
      assert LastN(s, n) == s[cut..];
      BeyondTail(s, cut, at, x);
    }
  }

  lemma PositionOf(s: seq<Uuid>, x: Uuid) returns (at: nat)
    requires Distinct(s) && x in s
    ensures at < |s| && s[at] == x && |Beyond(s, x)| == |s| - at - 1
  {
    BeyondFits(s, x);
    at := |s| - |Beyond(s, x)| - 1;
  }

  /** Cutting in front of position `at` changes nothing behind it. */
  lemma BeyondTail(s: seq<Uuid>, cut: nat, at: nat, x: Uuid)
    requires Distinct(s) && cut <= at < |s| && s[at] == x
    ensures x in s[cut..] && Beyond(s[cut..], x) == Beyond(s, x)
  {
    assert s == s[..cut] + s[cut..];
    assert s[cut..][at - cut] == x;
    assert x !in s[..cut];
    BeyondConcat(s[..cut], s[cut..], x);
  }

  lemma AccountedCompletion<F>(b: Book<F>, y: Uuid, events: seq<F>, x: Uuid, done: set<Uuid>, max: nat)
    requires Distinct(b.order) && Accounted(b, x, done, max) && x !in done
    ensures Accounted(Recorded(b, y, events, max), x, (done + {y}) - {x}, max)
  {
    var done' := (done + {y}) - {x};
    SubsetCardinality(done, done');
    if |done| < max && (x == y || x !in b.inflight) {
      ReinsertionBehind(b.order, y, x, done);
      var moved := Remove(b.order, y) + [y];
      BeyondFits(moved, x);
      var tail := Beyond(moved, x);
      assert Elements(tail) <= done';
      DistinctCardinality(tail);
      SubsetCardinality(Elements(tail), done');
      if |tail| < max {
        TrimBehind(moved, x, max);
      }
    }
  }

  lemma AccountedStep<F>(b: Book<F>, op: Op<F>, x: Uuid, done: set<Uuid>, max: nat)
    requires Distinct(b.order) && Accounted(b, x, done, max) && x !in done
    ensures Accounted(ApplyOp(b, op, max), x, (done + CompletedBy(op)) - {x}, max)
  {
    match op
    case ClaimOp(_) =>
      assert done + {} - {x} == done;
    case CompleteOp(y, events) =>
      AccountedCompletion(b, y, events, x, done, max);
  }

  lemma AfterSnoc<F>(ops: seq<Op<F>>, n: nat, max: nat)
    requires 0 < n <= |ops|
    ensures After(ops[..n], max) == ApplyOp(After(ops[..n - 1], max), ops[n - 1], max)
  {
    assert ops[..n][..n - 1] == ops[..n - 1];
  }

  lemma ClaimStarts<F>(ops: seq<Op<F>>, i: nat, x: Uuid, max: nat)
    requires ClaimsAt(ops, i, x, max)
    ensures Accounted(After(ops[..i + 1], max), x, CompletedIds(ops[i + 1..i + 1]) - {x}, max)
  {
    AfterSnoc(ops, i + 1, max);
  }

  /** How `x`, claimed by operation `i`, stands after the first `n` operations. */
  ghost predicate AccountedAt<F>(ops: seq<Op<F>>, i: nat, n: nat, x: Uuid, max: nat)
    requires i < n <= |ops|
  {
    Accounted(After(ops[..n], max), x, CompletedIds(ops[i + 1..n]) - {x}, max)
  }

  lemma {:induction false} AccountedUpTo<F>(ops: seq<Op<F>>, i: nat, k: nat, x: Uuid, max: nat)
    requires i + 1 + k <= |ops| && ClaimsAt(ops, i, x, max)
    ensures AccountedAt(ops, i, i + 1 + k, x, max)
    decreases k
  {
    if k == 0 {
      ClaimStarts(ops, i, x, max);
    } else {
      AccountedUpTo(ops, i, k - 1, x, max);
      AccountedNext(ops, i, i + k, x, max);
    }
  }

  lemma AccountedNext<F>(ops: seq<Op<F>>, i: nat, n: nat, x: Uuid, max: nat)
    requires i < n < |ops| && AccountedAt(ops, i, n, x, max)
    ensures AccountedAt(ops, i, n + 1, x, max)
  {
    AfterWellFormed(ops[..n], max);
    AfterSnoc(ops, n + 1, max);
    CompletedIdsGrow(ops, i, n, x);
    AccountedStep(After(ops[..n], max), ops[n], x, CompletedIds(ops[i + 1..n]) - {x}, max);
  }

  /** If one id is claimed twice, then at least `max` other ids completed in between:
      a command is executed at most once per window of `max` completions. */
  lemma BoundedAtMostOnce<F>(ops: seq<Op<F>>, i: nat, j: nat, x: Uuid, max: nat)
    requires i < j && ClaimsAt(ops, i, x, max) && ClaimsAt(ops, j, x, max)
    ensures |CompletedIds(ops[i + 1..j]) - {x}| >= max
  {
    AccountedUpTo(ops, i, j - i - 1, x, max);
    AfterWellFormed(ops[..j], max);
    var b := After(ops[..j], max);
    assert x in Elements(b.order) <==> x in b.order;
  }
}
