/** Reconnect delays (agent/client/realtime.py:107, 163-174, 296-305; ranges from agent/config.py:32-33). */
module Backoff {

  function Min(a: real, b: real): real {
    if a <= b then a else b
  }

  function Pow2(k: nat): real {
    if k == 0 then 1.0 else 2.0 * Pow2(k - 1)
  }

  /** The initial delay doubled `k` times. */
  function Doubled(initial: real, k: nat): real {
    if k == 0 then initial else 2.0 * Doubled(initial, k - 1)
  }

  lemma {:induction false} DoubledIsPower(initial: real, k: nat)
    ensures Doubled(initial, k) == initial * Pow2(k)
  {
    if k > 0 {
      DoubledIsPower(initial, k - 1);
    }
  }

  lemma {:induction false} DoubledGrows(initial: real, k: nat)
    requires initial > 0.0
    ensures initial <= Doubled(initial, k)
  {
    if k > 0 {
      DoubledGrows(initial, k - 1);
    }
  }

  /** One pass of the outer loop: whether the connection was established before it ended, and the
      jitter drawn for the sleep behind it. */
  datatype Attempt = Attempt(connected: bool, jitter: real)

  /** How many sleeps in a row were taken before the one behind attempt `n`, since the start or the
      last established connection. */
  function Streak(attempts: seq<Attempt>, n: nat): nat
    requires n < |attempts|
  {
    if attempts[n].connected || n == 0 then 0 else Streak(attempts, n - 1) + 1
  }

  /** The base of the sleep behind attempt `n`. */
  function Base(initial: real, max: real, attempts: seq<Attempt>, n: nat): real
    requires n < |attempts|
  {
    Min(max, Doubled(initial, Streak(attempts, n)))
  }

  /** The delay kept by the loop determines the same base now and after doubling. */
  predicate Tracks(max: real, delay: real, initial: real, k: nat) {
    delay > 0.0 && Min(max, delay) == Min(max, Doubled(initial, k))
  }

  lemma InitialTracks(max: real, initial: real)
    requires initial > 0.0
    ensures Tracks(max, initial, initial, 0)
  {
  }

  lemma DoublingTracks(max: real, delay: real, initial: real, k: nat)
    requires max > 0.0 && initial > 0.0 && Tracks(max, delay, initial, k)
    ensures Tracks(max, Min(max, delay * 2.0), initial, k + 1)
  {
    DoubledGrows(initial, k);
  }

  lemma NextStreak(attempts: seq<Attempt>, n: nat)
    requires n < |attempts|
    ensures Streak(attempts, n) == if attempts[n].connected || n == 0 then 0 else Streak(attempts, n - 1) + 1
  {
  }

  lemma SameProduct(a: real, b: real, j: real)
    requires a == b
    ensures a * j == b * j
  {
  }

  /** The delay bookkeeping of `run_realtime` over a sequence of attempts. */
  method ReconnectSleeps(initial: real, max: real, attempts: seq<Attempt>) returns (sleeps: seq<real>)
    requires 0.1 <= initial <= 60.0 && 1.0 <= max <= 600.0
    ensures |sleeps| == |attempts|
    ensures forall n | 0 <= n < |attempts| :: sleeps[n] == Base(initial, max, attempts, n) * attempts[n].jitter
  {
    hide Doubled, Streak;
    var delay := initial;
    sleeps := [];
    for n := 0 to |attempts|
      invariant |sleeps| == n
      invariant forall i | 0 <= i < n :: sleeps[i] == Base(initial, max, attempts, i) * attempts[i].jitter
      invariant n == 0 ==> delay == initial
      invariant n > 0 ==> Tracks(max, delay, initial, Streak(attempts, n - 1) + 1)
    {
      if attempts[n].connected {
        delay := initial;
      }
      InitialTracks(max, initial);
      NextStreak(attempts, n);
      assert Tracks(max, delay, initial, Streak(attempts, n));
      SameProduct(Min(max, delay), Base(initial, max, attempts, n), attempts[n].jitter);
      sleeps := sleeps + [Min(max, delay) * attempts[n].jitter];
      DoublingTracks(max, delay, initial, Streak(attempts, n));
      delay := Min(max, delay * 2.0);
    }
  }

  lemma Jittered(base: real, j: real)
    requires base >= 0.0 && 0.8 <= j <= 1.2
    ensures 0.8 * base <= base * j <= 1.2 * base
  {
    assert base * (j - 0.8) >= 0.0 && base * (1.2 - j) >= 0.0;
  }

  /** With jitter between 0.8 and 1.2 every sleep stays between 0.8 times the smaller of the initial
      delay and the maximum, and 1.2 times the maximum, also when the initial delay exceeds it. */
  lemma SleepBounds(initial: real, max: real, attempts: seq<Attempt>, n: nat)
    requires 0.1 <= initial && 1.0 <= max && n < |attempts| && 0.8 <= attempts[n].jitter <= 1.2
    ensures var base := Base(initial, max, attempts, n);
            var sleep := base * attempts[n].jitter;
            0.8 * Min(max, initial) <= 0.8 * base <= sleep <= 1.2 * base <= 1.2 * max
  {
    DoubledGrows(initial, Streak(attempts, n));
    Jittered(Base(initial, max, attempts, n), attempts[n].jitter);
  }

  /** From one attempt to the next the base doubles up to the maximum, unless the connection was established: then it
      starts over. */
  lemma NextBase(initial: real, max: real, attempts: seq<Attempt>, n: nat)
    requires initial > 0.0 && max > 0.0 && n < |attempts|
    ensures attempts[n].connected || n == 0 ==>
              Base(initial, max, attempts, n) == if initial <= max then initial else max
    ensures n > 0 && !attempts[n].connected ==>
              var twice := 2.0 * Base(initial, max, attempts, n - 1);
              Base(initial, max, attempts, n) == if twice <= max then twice else max
  {
    DoubledGrows(initial, Streak(attempts, n));
    if n > 0 { DoubledGrows(initial, Streak(attempts, n - 1)); }
  }

  lemma {:induction false} StreakCounts(attempts: seq<Attempt>, first: nat, k: nat)
    requires first + k < |attempts| && (first == 0 || attempts[first].connected)
    requires forall i | first < i <= first + k :: !attempts[i].connected
    ensures Streak(attempts, first + k) == k
  {
    if k > 0 {
      StreakCounts(attempts, first, k - 1);
    }
  }

  /** After `k` failures in a row behind a success, or from the start, the base is the initial delay
      times two to the `k`, up to the maximum; a success resets it. */
  lemma FailuresDouble(initial: real, max: real, attempts: seq<Attempt>, first: nat, k: nat)
    requires first + k < |attempts| && (first == 0 || attempts[first].connected)
    requires forall i | first < i <= first + k :: !attempts[i].connected
    ensures Base(initial, max, attempts, first + k) == Min(max, initial * Pow2(k))
  {
    StreakCounts(attempts, first, k);
    DoubledIsPower(initial, k);
  }
}
