/**
  The fixed-window permit counter guarding outbound calls.

  The limiter is a value; `Acquire` is one call of the Java class's `acquire()`,
  with the wall clock passed in as `now` (milliseconds). Integers are
  unbounded: the model assumes `qps * window`, `1000 * window` and the
  decrementing counter never overflow Java's `int`.
*/
module RateLimiter {

  /** Limiter state, fields named as in the Java class. `qps` and `window` never change. */
  datatype Limiter = Limiter(qps: int, window: int, accumulated: int, lastMillis: int)
  {
    /** Permits per window: the value a refill resets the counter to. */
    function Capacity(): int
    {
      qps * window
    }
  }

  /** What one call does: the state after it, whether it refilled, whether it was granted. */
  datatype Permit = Permit(next: Limiter, refilled: bool, granted: bool)

  /**
    A limiter as constructed: the counter is empty and the timestamp is the
    epoch, so the first call refills as soon as the clock is past both
    thresholds.
  */
  function New(qps: int, window: int): (s: Limiter)
    ensures s.qps == qps && s.window == window && s.Capacity() == qps * window
    ensures s.accumulated == 0
    ensures forall now :: RefillDue(s, now) <==> now > 1000 * window && now > 1000
  {
    Limiter(qps, window, 0, 0)
  }

  /** The outer, unsynchronised eligibility check, scaled by the window length. */
  predicate OuterGuard(s: Limiter, now: int)
  {
    now - s.lastMillis > 1000 * s.window
  }

  /** The inner re-check under the lock, with a hardcoded one-second threshold. */
  predicate InnerGuard(s: Limiter, now: int)
  {
    now - s.lastMillis > 1000
  }

  /** A call at `now` resets the counter iff both checks pass. */
  predicate RefillDue(s: Limiter, now: int)
  {
    OuterGuard(s, now) && InnerGuard(s, now)
  }

  /** One `acquire()` at time `now`. */
  function Acquire(s: Limiter, now: int): (p: Permit)
    ensures p.next.qps == s.qps && p.next.window == s.window
    ensures p.refilled <==> now - s.lastMillis > 1000 * s.window && now - s.lastMillis > 1000
    ensures p.refilled ==> p.next.lastMillis == now && p.next.accumulated == s.qps * s.window - 1
    ensures !p.refilled ==> p.next.lastMillis == s.lastMillis && p.next.accumulated == s.accumulated - 1
    ensures p.granted <==> p.next.accumulated >= 0
  {
    var refilled := RefillDue(s, now);
    var current := if refilled then s.(accumulated := s.Capacity(), lastMillis := now) else s;
    var after := current.(accumulated := current.accumulated - 1);
    Permit(after, refilled, after.accumulated >= 0)
  }

  /**
    The variant in which both checks use the window-scaled threshold; used
    only as a reference for `Acquire`.
  */
  function AcquireScaled(s: Limiter, now: int): (p: Permit)
    ensures p.refilled <==> OuterGuard(s, now)
  {
    var current := if OuterGuard(s, now) then s.(accumulated := s.Capacity(), lastMillis := now) else s;
    var after := current.(accumulated := current.accumulated - 1);
    Permit(after, OuterGuard(s, now), after.accumulated >= 0)
  }

  /** A sequence of calls, made one after another at the given times. */
  datatype Trace = Trace(permits: seq<Permit>, final: Limiter)

  function Run(s: Limiter, times: seq<int>): (r: Trace)
    ensures |r.permits| == |times|
    decreases |times|
  {
    if |times| == 0 then Trace([], s)
    else
      var p := Acquire(s, times[0]);
      var rest := Run(p.next, times[1..]);
      Trace([p] + rest.permits, rest.final)
  }

  /** Number of granted calls in a trace. */
  function Granted(ps: seq<Permit>): (n: nat)
    ensures n <= |ps|
    decreases |ps|
  {
    if |ps| == 0 then 0 else (if ps[0].granted then 1 else 0) + Granted(ps[1..])
  }

  function Min(a: int, b: int): int
  {
    if a <= b then a else b
  }

  function Max(a: int, b: int): int
  {
    if a <= b then b else a
  }

  // ---------------------------------------------------------------------------
  // Guards

  /** For a window of at least one second the inner check adds nothing. */
  lemma InnerGuardImplied(s: Limiter, now: int)
    requires s.window >= 1
    ensures RefillDue(s, now) <==> OuterGuard(s, now)
  {
  }

  /** ... so for such windows the limiter as written is the window-scaled one. */
  lemma AcquireIsScaled(s: Limiter, now: int)
    requires s.window >= 1
    ensures Acquire(s, now) == AcquireScaled(s, now)
  {
    InnerGuardImplied(s, now);
  }

  /** For a zero window the two checks disagree: half a second after the last refill the outer passes and the inner does not. */
  lemma ZeroWindowGuardsDiffer(qps: int, accumulated: int, last: int)
    ensures var s := Limiter(qps, 0, accumulated, last);
      OuterGuard(s, last + 500) && !InnerGuard(s, last + 500)
      && Acquire(s, last + 500) != AcquireScaled(s, last + 500)
  {
  }

  /**
    With a zero window the disagreement is not observable from a fresh
    limiter: the capacity is zero, so whichever check is used no call is
    ever granted and the counter never becomes positive.
  */
  lemma ZeroWindowStepDenies(s: Limiter, now: int)
    requires s.window == 0 && s.accumulated <= 0
    ensures !Acquire(s, now).granted && Acquire(s, now).next.accumulated <= 0
    ensures !AcquireScaled(s, now).granted && AcquireScaled(s, now).next.accumulated <= 0
  {
  }

  lemma {:induction false} ZeroWindowNeverGrants(s: Limiter, times: seq<int>)
    requires s.window == 0 && s.accumulated <= 0
    ensures Granted(Run(s, times).permits) == 0
    decreases |times|
  {
    if |times| > 0 {
      var p := Acquire(s, times[0]);
      ZeroWindowStepDenies(s, times[0]);
      ZeroWindowNeverGrants(p.next, times[1..]);
      assert Run(s, times).permits == [p] + Run(p.next, times[1..]).permits;
      assert ([p] + Run(p.next, times[1..]).permits)[1..] == Run(p.next, times[1..]).permits;
    }
  }

  /** In particular a fresh zero-window limiter never grants. */
  lemma FreshZeroWindowNeverGrants(qps: int, times: seq<int>)
    ensures Granted(Run(New(qps, 0), times).permits) == 0
  {
    ZeroWindowNeverGrants(New(qps, 0), times);
  }

  /**
    A negative window, which the constructor accepts, makes the disagreement
    observable: the outer check always passes, so the window-scaled variant
    refills on every call while the limiter as written waits a second.
  */
  lemma NegativeWindowGuardsDiffer()
    ensures var s := Acquire(New(-1, -1), 2000).next;
      && Acquire(New(-1, -1), 2000).granted
      && !Acquire(s, 2001).granted && AcquireScaled(s, 2001).granted
  {
  }

  // ---------------------------------------------------------------------------
  // Refills

  /** A fresh limiter refills on its first call exactly when `now` clears both thresholds. */
  lemma FirstCallRefills(qps: int, window: int, now: int)
    ensures Acquire(New(qps, window), now).refilled <==> now > 1000 * window && now > 1000
    ensures now > 1000 * window && now > 1000 ==>
      Acquire(New(qps, window), now).next == Limiter(qps, window, qps * window - 1, now)
    ensures !(now > 1000 * window && now > 1000) ==>
      Acquire(New(qps, window), now) == Permit(Limiter(qps, window, -1, 0), false, false)
  {
  }

  /** A refill sets the counter and the timestamp and nothing else. */
  lemma RefillOnlyResets(s: Limiter, now: int)
    requires RefillDue(s, now)
    ensures Acquire(s, now).next.(accumulated := Acquire(s, now).next.accumulated + 1)
         == s.(accumulated := s.Capacity(), lastMillis := now)
  {
  }

  /** When a refill would grant a permit, a denied call did not refill and only decrements. */
  lemma DeniedOnlyDecrements(s: Limiter, now: int)
    requires s.Capacity() >= 1 && !Acquire(s, now).granted
    ensures !Acquire(s, now).refilled
    ensures Acquire(s, now).next == s.(accumulated := s.accumulated - 1)
    ensures s.accumulated <= 0
  {
  }

  /** Every refill in a run happens more than one window, and more than one second, after the start's last refill. */
  lemma {:induction false} RefillsAfterLast(s: Limiter, times: seq<int>, j: int)
    requires 0 <= j < |times| && Run(s, times).permits[j].refilled
    ensures times[j] - s.lastMillis > 1000 * s.window && times[j] - s.lastMillis > 1000
    decreases |times|
  {
    var p := Acquire(s, times[0]);
    assert Run(s, times).permits == [p] + Run(p.next, times[1..]).permits;
    if j > 0 {
      assert Run(p.next, times[1..]).permits[j - 1].refilled;
      RefillsAfterLast(p.next, times[1..], j - 1);
      assert p.next.lastMillis >= s.lastMillis;
    }
  }

  /** Two refills of one run are more than a window (and a second) apart. */
  lemma {:induction false} RefillsSpaced(s: Limiter, times: seq<int>, i: int, j: int)
    requires 0 <= i < j < |times|
    requires Run(s, times).permits[i].refilled && Run(s, times).permits[j].refilled
    ensures times[j] - times[i] > 1000 * s.window && times[j] - times[i] > 1000
    decreases |times|
  {
    var p := Acquire(s, times[0]);
    var rest := Run(p.next, times[1..]);
    assert Run(s, times).permits == [p] + rest.permits;
    assert rest.permits[j - 1].refilled;
    if i == 0 {
      RefillsAfterLast(p.next, times[1..], j - 1);
    } else {
      assert rest.permits[i - 1].refilled;
      RefillsSpaced(p.next, times[1..], i - 1, j - 1);
    }
  }

  // ---------------------------------------------------------------------------
  // Counting

  /**
    While no call reaches the next refill, the counter goes down by exactly
    one per call (possibly below zero) and call i is granted iff i is below
    the starting counter.
  */
  lemma {:induction false} WithinWindow(s: Limiter, times: seq<int>)
    requires forall i :: 0 <= i < |times| ==> times[i] - s.lastMillis <= 1000 * s.window
    ensures Run(s, times).final == s.(accumulated := s.accumulated - |times|)
    ensures forall i :: 0 <= i < |times| ==>
      var p := Run(s, times).permits[i];
      !p.refilled && p.next.accumulated == s.accumulated - i - 1 && (p.granted <==> i < s.accumulated)
    decreases |times|
  {
    if |times| > 0 {
      var p := Acquire(s, times[0]);
      var rest := Run(p.next, times[1..]);
      WithinWindow(p.next, times[1..]);
      assert Run(s, times).permits == [p] + rest.permits;
      forall i | 0 <= i < |times|
        ensures var q := Run(s, times).permits[i];
          !q.refilled && q.next.accumulated == s.accumulated - i - 1 && (q.granted <==> i < s.accumulated)
      {
        if i > 0 {
          assert Run(s, times).permits[i] == rest.permits[i - 1];
        }
      }
    }
  }

  /** Counting the granted calls of a trace whose first k calls, and only those, are granted. */
  lemma {:induction false} GrantedPrefix(ps: seq<Permit>, k: int)
    requires forall i :: 0 <= i < |ps| ==> (ps[i].granted <==> i < k)
    ensures Granted(ps) == Min(|ps|, Max(k, 0))
    decreases |ps|
  {
    if |ps| > 0 {
      assert forall i :: 0 <= i < |ps[1..]| ==> (ps[1..][i].granted <==> i < k - 1);
      GrantedPrefix(ps[1..], k - 1);
    }
  }

  /**
    A call that refills, followed by calls all within one window of it:
    the first `Capacity()` calls are granted and every later one denied.
  */
  lemma WindowBurst(s: Limiter, t0: int, times: seq<int>)
    requires RefillDue(s, t0)
    requires forall i :: 0 <= i < |times| ==> times[i] - t0 <= 1000 * s.window
    ensures forall i :: 0 <= i <= |times| ==> (Run(s, [t0] + times).permits[i].granted <==> i < s.Capacity())
  {
    var all := [t0] + times;
    var p := Acquire(s, t0);
    assert all[0] == t0 && all[1..] == times;
    var rest := Run(p.next, times);
    assert Run(s, all).permits == [p] + rest.permits;
    WithinWindow(p.next, times);
  }

  /** ... so the number of granted calls is min(calls, capacity). */
  lemma WindowBurstCount(s: Limiter, t0: int, times: seq<int>)
    requires RefillDue(s, t0)
    requires forall i :: 0 <= i < |times| ==> times[i] - t0 <= 1000 * s.window
    ensures Granted(Run(s, [t0] + times).permits) == Min(|times| + 1, Max(s.Capacity(), 0))
  {
    WindowBurst(s, t0, times);
    GrantedPrefix(Run(s, [t0] + times).permits, s.Capacity());
  }

  /** The single-threaded test: 110 calls within a second on a (100, 1) limiter, 100 granted, 10 denied. */
  lemma SingleThreadTest(t0: int, times: seq<int>)
    requires t0 > 1000 && |times| == 109
    requires forall i :: 0 <= i < |times| ==> t0 <= times[i] < t0 + 1000
    ensures var ps := Run(New(100, 1), [t0] + times).permits;
      Granted(ps) == 100 && |ps| - Granted(ps) == 10
  {
    WindowBurstCount(New(100, 1), t0, times);
  }

  /** The multi-threaded test: five threads of 21 calls, each joined before the next starts: 100 of 105 granted. */
  lemma JoinedThreadsTest(t0: int, times: seq<int>)
    requires t0 > 1000 && |times| == 5 * 21 - 1
    requires forall i :: 0 <= i < |times| ==> t0 <= times[i] < t0 + 1000
    ensures var ps := Run(New(100, 1), [t0] + times).permits;
      Granted(ps) == 100 && |ps| - Granted(ps) == 5
  {
    WindowBurstCount(New(100, 1), t0, times);
  }
}
