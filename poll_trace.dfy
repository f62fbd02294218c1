/** A main loop that sets the shared clock and then calls `update` on one
    timer, once per iteration. `clocks[k]` is the value passed to `setMillis`
    before the k-th call. The lemmas here are the timer's promises over whole
    runs: a disabled timer never fires, an every-frame timer always fires, a
    periodic timer fires at most once per span shorter than its period and
    does fire once a full period has gone by. */
module PollTrace {
  import opened Wrap32
  import opened Poll

  /** The timer after the first `n` iterations. No update changes the
      period. */
  function After(t: Timer, clocks: seq<u32>, n: nat): (r: Timer)
    requires n <= |clocks|
    ensures r.lengthMillis == t.lengthMillis
    decreases n
  {
    if n == 0 then t else After(t, clocks, n - 1).Update(clocks[n - 1]).next
  }

  /** What `update` returned in iteration `k`. */
  function Fires(t: Timer, clocks: seq<u32>, k: nat): bool
    requires k < |clocks|
  {
    After(t, clocks, k).Update(clocks[k]).fired
  }

  /** `clocks` are the `unsigned long` readings of a run whose true
      (never wrapped) millisecond times are `times`. */
  ghost predicate ReadingsOf(clocks: seq<u32>, times: seq<int>) {
    |clocks| == |times| && forall k :: 0 <= k < |times| ==> clocks[k] == Wrap(times[k])
  }

  ghost predicate NonDecreasing(times: seq<int>) {
    forall a, b :: 0 <= a <= b < |times| ==> times[a] <= times[b]
  }

  /** Elapsed time read through the wrapped counter is the true elapsed time
      whenever that is below 2^32. */
  lemma ElapsedOfTrueTime(t: Timer, base: int, x: int)
    requires t.startMillis == Wrap(base)
    requires 0 <= x - base < Modulus
    ensures t.Elapsed(Wrap(x)) as int == x - base
  {
  }

  /** Period 0: `update` returns false for every clock sequence. */
  lemma DisabledNeverFires(t: Timer, clocks: seq<u32>, k: nat)
    requires t.lengthMillis == 0 && k < |clocks|
    ensures !Fires(t, clocks, k)
  {
  }

  /** Period 1: `update` returns true on every call, whether or not the clock
      advances. */
  lemma EveryFrameAlwaysFires(t: Timer, clocks: seq<u32>, k: nat)
    requires t.lengthMillis == 1 && k < |clocks|
    ensures Fires(t, clocks, k)
  {
  }

  /** Iterations that do not fire leave the timer as it was. */
  lemma {:induction false} QuietKeepsTimer(t: Timer, clocks: seq<u32>, n: nat, m: nat)
    requires n <= m <= |clocks|
    requires forall k :: n <= k < m ==> !Fires(t, clocks, k)
    ensures After(t, clocks, m) == After(t, clocks, n)
    decreases m
  {
    if m > n {
      QuietKeepsTimer(t, clocks, n, m - 1);
      assert !Fires(t, clocks, m - 1);
    }
  }

  /** One iteration at a time: a periodic timer whose start after `n`
      iterations is `base` does not fire in iteration `m - 1` while less than
      a period of true time has passed since `base`, and after `m`
      iterations is still as it was after `n`. */
  lemma {:induction false} QuietUpTo(t: Timer, clocks: seq<u32>, times: seq<int>, base: int, n: nat, m: nat)
    requires t.lengthMillis >= 2
    requires ReadingsOf(clocks, times) && NonDecreasing(times)
    requires n < m <= |times|
    requires After(t, clocks, n).startMillis == Wrap(base)
    requires base <= times[n]
    requires times[m - 1] - base < t.lengthMillis as int
    ensures !Fires(t, clocks, m - 1)
    ensures After(t, clocks, m) == After(t, clocks, n)
    decreases m
  {
    assert times[n] <= times[m - 1];
    if m > n + 1 {
      assert times[m - 2] <= times[m - 1];
      QuietUpTo(t, clocks, times, base, n, m - 1);
    }
    ElapsedOfTrueTime(After(t, clocks, m - 1), base, times[m - 1]);
  }

  /** A periodic timer whose start after `n` iterations is `base`, not
      ahead of the clock in iteration `n`, does not fire while less than a
      period of true time has passed since `base`, and so stays as it was.
      This covers the first period after construction or after `resetPoll`
      as well as the period after a firing. */
  lemma {:induction false} QuietWithinPeriod(t: Timer, clocks: seq<u32>, times: seq<int>, base: int, n: nat, j: nat)
    requires t.lengthMillis >= 2
    requires ReadingsOf(clocks, times) && NonDecreasing(times)
    requires n <= j < |times|
    requires After(t, clocks, n).startMillis == Wrap(base)
    requires base <= times[n]
    requires times[j] - base < t.lengthMillis as int
    ensures forall k :: n <= k <= j ==> !Fires(t, clocks, k)
    ensures After(t, clocks, j + 1) == After(t, clocks, n)
  {
    forall k | n <= k <= j
      ensures !Fires(t, clocks, k)
    {
      assert times[k] <= times[j];
      QuietUpTo(t, clocks, times, base, n, k + 1);
    }
    QuietUpTo(t, clocks, times, base, n, j + 1);
  }

  /** An iteration that fires restarts the timer at that iteration's clock
      value. */
  lemma FiredResets(t: Timer, clocks: seq<u32>, i: nat)
    requires i < |clocks| && Fires(t, clocks, i)
    ensures After(t, clocks, i + 1) == Timer(clocks[i], t.lengthMillis)
  {
  }

  /** After a periodic timer fires in iteration `i`, it stays reset to that
      iteration's clock value for as long as less than a period has passed:
      the instance of `QuietUpTo` that starts at iteration `i + 1`. */
  lemma {:induction false} QuietAfterFire(t: Timer, clocks: seq<u32>, times: seq<int>, i: nat, n: nat)
    requires t.lengthMillis >= 2
    requires ReadingsOf(clocks, times) && NonDecreasing(times)
    requires i < n <= |times|
    requires Fires(t, clocks, i)
    requires times[n - 1] - times[i] < t.lengthMillis as int
    ensures After(t, clocks, n) == Timer(clocks[i], t.lengthMillis)
  {
    FiredResets(t, clocks, i);
    if n > i + 1 {
      assert times[i] <= times[i + 1];
      QuietUpTo(t, clocks, times, times[i], i + 1, n);
    }
  }

  /** A periodic timer that fired in iteration `i` does not fire again while
      less than a period has passed. */
  lemma {:induction false} NoFireWithinPeriod(t: Timer, clocks: seq<u32>, times: seq<int>, i: nat, j: nat)
    requires t.lengthMillis >= 2
    requires ReadingsOf(clocks, times) && NonDecreasing(times)
    requires i < j < |times|
    requires Fires(t, clocks, i)
    requires times[j] - times[i] < t.lengthMillis as int
    ensures !Fires(t, clocks, j)
  {
    assert times[i] <= times[j - 1] <= times[j];
    QuietAfterFire(t, clocks, times, i, j);
    ElapsedOfTrueTime(After(t, clocks, j), times[i], times[j]);
  }

  /** At most one success per span shorter than the period: two iterations
      in which a periodic timer fires are at least a period apart in true
      time, even when the 32-bit counter wrapped in between. */
  lemma {:induction false} AtMostOncePerSpan(t: Timer, clocks: seq<u32>, times: seq<int>, i: nat, j: nat)
    requires t.lengthMillis >= 2
    requires ReadingsOf(clocks, times) && NonDecreasing(times)
    requires i < j < |times|
    requires Fires(t, clocks, i) && Fires(t, clocks, j)
    ensures times[j] - times[i] >= t.lengthMillis as int
  {
    if times[j] - times[i] < t.lengthMillis as int {
      NoFireWithinPeriod(t, clocks, times, i, j);
    }
  }

  /** Once a full period (but less than the counter's range) has passed
      since `base`, the start of the timer after `n` iterations, a periodic
      timer has fired in some iteration from `n` on. */
  lemma {:induction false} FiresOncePeriodElapsed(t: Timer, clocks: seq<u32>, times: seq<int>, base: int, n: nat, j: nat)
    requires t.lengthMillis >= 2
    requires ReadingsOf(clocks, times)
    requires n <= j < |times|
    requires After(t, clocks, n).startMillis == Wrap(base)
    requires t.lengthMillis as int <= times[j] - base < Modulus
    ensures exists k :: n <= k <= j && Fires(t, clocks, k)
  {
    if forall k :: n <= k < j ==> !Fires(t, clocks, k) {
      QuietKeepsTimer(t, clocks, n, j);
      ElapsedOfTrueTime(After(t, clocks, j), base, times[j]);
      assert Fires(t, clocks, j);
    }
  }

  /** After firing in iteration `i`, a periodic timer fires again in some
      later iteration once a full period (but less than the counter's range)
      has passed, measured from iteration `i`'s clock value. */
  lemma {:induction false} FiresAgainAfterPeriod(t: Timer, clocks: seq<u32>, times: seq<int>, i: nat, j: nat)
    requires t.lengthMillis >= 2
    requires ReadingsOf(clocks, times)
    requires i < j < |times|
    requires Fires(t, clocks, i)
    requires t.lengthMillis as int <= times[j] - times[i] < Modulus
    ensures exists k :: i < k <= j && Fires(t, clocks, k)
  {
    assert After(t, clocks, i + 1).startMillis == Wrap(times[i]);
    FiresOncePeriodElapsed(t, clocks, times, times[i], i + 1, j);
  }

  /** A clock that does not advance: a periodic timer fires at most once
      however often it is polled. */
  lemma SameClockFiresAtMostOnce(t: Timer, now: u32, polls: nat, i: nat, j: nat)
    requires t.lengthMillis >= 2
    requires i < j < polls
    ensures !(Fires(t, seq(polls, _ => now), i) && Fires(t, seq(polls, _ => now), j))
  {
  }
}
