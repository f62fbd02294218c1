/** The value semantics of one `Polls` timer: its two fields and, for each
    instance member that computes or changes them, what that member computes
    from the fields and the shared millisecond clock `now`. `getLengthMillis`
    is the field `lengthMillis`, `Construct` is the constructor, and
    `setMillis`, which changes only the clock, is modelled in PollFunctions.
    The class in PollFunctions delegates to these definitions. */
module Poll {
  import opened Wrap32

  /** The per-instance state: the tick of the last reset and the period.
      A period of 0 disables the timer; a period of 1 fires on every poll. */
  datatype Timer = Timer(startMillis: u32, lengthMillis: u32) {

    /** `getPollElapsedMillis`: ticks since the last reset, measured with
        unsigned wrap-around subtraction. */
    function Elapsed(now: u32): (r: u32)
      ensures Wrap(startMillis as int + r as int) == now
      ensures startMillis <= now ==> r as int == now as int - startMillis as int
    {
      Sub(now, startMillis)
    }

    /** `getPollRemainingMillis`: the period minus the elapsed time, again
        with unsigned subtraction, so it underflows to a large value once the
        period has been exceeded. */
    function Remaining(now: u32): (r: u32)
      ensures Wrap(Elapsed(now) as int + r as int) == lengthMillis
      ensures Elapsed(now) < lengthMillis ==> 0 < r && r as int == lengthMillis as int - Elapsed(now) as int
      ensures Elapsed(now) == lengthMillis ==> r == 0
      ensures lengthMillis < Elapsed(now) ==> r as int == lengthMillis as int - Elapsed(now) as int + Modulus
    {
      Sub(lengthMillis, Elapsed(now))
    }

    /** `checkPoll`: `lengthMillis > 0 && curMillis - startMillis >= lengthMillis
        || lengthMillis == 1`, with C++ precedence. */
    function Check(now: u32): (r: bool)
      ensures lengthMillis == 0 ==> !r
      ensures lengthMillis == 1 ==> r
      ensures lengthMillis >= 2 ==> (r <==> Elapsed(now) >= lengthMillis)
    {
      (lengthMillis > 0 && Sub(now, startMillis) >= lengthMillis) || lengthMillis == 1
    }

    /** `isActive`: a timer is active exactly when its period is non-zero,
        and an inactive timer does not fire at any clock value. */
    function IsActive(): (r: bool)
      ensures r <==> lengthMillis != 0
      ensures !r ==> forall now: u32 :: !Check(now)
    {
      lengthMillis > 0
    }

    /** `resetPoll`: the start moves to the clock, so no time has elapsed. */
    function Reset(now: u32): (r: Timer)
      ensures r.startMillis == now && r.lengthMillis == lengthMillis
      ensures r.Elapsed(now) == 0
    {
      Timer(now, lengthMillis)
    }

    /** `setPollLength`: the period changes, the start does not. */
    function SetPollLength(millis: u32): (r: Timer)
      ensures r.lengthMillis == millis && r.startMillis == startMillis
      ensures forall now: u32 :: r.Elapsed(now) == Elapsed(now)
    {
      Timer(startMillis, millis)
    }

    /** `update`: a failed check changes nothing; a passing check resets the
        start to the clock. A periodic timer (period 2 or more) that has just
        fired does not fire again at the same clock value. */
    function Update(now: u32): (r: PollResult)
      ensures r.fired == Check(now)
      ensures !r.fired ==> r.next == this
      ensures r.fired ==> r.next.startMillis == now
      ensures r.next.lengthMillis == lengthMillis
      ensures lengthMillis >= 2 && r.fired ==> !r.next.Check(now)
    {
      if !Check(now) then PollResult(this, false) else PollResult(Reset(now), true)
    }
  }

  /** The result of one `update`: the timer afterwards and the return value. */
  datatype PollResult = PollResult(next: Timer, fired: bool)

  /** `Polls(updateDelay)`: the period is `updateDelay` and the start is
      the value that `random(updateDelay)` returned, passed in as `random`. */
  function Construct(updateDelay: u32, random: u32): (r: Timer)
    requires RandomInRange(updateDelay, random)
    ensures r.lengthMillis == updateDelay && r.startMillis == random
    ensures updateDelay > 0 ==> r.startMillis < updateDelay
    ensures updateDelay == 0 ==> r.startMillis == 0 && !r.IsActive()
  {
    Timer(random, updateDelay)
  }

  /** The range of Arduino's `random(howbig)`: [0, howbig), or exactly 0 when
      `howbig` is 0. */
  predicate RandomInRange(howbig: u32, value: u32) {
    if howbig == 0 then value == 0 else value < howbig
  }

  /** A failed poll is idempotent: polling again at the same clock value
      fails again and leaves the timer as it was. */
  lemma FailedPollRepeats(t: Timer, now: u32)
    requires !t.Update(now).fired
    ensures t.Update(now).next.Update(now) == t.Update(now)
  {
  }

  /** Elapsed time is correct across the counter's wrap-around: a clock that
      has moved `d` ticks past the start (possibly wrapping past 2^32 - 1)
      yields elapsed time `d`, for every `d` below 2^32. This is
      `Wrap32.SubOfForward` read as a statement about a timer's fields. */
  lemma ElapsedAcrossWrap(t: Timer, d: int)
    requires 0 <= d < Modulus
    ensures t.Elapsed(Wrap(t.startMillis as int + d)) == d as u32
  {
  }

  /** A start ahead of the clock reads as almost 2^32 ticks elapsed. So a
      freshly constructed periodic timer whose random start lies ahead of the
      clock (the clock is 0 until the application first sets it) fires at its
      first poll, whatever its random offset. */
  lemma StartAheadOfClockFires(updateDelay: u32, random: u32, now: u32)
    requires RandomInRange(updateDelay, random)
    requires 2 <= updateDelay as int <= Modulus / 2
    requires now < random
    ensures Construct(updateDelay, random).Check(now)
  {
  }

  /** The same for a period above 2^31. Arduino's `random` takes a signed
      `long`, so such a period reaches it as the negative value
      `updateDelay - 2^32`, and the start it returns is below
      `2^32 - updateDelay`. Any such start ahead of the clock fires at once. */
  lemma StartAheadOfClockFiresLongPeriod(updateDelay: u32, random: u32, now: u32)
    requires Modulus / 2 < updateDelay as int
    requires random as int < Modulus - updateDelay as int
    requires now < random
    ensures RandomInRange(updateDelay, random)
    ensures Construct(updateDelay, random).Check(now)
  {
  }
}
