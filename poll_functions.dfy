/** The `Polls` class of the PollFunctions library: a polling-interval
    timer for an Arduino main loop. The file-static `curMillis` that every
    timer reads becomes a `Clock` object that all timers share by reference;
    the static `setMillis` writes it. Each member's value semantics is the
    one of `Poll.Timer`, applied to the object's fields and the shared clock.
    In the library `update`, `setMillis` and `getLengthMillis` are public and
    the other members protected (for subclasses); Dafny has no such split. */
module PollFunctions {
  import opened Wrap32
  import opened Poll

  /** The shared millisecond counter, 0 until the application first sets it. */
  class Clock {
    var now: u32

    constructor ()
      ensures now == 0
    {
      now := 0;
    }
  }

  class Polls {
    var startMillis: u32
    var lengthMillis: u32
    const clock: Clock

    /** The timer's fields as a value. */
    function State(): Timer
      reads this
    {
      Timer(startMillis, lengthMillis)
    }

    /** `Polls(updateDelay)`. `random` is what Arduino's `random(updateDelay)`
        returned: below `updateDelay`, or 0 when `updateDelay` is 0. */
    constructor (clock: Clock, updateDelay: u32, random: u32)
      requires RandomInRange(updateDelay, random)
      ensures this.clock == clock
      ensures State() == Construct(updateDelay, random)
      ensures lengthMillis == updateDelay
      ensures updateDelay > 0 ==> startMillis < updateDelay
      ensures updateDelay == 0 ==> startMillis == 0
    {
      this.clock := clock;
      startMillis := random;
      lengthMillis := updateDelay;
    }

    /** `update`: returns whether the period has elapsed and, only if so,
        restarts it at the current clock value. */
    method Update() returns (fired: bool)
      modifies this
      ensures fired == old(CheckPoll())
      ensures State() == old(State()).Update(clock.now).next
      ensures !fired ==> startMillis == old(startMillis)
      ensures fired ==> startMillis == clock.now
      ensures lengthMillis == old(lengthMillis)
      ensures fired && lengthMillis >= 2 ==> !CheckPoll()
    {
      if !CheckPoll() {
        return false;
      }
      ResetPoll();
      return true;
    }

    /** `setMillis`: sets the clock every timer reads. It is static in the
        library: it changes the clock and no timer's fields. */
    static method SetMillis(clock: Clock, millis: u32)
      modifies clock
      ensures clock.now == millis
    {
      clock.now := millis;
    }

    /** `getLengthMillis`: the period, whatever the clock. */
    function GetLengthMillis(): (r: u32)
      reads this
      ensures r == lengthMillis
      ensures r == 0 <==> !IsActive()
    {
      State().lengthMillis
    }

    /** `getPollElapsedMillis`: the ticks by which the clock is ahead of the
        start, going forward around the 2^32 circle. */
    function GetPollElapsedMillis(): (r: u32)
      reads this, clock
      ensures Wrap(startMillis as int + r as int) == clock.now
      ensures startMillis <= clock.now ==> r as int == clock.now as int - startMillis as int
      ensures clock.now < startMillis ==> r as int == clock.now as int - startMillis as int + Modulus
    {
      State().Elapsed(clock.now)
    }

    /** `getPollRemainingMillis`: period minus elapsed time, modulo 2^32. Exact
        and positive while the period has not elapsed; a large (underflowed)
        value once it has been exceeded. */
    function GetPollRemainingMillis(): (r: u32)
      reads this, clock
      ensures Wrap(r as int + GetPollElapsedMillis() as int) == lengthMillis
      ensures GetPollElapsedMillis() < lengthMillis ==>
                0 < r && r as int == lengthMillis as int - GetPollElapsedMillis() as int
      ensures GetPollElapsedMillis() > lengthMillis ==> r > lengthMillis
    {
      State().Remaining(clock.now)
    }

    /** `checkPoll`: never for period 0, always for period 1, and otherwise
        exactly when a full period has elapsed. */
    function CheckPoll(): (r: bool)
      reads this, clock
      ensures lengthMillis == 0 ==> !r
      ensures lengthMillis == 1 ==> r
      ensures lengthMillis >= 2 ==> (r <==> GetPollElapsedMillis() >= lengthMillis)
    {
      State().Check(clock.now)
    }

    /** `resetPoll`: restarts the period at the current clock value. */
    method ResetPoll()
      modifies this
      ensures startMillis == clock.now && lengthMillis == old(lengthMillis)
      ensures GetPollElapsedMillis() == 0
    {
      startMillis := clock.now;
    }

    /** `isActive`: the period is non-zero; an inactive timer never fires. */
    function IsActive(): (r: bool)
      reads this
      ensures r <==> lengthMillis > 0
      ensures !r ==> forall now: u32 :: !State().Check(now)
    {
      State().IsActive()
    }

    /** `setPollLength`: changes the period but not the start, so a shorter
        period can make the next poll succeed at once. */
    method SetPollLength(millis: u32)
      modifies this
      ensures lengthMillis == millis && startMillis == old(startMillis)
      ensures State() == old(State()).SetPollLength(millis)
    {
      lengthMillis := millis;
    }
  }

  /** Two timers on one clock: setting the clock changes neither timer, and
      a failed poll of one leaves both as they were. */
  method SharedClock(c: Clock, a: Polls, b: Polls, millis: u32)
    requires a.clock == c && b.clock == c && a != b
    modifies c, a
  {
    var sa, sb := a.State(), b.State();
    Polls.SetMillis(c, millis);
    assert a.State() == sa && b.State() == sb;
    assert a.GetPollElapsedMillis() == Sub(millis, sa.startMillis);
    if !a.CheckPoll() {
      var fired := a.Update();
      assert !fired && a.State() == sa && b.State() == sb;
      fired := a.Update();
      assert !fired && a.State() == sa && b.State() == sb;
    }
  }

  /** Period 100, started at 0: fires at 100, not at 150, again at 200 (and
      restarts there), not at 201. */
  method PeriodicScenario()
  {
    var c := new Clock();
    var p := new Polls(c, 100, 0);
    Polls.SetMillis(c, 100);
    var fired := p.Update();
    assert fired && p.startMillis == 100;
    Polls.SetMillis(c, 150);
    fired := p.Update();
    assert !fired && p.GetPollRemainingMillis() == 50;
    Polls.SetMillis(c, 200);
    fired := p.Update();
    assert fired && p.startMillis == 200;
    Polls.SetMillis(c, 201);
    fired := p.Update();
    assert !fired;
  }

  /** Period 1 fires at every poll, even with the clock standing still;
      period 0 never fires. */
  method EveryFrameAndDisabledScenario()
  {
    var c := new Clock();
    var every := new Polls(c, 1, 0);
    var off := new Polls(c, 0, 0);
    Polls.SetMillis(c, 5);
    var f1 := every.Update();
    var f2 := every.Update();
    var f3 := every.Update();
    assert f1 && f2 && f3;
    var g1 := off.Update();
    Polls.SetMillis(c, 1000);
    var g2 := off.Update();
    Polls.SetMillis(c, 1000000);
    var g3 := off.Update();
    assert !g1 && !g2 && !g3;
  }

  /** Across the wrap of the 32-bit counter: a timer of period 10 restarted
      at 2^32 - 4 has not fired 5 ticks later (clock 1) and fires 10 ticks
      later (clock 6). */
  method WrapScenario()
  {
    var c := new Clock();
    var p := new Polls(c, 10, 0);
    Polls.SetMillis(c, 0xFFFF_FFFC);
    p.ResetPoll();
    Polls.SetMillis(c, 1);
    assert p.GetPollElapsedMillis() == 5;
    var fired := p.Update();
    assert !fired;
    Polls.SetMillis(c, 6);
    fired := p.Update();
    assert fired && p.startMillis == 6;
  }
}
