# PollFunctions: a verified model of the `Polls` interval timer

The PollFunctions library for Arduino provides one class, `Polls`. It is a
polling-interval timer for a cooperative main loop. Each timer holds its
period (`lengthMillis`) and the tick of its last reset (`startMillis`). All
timers read one shared millisecond counter, `curMillis`, which the
application sets through the static `setMillis`. A call to `update` reports
whether a full period has elapsed since the last reset and, only when it has,
restarts the period at the current clock value. A period of 0 disables the
timer. A period of 1 makes it fire on every call. All arithmetic is on
32-bit `unsigned long`, so elapsed time is correct across the counter's
wrap-around.

The model has four modules:

- `Wrap32` (`wrap32.dfy`) holds 32-bit unsigned arithmetic. `u32` is a
  newtype over `int` in [0, 2^32). `Wrap` reduces modulo 2^32 and `Sub` is
  C++ unsigned subtraction.
- `Poll` (`poll.dfy`) holds the value semantics of one timer. `Timer` is the
  pair of fields. It has one member function for each instance member that
  computes or changes a timer's fields; `getLengthMillis` is the field
  `lengthMillis` itself. The module-level function `Construct` models the
  constructor. `setMillis` changes only the clock, so it has no counterpart
  here and is modelled in `PollFunctions`. These functions are the single
  definition of what the members compute.
- `PollTrace` (`poll_trace.dfy`) models a whole run of the main loop: set
  the clock, then call `update`, once per iteration. It holds the promises
  that span many calls. A disabled timer never fires. An every-frame timer
  always fires. A periodic timer fires at most once per span shorter than its
  period, and it fires again once a full period has passed, even across
  counter wrap-around.
- `PollFunctions` (`poll_functions.dfy`) holds the class itself. `Clock` is
  an object shared by reference and stands for the file-static `curMillis`.
  `Polls` has the fields `startMillis` and `lengthMillis` and a reference to
  the clock. The mutators `Update`, `ResetPoll` and `SetPollLength` are
  methods with `modifies this`. `SetMillis` is a static method that modifies
  only the clock, so by its frame no timer's fields change. The pure members
  are functions that read the object and the clock. A few client methods
  (`SharedClock`, `PeriodicScenario`, `EveryFrameAndDisabledScenario`,
  `WrapScenario`) check concrete call sequences against these contracts.

About the random start in the constructor: the library calls Arduino's
`random(updateDelay)`. The model takes that value as a constructor argument,
`random`. The argument must lie in the range Arduino documents: [0,
`updateDelay`) when `updateDelay` is positive, and 0 when it is 0.

One consequence of the code as written is proved in
`Poll.StartAheadOfClockFires` and `Poll.StartAheadOfClockFiresLongPeriod`.
The clock is 0 until the application first sets it, so a random start often
lies ahead of the clock. When it does, the unsigned subtraction reads almost
2^32 ticks as elapsed, and the first poll fires at once. When the start is
not ahead of the clock, `PollTrace.QuietWithinPeriod` shows the opposite:
the timer stays quiet until a full period has passed since its start.

## Model

| member | source | states |
|---|---|---|
| `Wrap32.Sub` | libraries/PollFunctions/PollFunctions.cpp:24-26 | unsigned `a - b` is the forward distance from `b` to `a`: adding it to `b` modulo 2^32 gives `a`; it is `a - b` when `b <= a` and `a - b + 2^32` otherwise |
| `Wrap32.SubOfForward` | libraries/PollFunctions/PollFunctions.cpp:24-26 | going forward `d < 2^32` ticks from `b`, wrapping or not, and subtracting `b` gives back exactly `d` |
| `Wrap32.SubUnique` | libraries/PollFunctions/PollFunctions.cpp:24-26 | the unsigned difference is the only value that takes `b` to `a` |
| `Poll.Timer.Elapsed` | libraries/PollFunctions/PollFunctions.cpp:24-26 | elapsed time is the forward distance from the start to the clock; without wrap it is the plain difference |
| `Poll.Timer.Remaining` | libraries/PollFunctions/PollFunctions.cpp:28-30 | elapsed plus remaining is the period modulo 2^32; before the period elapses, remaining is the exact difference and is positive; at the period it is 0; past the period it is the underflowed value `length - elapsed + 2^32` |
| `Poll.Timer.Check` | libraries/PollFunctions/PollFunctions.cpp:32-35 | period 0: never true; period 1: always true; period 2 or more: true iff elapsed time is at least the period |
| `Poll.Timer.IsActive` | libraries/PollFunctions/PollFunctions.cpp:41-43 | active iff the period is non-zero, and an inactive timer's check is false at every clock value |
| `Poll.Timer.Reset` | libraries/PollFunctions/PollFunctions.cpp:37-39 | the start becomes the clock and the period is kept, so elapsed time is 0 |
| `Poll.Timer.SetPollLength` | libraries/PollFunctions/PollFunctions.cpp:45-47 | the period becomes the argument and the start is kept, so elapsed time is the same at every clock value |
| `Poll.Timer.Update` | libraries/PollFunctions/PollFunctions.cpp:10-14 | returns the check; a failed check leaves the timer unchanged; a passing one moves the start to the clock and keeps the period; a periodic timer that fired does not pass again at the same clock value |
| `Poll.Construct` | libraries/PollFunctions/PollFunctions.cpp:5-8 | the period is `updateDelay` and the start is the random value: below `updateDelay`, or 0 (and inactive) when `updateDelay` is 0 |
| `Poll.FailedPollRepeats` | libraries/PollFunctions/PollFunctions.cpp:10-11 | after a failed poll, polling again at the same clock value fails again and changes nothing |
| `Poll.ElapsedAcrossWrap` | libraries/PollFunctions/PollFunctions.cpp:24-26 | if the clock is `d < 2^32` ticks past the start modulo 2^32, elapsed time is `d`, also when the counter wrapped |
| `Poll.StartAheadOfClockFires` | libraries/PollFunctions/PollFunctions.cpp:5-8 | a new timer with period in [2, 2^31] whose random start lies ahead of the clock passes its first check |
| `Poll.StartAheadOfClockFiresLongPeriod` | libraries/PollFunctions/PollFunctions.cpp:5-8 | for a period above 2^31, every start Arduino's `random` can return (below 2^32 minus the period) is within the assumed range, and if it lies ahead of the clock the first check passes |
| `PollTrace.After` | libraries/PollFunctions/PollFunctions.cpp:10-14 | no sequence of updates changes the period |
| `PollTrace.ElapsedOfTrueTime` | libraries/PollFunctions/PollFunctions.cpp:24-26 | elapsed time read through the wrapped counter equals the true time since the start whenever that is below 2^32 |
| `PollTrace.DisabledNeverFires` | libraries/PollFunctions/PollFunctions.cpp:32-35 | with period 0, `update` returns false in every iteration of every run |
| `PollTrace.EveryFrameAlwaysFires` | libraries/PollFunctions/PollFunctions.cpp:32-35 | with period 1, `update` returns true in every iteration, even when the clock does not advance |
| `PollTrace.QuietKeepsTimer` | libraries/PollFunctions/PollFunctions.cpp:10-11 | a stretch of iterations in which `update` returns false leaves the timer exactly as it was |
| `PollTrace.QuietUpTo` | libraries/PollFunctions/PollFunctions.cpp:10-14 | from a start `base` not ahead of the clock at iteration `n`, each later iteration with less than a period of true time since `base` does not fire and leaves the timer as it was after `n` |
| `PollTrace.QuietWithinPeriod` | libraries/PollFunctions/PollFunctions.cpp:10-14 | from any start not ahead of the clock (after construction, after `resetPoll`, after a firing), no iteration fires and the timer is unchanged while less than a period of true time has passed since that start |
| `PollTrace.FiredResets` | libraries/PollFunctions/PollFunctions.cpp:11-13 | an iteration that fires leaves the timer started at that iteration's clock value with its period kept |
| `PollTrace.QuietAfterFire` | libraries/PollFunctions/PollFunctions.cpp:10-14 | after a periodic timer fires, it stays reset to that iteration's clock value while less than a period of true time has passed |
| `PollTrace.NoFireWithinPeriod` | libraries/PollFunctions/PollFunctions.cpp:10-14 | a periodic timer that fired does not fire again until a full period of true time has passed |
| `PollTrace.AtMostOncePerSpan` | libraries/PollFunctions/PollFunctions.cpp:10-14 | any two iterations in which a periodic timer fires are at least one period apart in true time, across counter wrap-around |
| `PollTrace.FiresOncePeriodElapsed` | libraries/PollFunctions/PollFunctions.cpp:32-35 | once at least a period and less than 2^32 ticks have passed since the timer's start at iteration `n`, it has fired in some iteration from `n` on |
| `PollTrace.FiresAgainAfterPeriod` | libraries/PollFunctions/PollFunctions.cpp:10-14 | after firing, a periodic timer fires again in a later iteration once a full period (below 2^32) has passed since that firing |
| `PollTrace.SameClockFiresAtMostOnce` | libraries/PollFunctions/PollFunctions.cpp:10-14 | if the clock does not advance, a periodic timer fires at most once however often it is polled |
| `PollFunctions.Clock.constructor` | libraries/PollFunctions/PollFunctions.cpp:3 | the shared clock starts at 0 |
| `PollFunctions.Polls.constructor` | libraries/PollFunctions/PollFunctions.cpp:5-8 | the timer gets the shared clock; its period is `updateDelay`; its start is the random value below `updateDelay`, or 0 when `updateDelay` is 0 |
| `PollFunctions.Polls.Update` | libraries/PollFunctions/PollFunctions.cpp:10-14 | returns the check at the current clock; on false only the return value is produced and the fields are unchanged; on true the start becomes the clock; the period is always kept; a periodic timer that fired fails its next check at the same clock |
| `PollFunctions.Polls.SetMillis` | libraries/PollFunctions/PollFunctions.cpp:16-18 | the shared clock becomes the argument; only the clock may change, so no timer's fields change |
| `PollFunctions.Polls.GetLengthMillis` | libraries/PollFunctions/PollFunctions.cpp:20-22 | returns the period, which is 0 exactly when the timer is inactive |
| `PollFunctions.Polls.GetPollElapsedMillis` | libraries/PollFunctions/PollFunctions.cpp:24-26 | returns the forward distance from the start to the shared clock: the plain difference without wrap, the difference plus 2^32 with it |
| `PollFunctions.Polls.GetPollRemainingMillis` | libraries/PollFunctions/PollFunctions.cpp:28-30 | remaining plus elapsed is the period modulo 2^32; before the period elapses, remaining is the exact difference and is positive; past it, remaining exceeds the period (underflow) |
| `PollFunctions.Polls.CheckPoll` | libraries/PollFunctions/PollFunctions.cpp:32-35 | never for period 0, always for period 1, and for a larger period exactly when elapsed time reaches the period |
| `PollFunctions.Polls.ResetPoll` | libraries/PollFunctions/PollFunctions.cpp:37-39 | the start becomes the clock and the period is kept, so elapsed time is 0 |
| `PollFunctions.Polls.IsActive` | libraries/PollFunctions/PollFunctions.cpp:41-43 | true iff the period is non-zero; an inactive timer fails the check at every clock value |
| `PollFunctions.Polls.SetPollLength` | libraries/PollFunctions/PollFunctions.cpp:45-47 | the period becomes the argument and the start is unchanged |

## Left out

- The hardware millisecond source and `Arduino.h` are left out. The clock changes only through `SetMillis`, as in the library.
- The distribution of `random` is left out. Only its range is modelled, as a constructor argument.
- PollFunctions.Polls.constructor: Arduino's `random` takes a signed `long`, and the Arduino core is not part of this model. An `updateDelay` of 2^31 or more reaches `random` as the negative value `updateDelay - 2^32`. On the AVR core the result is then `random() % howbig`, with `random()` at most 2^31 - 1, so it lies in [0, min(2^31, 2^32 - updateDelay)). That range is a subset of the assumed [0, `updateDelay`). Every value the library can really produce therefore meets `RandomInRange`, and the assumption over-approximates soundly.
- Poll.StartAheadOfClockFires: its bound `updateDelay <= 2^31` comes only from that over-approximation. Under the real range a start ahead of the clock fires at once for every period of 2 or more; `Poll.StartAheadOfClockFiresLongPeriod` proves the case above 2^31.
- `update` is `virtual` in the library. The model has no subclasses and makes `Update` a plain method.
- Poll.Construct: it uses the same assumed range for `random` as the class constructor, for the same reason.
- The public/protected split is left out. Dafny has no protected members, and every member is visible.
- Concurrent or interrupt-time access to `curMillis` and to the fields is left out. The library assumes a single-threaded main loop.
- The header's `{0}` field initialisers are left out. The constructor, the only one there is, assigns both fields.
