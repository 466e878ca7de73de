# Polly circuit breaker — a Dafny model

This project models the circuit-breaker core of Polly (the .NET 3.5/4.5 era
code base): the two breaker states that decide whether a guarded call may run,
and the fluent builders that validate a breaker's arguments and construct its
state.

- **Count-threshold breaker** (`CircuitBreakerState`): an Int32 failure count, the
  instant the circuit is blocked until, and the last exception handled. A handled
  exception is recorded and counted; when the count reaches
  `exceptionsAllowedBeforeBreaking` the circuit breaks until `now + durationOfBreak`
  (clamped at `DateTime.MaxValue`) and `onCircuitBroken` is called with the
  exception. Breaking does not reset the count, so after the break a single
  further fault breaks the circuit again: this is the half-open trial. `Reset`
  (a successful call) clears everything.
- **Success-ratio breaker** (`SuccessRatioCircuitBreakerState`): exponentially
  decayed success and failure counters. A handled exception decays and
  increments the failure counter, decays the success counter into a local only,
  and breaks the circuit when `success / (success + fail) * 100` is below
  `minSuccessRatio`; breaking zeroes both counters. `Reset` decays and
  increments the success counter and closes the circuit, leaving the failure
  counter alone.
- **Builders** (`CircuitBreakerSyntax`, `CircuitBreakerSyntaxAsync`): each overload
  either throws an argument exception naming the bad parameter or returns a
  policy around the state it constructed.

Files: `platform.dfy` (Int32, DateTime and TimeSpan as ticks, the saturating
addition, exceptions and callbacks), `count_breaker.dfy`,
`success_ratio_breaker.dfy`, `syntax.dfy` (both builder modules) and
`executor.dfy`.

Each breaker is a `class` whose fields are the source's fields and whose methods
(`Reset`, `TryBreak`, `BreakTheCircuit`, `Initialize`, the `IsBroken` and
`LastException` getters) update them in place. Each method's postcondition ties
the new fields to a function of the old ones (`Cleared`, `AfterFault`,
`AfterSuccess`, ...). The properties of the breaker are proved about those
functions.

Conventions:
- A `DateTime` is an `Instant`, an integer number of ticks in
  `[0, 3155378975999999999]`. A `TimeSpan` is a `Duration`, a signed 64-bit tick count.
- The clock is a parameter: every operation that reads `SystemClock.UtcNow()`
  takes `now`. Every clock read within one operation of either breaker sees that
  same `now`: the two reads in the count breaker's `BreakTheCircuit`, the two in
  the success-ratio `Reset`, and the four in the success-ratio `TryBreak`.
- `_count` is a C# `int` and `_count += 1` wraps in the default unchecked context.
  The model wraps it too (`Platform.Increment`), so the properties about counting
  assume the count has not reached `int.MaxValue`.
- Exceptions are values: the placeholder
  `InvalidOperationException("This exception should never be thrown")` is
  `ShouldNeverBeThrown`, and every other exception is `Raised(id)`.
- `onCircuitBroken` is `NullCallback`, `DoNothing` (the lambda the short
  overloads pass) or `Handler(id)`. Its body is not modelled. Each invocation of a
  non-null delegate is appended to the ghost log `notified`.
- In `Decay`, the factor `Math.Exp(elapsedTicks * _decayFactor)` is an abstract
  function `decay: int -> real`, one per breaker, supplied to the constructor
  alongside the half-life. The model assumes the laws the exact exponential obeys
  (`DecayCurve`): the factor is positive; it is 1 at 0 elapsed ticks, at most 1 for
  non-negative elapsed time, and 0.5 at one half-life. The `counter > 0.00001`
  branch of `Decay` is modelled exactly.
- The module `Executor` has a step function for the call wrapper,
  `CircuitBreakerPolicy.Implementation`. That code is not part of this model, so
  the step is inferred from the specification tests:
  - a broken circuit fails fast with `BrokenCircuit(LastException)`;
  - a completed call runs `Reset`;
  - a handled exception runs `TryBreak` and is rethrown;
  - an unhandled exception is rethrown and changes nothing.

  The test scenarios are stated as lemmas over this step.

Behaviours of the code that the model keeps as written:
- Breaking does not reset `_count`: `BreakTheCircuit` sets only `_blockedTill`
  (src/Polly.Net35/CircuitBreaker/CircuitBreakerState.cs:99-105).
- `Decay` leaves a counter at or below 0.00001 unchanged; it does not set it to 0
  (src/Polly.Net35/CircuitBreaker/SuccessRatioCircuitBreakerState.cs:110-115).
- The success-ratio builder accepts any `minSuccessRatio >= 0`, values above 100
  included (src/Polly.Net35/CircuitBreakerSyntax.cs:99).
- The XML doc of the synchronous four-argument count builder lists an
  `ArgumentNullException` for `onCircuitBroken`
  (src/Polly.Net35/CircuitBreakerSyntax.cs:55), but its code never throws it
  (src/Polly.Net35/CircuitBreakerSyntax.cs:56-62). Only the asynchronous builder
  rejects a null callback.

## Model

| member | source | states |
|---|---|---|
| `Platform.Increment` | src/Polly.Net35/CircuitBreaker/CircuitBreakerState.cs:88 | `_count += 1` on a C# int: the result is count + 1 modulo 2^32, and exactly count + 1 below `int.MaxValue` |
| `Platform.SaturatingAdd` | src/Polly.Net35/CircuitBreaker/CircuitBreakerState.cs:99-105 | the end of a break is `min(now + duration, DateTime.MaxValue)`; it never exceeds `MaxValue`, never precedes `now` for a non-negative duration, and is exactly `MaxValue` for `TimeSpan.MaxValue` |
| `Platform.NeverBlockedUntilMin` | src/Polly.Net35/CircuitBreaker/CircuitBreakerState.cs:59 | a `blockedTill` of `DateTime.MinValue` blocks no representable instant |
| `Platform.Invocations` | src/Polly.Net35/CircuitBreaker/CircuitBreakerState.cs:93-94 | the callback is invoked at most once, with the fault, and only when it is not null |
| `CountBreaker.Cleared` | src/Polly.Net35/CircuitBreaker/CircuitBreakerState.cs:67-76 | after `Reset` the count is 0 and the last exception is the placeholder; the circuit is closed at every instant; the callback log is untouched |
| `CountBreaker.Fresh` | src/Polly.Net35/CircuitBreaker/CircuitBreakerState.cs:26-33 | a new breaker has count 0, `blockedTill = MinValue` and the placeholder exception, has never called its callback, and is closed at every instant |
| `CountBreaker.AfterFault` | src/Polly.Net35/CircuitBreaker/CircuitBreakerState.cs:82-97 | `TryBreak(ex)` always records `ex` and counts one more fault. Below the threshold, `blockedTill` and the callback log are unchanged. At the threshold, `blockedTill` becomes the saturating `now + duration`, the callback log gains `ex` when the callback is not null, and the circuit is broken at `now` exactly when the duration is positive and `now < MaxValue` |
| `CountBreaker.CircuitBreakerState.constructor` | src/Polly.Net35/CircuitBreaker/CircuitBreakerState.cs:26-33 | stores threshold, duration and callback unchanged, then resets: the state is `Fresh()` |
| `CountBreaker.CircuitBreakerState.LastException` | src/Polly.Net35/CircuitBreaker/CircuitBreakerState.cs:38-47 | returns the last recorded exception |
| `CountBreaker.CircuitBreakerState.IsBroken` | src/Polly.Net35/CircuitBreaker/CircuitBreakerState.cs:53-62 | broken iff `now < blockedTill`: strict, so the circuit closes at `blockedTill` itself |
| `CountBreaker.CircuitBreakerState.Reset` | src/Polly.Net35/CircuitBreaker/CircuitBreakerState.cs:67-76 | the new fields are `Cleared` of the old ones |
| `CountBreaker.CircuitBreakerState.TryBreak` | src/Polly.Net35/CircuitBreaker/CircuitBreakerState.cs:82-97 | the new fields are `AfterFault` of the old ones, callback invocation included |
| `CountBreaker.CircuitBreakerState.BreakTheCircuit` | src/Polly.Net35/CircuitBreaker/CircuitBreakerState.cs:99-105 | sets only `blockedTill`, to the saturating `now + duration` |
| `CountBreaker.FaultsBelowThreshold` | src/Polly.Net35/CircuitBreaker/CircuitBreakerState.cs:86-89 | while the threshold is not reached, k faults raise the count by exactly k, leave `blockedTill` and the callback log alone, and leave the last fault as the last exception |
| `CountBreaker.ThresholdOpensCircuit` | src/Polly.Net35/CircuitBreaker/CircuitBreakerState.cs:86-95 | from a reset breaker, threshold − 1 faults leave the circuit closed without a callback; the next fault breaks it and calls the callback once, with that fault |
| `CountBreaker.HalfOpenTrialFaultReopens` | src/Polly.Net35/CircuitBreaker/CircuitBreakerState.cs:88-91 | with the count still at or above the threshold and the break over, one fault re-breaks the circuit until the saturating `now + duration` |
| `CountBreaker.BreakKeepsCountAtThreshold` | src/Polly.Net35/CircuitBreaker/CircuitBreakerState.cs:88-91 | a breaking fault leaves the count at or above the threshold, so the following fault breaks again |
| `CountBreaker.CountWrapsAtInt32Max` | src/Polly.Net35/CircuitBreaker/CircuitBreakerState.cs:88-89 | a fault at count `int.MaxValue` wraps the count to `int.MinValue` and does not break the circuit |
| `CountBreaker.MaxDurationBlocksUntilMaxValue` | src/Polly.Net35/CircuitBreaker/CircuitBreakerState.cs:101-104 | with `TimeSpan.MaxValue` a break lasts until `DateTime.MaxValue`, so the circuit is broken at every earlier instant |
| `SuccessRatioBreaker.Decay` | src/Polly.Net35/CircuitBreaker/SuccessRatioCircuitBreakerState.cs:106-116 | a counter at or below 0.00001, or decayed over no time, is returned unchanged. Over non-negative time a larger counter stays in (0, counter]. A non-negative counter never becomes negative, and one half-life halves a counter above the threshold |
| `SuccessRatioBreaker.SuccessRatio` | src/Polly.Net35/CircuitBreaker/SuccessRatioCircuitBreakerState.cs:98 | the ratio is defined and lies in [0, 100) because the failure term is at least 1; it is 0 exactly when there is no success mass |
| `SuccessRatioBreaker.Fresh` | src/Polly.Net35/CircuitBreaker/SuccessRatioCircuitBreakerState.cs:30-36 | a new breaker has both counters at 0, the placeholder exception, and is closed at every instant |
| `SuccessRatioBreaker.Initialized` | src/Polly.Net35/CircuitBreaker/SuccessRatioCircuitBreakerState.cs:133-138 | `Initialize` closes the circuit and restores the placeholder, touching neither counter nor its instant |
| `SuccessRatioBreaker.AfterSuccess` | src/Polly.Net35/CircuitBreaker/SuccessRatioCircuitBreakerState.cs:70-80 | `Reset` sets the success counter to its decayed value + 1 (between 1 and old + 1 when time has not gone backwards) and its instant to `now`. It closes the circuit at every instant and restores the placeholder. The failure counter and its instant are untouched, and the counters stay non-negative |
| `SuccessRatioBreaker.FailMass` | src/Polly.Net35/CircuitBreaker/SuccessRatioCircuitBreakerState.cs:92-93 | the failure counter `TryBreak` stores is at least 1, and at most old + 1 when time has not gone backwards |
| `SuccessRatioBreaker.SuccessMass` | src/Polly.Net35/CircuitBreaker/SuccessRatioCircuitBreakerState.cs:96 | the decayed success counter is non-negative and, without time going backwards, at most the stored one |
| `SuccessRatioBreaker.RatioOnFault` | src/Polly.Net35/CircuitBreaker/SuccessRatioCircuitBreakerState.cs:96-98 | the ratio a fault is judged by lies in [0, 100) |
| `SuccessRatioBreaker.AfterFault` | src/Polly.Net35/CircuitBreaker/SuccessRatioCircuitBreakerState.cs:86-104 | `TryBreak(ex)` always records `ex` and keeps the counters non-negative. When the ratio is below the minimum, both counters become 0, both instants become `now`, and `blockedTill` becomes the saturating `now + duration`; the circuit is then broken at `now` iff the duration is positive and `now < MaxValue`. Otherwise the failure counter becomes its decayed value + 1 at `now`, and the success counter, its instant and `blockedTill` are unchanged |
| `SuccessRatioBreaker.BrokenTheCircuit` | src/Polly.Net35/CircuitBreaker/SuccessRatioCircuitBreakerState.cs:118-131 | breaking zeroes both counters, sets both instants to `now` and `blockedTill` to the saturating `now + duration`, and keeps the last exception |
| `SuccessRatioBreaker.SuccessRatioCircuitBreakerState.constructor` | src/Polly.Net35/CircuitBreaker/SuccessRatioCircuitBreakerState.cs:30-36 | stores minimum, duration, half-life and decay factor unchanged; the state is `Fresh()` |
| `SuccessRatioBreaker.SuccessRatioCircuitBreakerState.LastException` | src/Polly.Net35/CircuitBreaker/SuccessRatioCircuitBreakerState.cs:41-50 | returns the last recorded exception |
| `SuccessRatioBreaker.SuccessRatioCircuitBreakerState.IsBroken` | src/Polly.Net35/CircuitBreaker/SuccessRatioCircuitBreakerState.cs:56-65 | broken iff `now < blockedTill` |
| `SuccessRatioBreaker.SuccessRatioCircuitBreakerState.Reset` | src/Polly.Net35/CircuitBreaker/SuccessRatioCircuitBreakerState.cs:70-80 | the new fields are `AfterSuccess` of the old ones; the counters stay non-negative |
| `SuccessRatioBreaker.SuccessRatioCircuitBreakerState.TryBreak` | src/Polly.Net35/CircuitBreaker/SuccessRatioCircuitBreakerState.cs:86-104 | the new fields are `AfterFault` of the old ones; the counters stay non-negative |
| `SuccessRatioBreaker.SuccessRatioCircuitBreakerState.BreakTheCircuit` | src/Polly.Net35/CircuitBreaker/SuccessRatioCircuitBreakerState.cs:118-131 | the new fields are `BrokenTheCircuit` of the old ones |
| `SuccessRatioBreaker.SuccessRatioCircuitBreakerState.Initialize` | src/Polly.Net35/CircuitBreaker/SuccessRatioCircuitBreakerState.cs:133-138 | the new fields are `Initialized` of the old ones |
| `SuccessRatioBreaker.FullRatioAlwaysTrips` | src/Polly.Net35/CircuitBreaker/SuccessRatioCircuitBreakerState.cs:98-99 | a minimum of 100 or more breaks the circuit on every handled fault |
| `SuccessRatioBreaker.ZeroRatioNeverTrips` | src/Polly.Net35/CircuitBreaker/SuccessRatioCircuitBreakerState.cs:98-99 | a minimum of 0 never breaks the circuit |
| `SuccessRatioBreaker.NoSuccessMassTrips` | src/Polly.Net35/CircuitBreaker/SuccessRatioCircuitBreakerState.cs:96-99 | with a zero success counter the ratio is 0, so any positive minimum breaks on the first handled fault |
| `SuccessRatioBreaker.FrozenClockRatio` | src/Polly.Net35/CircuitBreaker/SuccessRatioCircuitBreakerState.cs:92-98 | with no time elapsed since either update, the ratio is exactly success / (success + fail + 1) * 100 |
| `SuccessRatioBreaker.HalfOpenTrialFaultReopens` | src/Polly.Net35/CircuitBreaker/SuccessRatioCircuitBreakerState.cs:96-102 | after a break, the next handled fault breaks again (positive minimum), for a fresh saturating duration from its own instant |
| `CircuitBreakerSyntax.CircuitBreaker` | src/Polly.Net35/CircuitBreakerSyntax.cs:29-34 | rejects exactly the non-positive thresholds, naming "exceptionsAllowedBeforeBreaking"; otherwise builds a count state with the do-nothing callback and the threshold and duration unchanged |
| `CircuitBreakerSyntax.CircuitBreakerWithCallback` | src/Polly.Net35/CircuitBreakerSyntax.cs:56-62 | rejects exactly the non-positive thresholds, naming "exceptionsAllowedBeforeBreaking", null callback or not; otherwise a synchronous policy over a count state with threshold, duration and callback unchanged |
| `CircuitBreakerSyntax.CircuitBreakerWithState` | src/Polly.Net35/CircuitBreakerSyntax.cs:75-80 | the same threshold check; otherwise a synchronous policy over the supplied state, unchanged |
| `CircuitBreakerSyntax.SuccessRatioCircuitBreaker` | src/Polly.Net35/CircuitBreakerSyntax.cs:97-103 | rejects exactly the negative minimums, naming "minSuccessRatio" (0 and values above 100 are accepted); otherwise a policy over a success-ratio state with minimum, duration and half-life unchanged |
| `CircuitBreakerSyntax.ThresholdDecidesAcceptance` | src/Polly.Net35/CircuitBreakerSyntax.cs:29-80 | the three count overloads accept the same thresholds whatever the callback, a null callback included |
| `CircuitBreakerSyntaxAsync.CircuitBreakerAsync` | src/Polly.Net45/CircuitBreakerSyntaxAsync.cs:29-34 | fails only on a non-positive threshold (the do-nothing callback is never null); otherwise a count state with that callback |
| `CircuitBreakerSyntaxAsync.CircuitBreakerAsyncWithCallback` | src/Polly.Net45/CircuitBreakerSyntaxAsync.cs:56-63 | rejects a non-positive threshold (reported first, even with a null callback) and then a null callback, naming "onCircuitBroken"; otherwise an asynchronous policy over a count state with threshold, duration and callback unchanged |
| `CircuitBreakerSyntaxAsync.AsyncDiffersOnlyOnNullCallback` | src/Polly.Net45/CircuitBreakerSyntaxAsync.cs:56-63 | the asynchronous builder agrees with the synchronous one except that it rejects a null callback; on success both build the same state |
| `Executor.Reset` | src/Polly.Net35/CircuitBreaker/SuccessRatioCircuitBreakerState.cs:70-80 | on either breaker, a success closes the circuit at every instant and restores the placeholder exception |
| `Executor.TryBreak` | src/Polly.Net35/CircuitBreaker/CircuitBreakerState.cs:82-97 | on either breaker, a handled fault becomes the last exception |
| `Executor.Execute` | src/Polly.Specs/CircuitBreakerAsyncSpecs.cs:36-53 | a call fails fast with a broken circuit exactly when the circuit is broken, and then changes nothing. Otherwise the caller sees the action's own result (after `Reset`) or its own exception (after `TryBreak` if handled, with no state change if not) |
| `Executor.Run` | src/Polly.Specs/CircuitBreakerAsyncSpecs.cs:36-109 | over any sequence of calls, every reply is the action's own result, the action's own exception, or a broken circuit |
| `Executor.RunAppend` | src/Polly.Specs/CircuitBreakerAsyncSpecs.cs:140-170 | running two call sequences one after the other is running their concatenation |
| `Executor.UnhandledFaultsPassThrough` | src/Polly.Specs/CircuitBreakerAsyncSpecs.cs:76-109 | any number of unhandled exceptions are each rethrown as they are and leave the breaker unchanged |
| `Executor.CountFaultsBelowThreshold` | src/Polly.Specs/CircuitBreakerAsyncSpecs.cs:240-254 | below the threshold, each handled fault is rethrown and only counted |
| `Executor.TripThenFailFast` | src/Polly.Specs/CircuitBreakerAsyncSpecs.cs:36-53 | on either breaker, a handled fault that breaks the circuit is rethrown, and the next call at the same instant fails fast wrapping that fault |
| `Executor.CountOpensOnNthFault` | src/Polly.Specs/CircuitBreakerAsyncSpecs.cs:36-53 | with threshold N and a frozen clock, from a fresh or reset breaker, the first N faults are rethrown and the next call fails fast wrapping the N-th. The breaker is then broken for the whole duration and has called the callback once, with the N-th fault |
| `Executor.TwoFaultsOneMinuteFromBuilder` | src/Polly.Specs/CircuitBreakerAsyncSpecs.cs:41 | the breaker of the count scenarios is what `CircuitBreakerAsync(2, TimeSpan.FromMinutes(1))` builds, with the do-nothing callback or with a given one |
| `Executor.CountTwoFaultScenario` | src/Polly.Specs/CircuitBreakerAsyncSpecs.cs:256-278 | threshold 2: two faults are rethrown, the third call gets a broken circuit wrapping the second, and the callback ran exactly once, with the second fault |
| `Executor.CountTwoFaultsTrip` | src/Polly.Specs/CircuitBreakerAsyncSpecs.cs:111-138 | threshold 2, one minute: two faults at T are rethrown, the third call fails fast, and the circuit stays broken until T + 1 minute with count 2 |
| `Executor.CountHalfOpenFailedTrial` | src/Polly.Specs/CircuitBreakerAsyncSpecs.cs:140-170 | when the break is over and the count is still at the threshold, one handled fault is rethrown and reopens the circuit for another minute; the next call fails fast wrapping it and the callback has run again |
| `Executor.CountHalfOpenSuccessfulTrial` | src/Polly.Specs/CircuitBreakerAsyncSpecs.cs:173-209 | when the break is over, a successful call resets the count, so the next fault is only rethrown; a second fault is needed to reopen the circuit |
| `Executor.CountHalfOpenScenario` | src/Polly.Specs/CircuitBreakerAsyncSpecs.cs:111-209 | at T + 1 minute the circuit is closed again. A failing trial reopens it at once; a successful trial means two new faults are needed to reopen it |
| `Executor.CountMaxDurationScenario` | src/Polly.Specs/CircuitBreakerAsyncSpecs.cs:13-22 | with `TimeSpan.MaxValue` the fault is rethrown, nothing overflows, and the circuit is broken until `DateTime.MaxValue` |
| `Executor.RatioOneMinuteFromBuilder` | src/Polly.Specs/SuccessRatioCircuitBreakerSpecs.cs:40 | the breaker of the success-ratio scenarios is what `CircuitBreaker(minSuccessRatio, TimeSpan.FromMinutes(1), TimeSpan.FromSeconds(30))` builds, for any non-negative minimum |
| `Executor.RatioOpensBelowMinimumScenario` | src/Polly.Specs/SuccessRatioCircuitBreakerSpecs.cs:36-54 | minimum 45 and a frozen clock: after one success, the first fault (ratio 50) is rethrown; the second (ratio exactly 100/3) opens the circuit; the third call fails fast wrapping the second fault |
| `Executor.RatioHalfOpenSuccessScenario` | src/Polly.Specs/SuccessRatioCircuitBreakerSpecs.cs:130-162 | minimum 45: the first fault opens the circuit. After the break a successful trial closes it, and then two faults are needed to reopen it |
| `Executor.RatioHalfOpenFaultScenario` | src/Polly.Specs/SuccessRatioCircuitBreakerSpecs.cs:100-126 | minimum 50: the first fault opens the circuit; after the break a failing trial reopens it at once |
| `Executor.RatioMaxDurationScenario` | src/Polly.Specs/SuccessRatioCircuitBreakerSpecs.cs:13-21 | minimum 100 with `TimeSpan.MaxValue`: the first fault is rethrown and the circuit is broken until `DateTime.MaxValue` |

## Left out

- Locking (`TimedLock.Lock` around every member) and its lock-timeout failure: the model is single-threaded and each operation is atomic.
- `SystemClock` and its override and reset in the tests: every operation takes `now` as a parameter, and nothing assumes the clock only moves forward.
- `SuccessRatioBreaker.Decay`: `double` arithmetic and `Math.Exp`/`Math.Log` are not modelled. The decay factor is an abstract positive function obeying the exact exponential's laws. A `double` product can underflow to 0 after a very long idle time; the model's positive multiplier does not capture that. Half-life values are not checked.
- The `VerifyDecayWorking` test (src/Polly.Specs/SuccessRatioCircuitBreakerSpecs.cs:164-184), which depends on actual exponent values.
- `minSuccessRatio` as a `double`: NaN, which passes the `< 0` check, is not modelled.
- `CountBreaker.CircuitBreakerState.constructor` and `SuccessRatioBreaker.SuccessRatioCircuitBreakerState.constructor`: both require a non-negative break duration. The success-ratio one also requires a positive half-life. The source validates neither: a negative duration can make `DateTime + TimeSpan` throw, and a zero half-life makes the decay factor infinite.
- `Policy`, `PolicyBuilder.ExceptionPredicates` and `CircuitBreakerPolicy.Implementation`/`ImplementationAsync` are not part of this model. Whether an exception is handled is given with each call, and the call wrapper is the step inferred from the tests.
- `Task`-based asynchronous execution: the asynchronous builders are modelled only as far as they differ in validation, with a flag recording which wrapper the policy uses.
- The body of `onCircuitBroken`: only its invocations are recorded. A callback that throws is not modelled. In the source its exception leaves `TryBreak` (src/Polly.Net35/CircuitBreaker/CircuitBreakerState.cs:94) after the fields have changed, and the caller sees it instead of the handled fault. `Executor.Execute` always rethrows the fault.
- `SuccessRatioBreaker.SuccessRatio`: the counters and the ratio are `real`, and `double` rounding is not modelled. In `double`, `s / (s + f) * 100` rounds to exactly 100.0 once `s` exceeds about 2^53 times `f`, so the source's ratio lies in [0, 100] and not [0, 100). `SuccessRatioBreaker.FullRatioAlwaysTrips` relies on the real ratio, so it would fail at that extreme for a minimum of exactly 100.
- Test scaffolding: FluentAssertions, the exception-raising helpers, and the `IDisposable` clock reset.
