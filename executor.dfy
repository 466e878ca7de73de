/**
 * The call wrapper that consults a breaker around each guarded call
 * (`CircuitBreakerPolicy.Implementation` / `ImplementationAsync`), which is not
 * part of this model's sources: its behaviour here is INFERRED from the
 * specification tests, as one step per call:
 *   - circuit broken: no call, `BrokenCircuitException` wrapping `LastException`,
 *     no state change;
 *   - call completes: `Reset`;
 *   - call throws a handled exception: `TryBreak`, then the same exception is rethrown;
 *   - call throws an unhandled exception: rethrown, no state change.
 * Whether an exception is handled is decided by the policy's exception
 * predicates, which are outside the model; each call says it.
 * The test scenarios of both breakers are stated over this step.
 */
module Executor {
  import opened Platform
  import CB = CountBreaker
  import SR = SuccessRatioBreaker
  import Syntax = CircuitBreakerSyntax
  import SyntaxAsync = CircuitBreakerSyntaxAsync

  /** Either breaker, behind the common `ICircuitBreakerState` contract. */
  datatype Breaker =
    | CountThreshold(countSettings: CB.Settings, countState: CB.State)
    | SuccessRatio(ratioSettings: SR.Settings, ratioState: SR.State)

  ghost predicate Valid(b: Breaker)
  {
    match b
    case CountThreshold(c, _) => CB.ValidSettings(c)
    case SuccessRatio(c, s) => SR.ValidSettings(c) && SR.NonNegative(s)
  }

  predicate IsBroken(b: Breaker, now: Instant)
  {
    match b
    case CountThreshold(_, s) => CB.BrokenAt(s, now)
    case SuccessRatio(_, s) => SR.BrokenAt(s, now)
  }

  function LastException(b: Breaker): Exception
  {
    match b
    case CountThreshold(_, s) => s.lastException
    case SuccessRatio(_, s) => s.lastException
  }

  function Reset(b: Breaker, now: Instant): (r: Breaker)
    requires Valid(b)
    ensures Valid(r)
    ensures forall t: Instant :: !IsBroken(r, t)
    ensures LastException(r) == ShouldNeverBeThrown
  {
    match b
    case CountThreshold(c, s) => CountThreshold(c, CB.Cleared(s))
    case SuccessRatio(c, s) => SuccessRatio(c, SR.AfterSuccess(c, s, now))
  }

  function TryBreak(b: Breaker, ex: Exception, now: Instant): (r: Breaker)
    requires Valid(b)
    ensures Valid(r)
    ensures LastException(r) == ex
  {
    match b
    case CountThreshold(c, s) => CountThreshold(c, CB.AfterFault(c, s, ex, now))
    case SuccessRatio(c, s) => SuccessRatio(c, SR.AfterFault(c, s, ex, now))
  }

  /** What the guarded action would do if it were called. */
  datatype Outcome = Completes | Throws(ex: Exception, handled: bool)

  /** What the caller sees. */
  datatype Reply = Returned | Rethrown(ex: Exception) | BrokenCircuit(inner: Exception)

  datatype Step = Step(breaker: Breaker, reply: Reply)

  /** One guarded call at `now`. */
  function Execute(b: Breaker, outcome: Outcome, now: Instant): (r: Step)
    requires Valid(b)
    ensures Valid(r.breaker)
    ensures r.reply.BrokenCircuit? <==> IsBroken(b, now)
    ensures IsBroken(b, now) ==> r == Step(b, BrokenCircuit(LastException(b)))
    ensures r.reply.Returned? ==> outcome.Completes? && r.breaker == Reset(b, now)
    ensures r.reply.Rethrown? ==>
              && outcome.Throws? && r.reply.ex == outcome.ex
              && r.breaker == (if outcome.handled then TryBreak(b, outcome.ex, now) else b)
  {
    if IsBroken(b, now) then
      Step(b, BrokenCircuit(LastException(b)))
    else
      match outcome
      case Completes => Step(Reset(b, now), Returned)
      case Throws(ex, handled) =>
        if handled then Step(TryBreak(b, ex, now), Rethrown(ex)) else Step(b, Rethrown(ex))
  }

  datatype Call = Call(outcome: Outcome, at: Instant)

  datatype Trace = Trace(breaker: Breaker, replies: seq<Reply>)

  /**
   * A sequence of guarded calls, one after another. A caller only ever sees the
   * action's own result, the action's own exception, or a broken circuit.
   */
  function Run(b: Breaker, calls: seq<Call>): (r: Trace)
    requires Valid(b)
    ensures Valid(r.breaker)
    ensures |r.replies| == |calls|
    ensures forall i :: 0 <= i < |calls| ==>
              || r.replies[i].BrokenCircuit?
              || (r.replies[i] == Returned && calls[i].outcome == Completes)
              || (calls[i].outcome.Throws? && r.replies[i] == Rethrown(calls[i].outcome.ex))
    decreases |calls|
  {
    if calls == [] then
      Trace(b, [])
    else
      var step := Execute(b, calls[0].outcome, calls[0].at);
      var rest := Run(step.breaker, calls[1..]);
      Trace(rest.breaker, [step.reply] + rest.replies)
  }

  /** Running two sequences of calls is running their concatenation. */
  lemma {:induction false} RunAppend(b: Breaker, xs: seq<Call>, ys: seq<Call>)
    requires Valid(b)
    ensures Run(b, xs + ys).breaker == Run(Run(b, xs).breaker, ys).breaker
    ensures Run(b, xs + ys).replies == Run(b, xs).replies + Run(Run(b, xs).breaker, ys).replies
    decreases |xs|
  {
    if xs == [] {
      assert xs + ys == ys;
    } else {
      var step := Execute(b, xs[0].outcome, xs[0].at);
      assert (xs + ys)[0] == xs[0];
      assert (xs + ys)[1..] == xs[1..] + ys;
      RunAppend(step.breaker, xs[1..], ys);
    }
  }

  /**
   * Exceptions the policy does not handle pass through untouched and never
   * change the breaker, however many there are.
   */
  lemma {:induction false} UnhandledFaultsPassThrough(b: Breaker, calls: seq<Call>)
    requires Valid(b)
    requires forall i :: 0 <= i < |calls| ==> calls[i].outcome.Throws? && !calls[i].outcome.handled
    requires forall i :: 0 <= i < |calls| ==> !IsBroken(b, calls[i].at)
    ensures Run(b, calls).breaker == b
    ensures forall i :: 0 <= i < |calls| ==> Run(b, calls).replies[i] == Rethrown(calls[i].outcome.ex)
    decreases |calls|
  {
    if calls != [] {
      UnhandledFaultsPassThrough(b, calls[1..]);
      assert forall i :: 1 <= i < |calls| ==> calls[1..][i - 1] == calls[i];
    }
  }

  // ---------------------------------------------------------------- count-threshold scenarios

  /** Handled faults `exs`, all at `now`. */
  function HandledAt(exs: seq<Exception>, now: Instant): (calls: seq<Call>)
    ensures |calls| == |exs|
    ensures forall i :: 0 <= i < |exs| ==> calls[i] == Call(Throws(exs[i], true), now)
  {
    seq(|exs|, i requires 0 <= i < |exs| => Call(Throws(exs[i], true), now))
  }

  /** The replies that rethrow `exs`, in order. */
  function Rethrows(exs: seq<Exception>): (replies: seq<Reply>)
    ensures |replies| == |exs|
    ensures forall i :: 0 <= i < |exs| ==> replies[i] == Rethrown(exs[i])
  {
    seq(|exs|, i requires 0 <= i < |exs| => Rethrown(exs[i]))
  }

  /** Below the threshold, handled faults are rethrown and only counted. */
  lemma {:induction false} CountFaultsBelowThreshold(c: CB.Settings, s: CB.State, exs: seq<Exception>, now: Instant)
    requires CB.ValidSettings(c) && !CB.BrokenAt(s, now)
    requires 0 <= s.count && s.count + |exs| < c.exceptionsAllowedBeforeBreaking
    ensures Run(CountThreshold(c, s), HandledAt(exs, now))
              == Trace(CountThreshold(c, CB.Faults(c, s, exs, now)), Rethrows(exs))
    decreases |exs|
  {
    if exs != [] {
      var s' := CB.AfterFault(c, s, exs[0], now);
      assert HandledAt(exs, now)[1..] == HandledAt(exs[1..], now);
      CountFaultsBelowThreshold(c, s', exs[1..], now);
      assert Rethrows(exs) == [Rethrown(exs[0])] + Rethrows(exs[1..]);
    }
  }

  /**
   * A handled fault that breaks the circuit is rethrown, and the very next call
   * at the same instant fails fast with a broken circuit wrapping that fault.
   */
  lemma TripThenFailFast(b: Breaker, ex: Exception, next: Outcome, now: Instant)
    requires Valid(b) && !IsBroken(b, now) && IsBroken(TryBreak(b, ex, now), now)
    ensures Run(b, [Call(Throws(ex, true), now), Call(next, now)])
              == Trace(TryBreak(b, ex, now), [Rethrown(ex), BrokenCircuit(ex)])
  {
    var calls := [Call(Throws(ex, true), now), Call(next, now)];
    var b2 := TryBreak(b, ex, now);
    assert calls[1..] == [Call(next, now)];
    assert calls[1..][1..] == [];
    assert Run(b2, calls[1..]) == Trace(b2, [BrokenCircuit(ex)]);
  }

  /**
   * With threshold N, from a fresh or reset breaker and with the clock standing
   * still: the first N handled faults are all rethrown as they are, and the next
   * call fails fast with a broken circuit wrapping the N-th fault, without the
   * action being called. The breaker is then broken for the whole duration, its
   * count is N, and the callback has run once, with the N-th fault.
   */
  lemma CountOpensOnNthFault(c: CB.Settings, s: CB.State, exs: seq<Exception>, next: Outcome, now: Instant)
    requires CB.ValidSettings(c) && c.durationOfBreak > 0 && now < MaxTicks
    requires s == CB.Cleared(s)
    requires |exs| == c.exceptionsAllowedBeforeBreaking >= 1
    ensures
      var t := Run(CountThreshold(c, s), HandledAt(exs, now) + [Call(next, now)]);
      && t.replies == Rethrows(exs) + [BrokenCircuit(exs[|exs| - 1])]
      && t.breaker == CountThreshold(c, CB.State(|exs|, SaturatingAdd(now, c.durationOfBreak), exs[|exs| - 1],
                                                 s.notified + Invocations(c.onCircuitBroken, exs[|exs| - 1])))
  {
    var n := |exs| - 1;
    var first := exs[..n];
    var last := exs[n];
    assert exs == first + [last];
    assert HandledAt(exs, now) == HandledAt(first, now) + [Call(Throws(last, true), now)];
    CountFaultsBelowThreshold(c, s, first, now);
    CB.FaultsBelowThreshold(c, s, first, now);
    var b1 := CountThreshold(c, CB.Faults(c, s, first, now));
    var tail := [Call(Throws(last, true), now), Call(next, now)];
    assert HandledAt(exs, now) + [Call(next, now)] == HandledAt(first, now) + tail;
    RunAppend(CountThreshold(c, s), HandledAt(first, now), tail);
    var b2 := TryBreak(b1, last, now);
    assert IsBroken(b2, now);
    TripThenFailFast(b1, last, next, now);
    assert Rethrows(exs) == Rethrows(first) + [Rethrown(last)];
  }

  /** 1 January 2000, the instant the tests freeze the clock at. */
  const Jan2000: Instant := 630_822_816_000_000_000

  /** The test breaker: threshold 2, one minute, with the given callback. */
  function TwoFaultsOneMinute(callback: Callback): CB.Settings
  {
    CB.Settings(2, TicksPerMinute, callback)
  }

  /** The calls of the two-fault tests: two handled faults and one more call, all at `now`. */
  function TwoFaultsThen(f1: Exception, f2: Exception, next: Outcome, now: Instant): seq<Call>
  {
    [Call(Throws(f1, true), now), Call(Throws(f2, true), now), Call(next, now)]
  }

  /**
   * The count-threshold scenarios use the breaker the tests build with
   * `CircuitBreakerAsync(2, TimeSpan.FromMinutes(1))`, with or without a callback.
   */
  lemma TwoFaultsOneMinuteFromBuilder(id: nat)
    ensures SyntaxAsync.CircuitBreakerAsync(2, TicksPerMinute)
              == Syntax.Ok(Syntax.Policy(Syntax.CountState(TwoFaultsOneMinute(DoNothing)), Syntax.Asynchronous))
    ensures SyntaxAsync.CircuitBreakerAsyncWithCallback(2, TicksPerMinute, Handler(id))
              == Syntax.Ok(Syntax.Policy(Syntax.CountState(TwoFaultsOneMinute(Handler(id))), Syntax.Asynchronous))
  {
  }

  /**
   * Two handled faults open the circuit with the last of them (tests "open
   * circuit with the last raised exception"): the third call gets a broken
   * circuit wrapping the second fault, whichever exception types they were.
   * The callback runs once, on the second fault, and not again for the third.
   */
  lemma CountTwoFaultScenario(f1: Exception, f2: Exception, next: Outcome, id: nat)
    ensures
      var t := Run(CountThreshold(TwoFaultsOneMinute(Handler(id)), CB.Fresh()), TwoFaultsThen(f1, f2, next, Jan2000));
      && t.replies == [Rethrown(f1), Rethrown(f2), BrokenCircuit(f2)]
      && t.breaker.CountThreshold? && t.breaker.countState.notified == [f2]
  {
    CountOpensOnNthFault(TwoFaultsOneMinute(Handler(id)), CB.Fresh(), [f1, f2], next, Jan2000);
    assert HandledAt([f1, f2], Jan2000) + [Call(next, Jan2000)] == TwoFaultsThen(f1, f2, next, Jan2000);
  }

  /**
   * Two handled faults at `t0` open the test breaker (threshold 2, one minute,
   * do-nothing callback) until one minute later; the third call fails fast.
   */
  lemma CountTwoFaultsTrip(f1: Exception, f2: Exception, probe: Outcome, t0: Instant)
    requires t0 + TicksPerMinute <= MaxTicks
    ensures
      var c := TwoFaultsOneMinute(DoNothing);
      Run(CountThreshold(c, CB.Fresh()), TwoFaultsThen(f1, f2, probe, t0))
        == Trace(CountThreshold(c, CB.State(2, t0 + TicksPerMinute, f2, [f2])),
                 [Rethrown(f1), Rethrown(f2), BrokenCircuit(f2)])
  {
    var c := TwoFaultsOneMinute(DoNothing);
    CountOpensOnNthFault(c, CB.Fresh(), [f1, f2], probe, t0);
    assert HandledAt([f1, f2], t0) + [Call(probe, t0)] == TwoFaultsThen(f1, f2, probe, t0);
  }

  /**
   * A failed half-open trial: with the count still at the threshold, one handled
   * fault after the break re-opens the circuit at once, and the callback runs again.
   */
  lemma CountHalfOpenFailedTrial(f2: Exception, f3: Exception, probe: Outcome, t1: Instant)
    requires t1 + TicksPerMinute <= MaxTicks
    ensures
      var b := CountThreshold(TwoFaultsOneMinute(DoNothing), CB.State(2, t1, f2, [f2]));
      Run(b, [Call(Throws(f3, true), t1), Call(probe, t1)])
        == Trace(CountThreshold(TwoFaultsOneMinute(DoNothing), CB.State(3, t1 + TicksPerMinute, f3, [f2, f3])),
                 [Rethrown(f3), BrokenCircuit(f3)])
  {
    var c := TwoFaultsOneMinute(DoNothing);
    var b := CountThreshold(c, CB.State(2, t1, f2, [f2]));
    assert TryBreak(b, f3, t1) == CountThreshold(c, CB.State(3, t1 + TicksPerMinute, f3, [f2, f3]));
    TripThenFailFast(b, f3, probe, t1);
  }

  /**
   * A successful half-open trial: the success resets the count, so two new
   * handled faults are needed before the circuit opens again.
   */
  lemma CountHalfOpenSuccessfulTrial(f2: Exception, f4: Exception, f5: Exception, probe: Outcome, t1: Instant)
    requires t1 + TicksPerMinute <= MaxTicks
    ensures
      var b := CountThreshold(TwoFaultsOneMinute(DoNothing), CB.State(2, t1, f2, [f2]));
      Run(b, [Call(Completes, t1)] + TwoFaultsThen(f4, f5, probe, t1)).replies
        == [Returned, Rethrown(f4), Rethrown(f5), BrokenCircuit(f5)]
  {
    var c := TwoFaultsOneMinute(DoNothing);
    var b := CountThreshold(c, CB.State(2, t1, f2, [f2]));
    var reset := Reset(b, t1);
    CountOpensOnNthFault(c, reset.countState, [f4, f5], probe, t1);
    assert HandledAt([f4, f5], t1) + [Call(probe, t1)] == TwoFaultsThen(f4, f5, probe, t1);
    var calls := [Call(Completes, t1)] + TwoFaultsThen(f4, f5, probe, t1);
    assert calls[1..] == TwoFaultsThen(f4, f5, probe, t1);
  }

  /**
   * Half-open trial, count breaker (threshold 2, one minute, clock frozen at T):
   * once the minute is over the circuit lets a call through; if that call throws
   * a handled fault the circuit opens again at once, and if it succeeds two new
   * faults are needed before it opens.
   */
  lemma CountHalfOpenScenario(f1: Exception, f2: Exception, f3: Exception, f4: Exception, f5: Exception,
                              probe: Outcome, t0: Instant)
    requires t0 + 2 * TicksPerMinute <= MaxTicks
    ensures
      var c := TwoFaultsOneMinute(DoNothing);
      var t1 := t0 + TicksPerMinute;
      var tripped := Run(CountThreshold(c, CB.Fresh()), TwoFaultsThen(f1, f2, probe, t0));
      && tripped.replies == [Rethrown(f1), Rethrown(f2), BrokenCircuit(f2)]
      && !IsBroken(tripped.breaker, t1)
      && Run(tripped.breaker, [Call(Throws(f3, true), t1), Call(probe, t1)]).replies
           == [Rethrown(f3), BrokenCircuit(f3)]
      && Run(tripped.breaker, [Call(Completes, t1)] + TwoFaultsThen(f4, f5, probe, t1)).replies
           == [Returned, Rethrown(f4), Rethrown(f5), BrokenCircuit(f5)]
  {
    var t1 := t0 + TicksPerMinute;
    CountTwoFaultsTrip(f1, f2, probe, t0);
    CountHalfOpenFailedTrial(f2, f3, probe, t1);
    CountHalfOpenSuccessfulTrial(f2, f4, f5, probe, t1);
  }

  /**
   * `TimeSpan.MaxValue` as the break duration (threshold 1): the fault is rethrown
   * as it is, and the circuit then stays broken up to `DateTime.MaxValue`.
   */
  lemma CountMaxDurationScenario(f: Exception, now: Instant)
    ensures
      var t := Run(CountThreshold(CB.Settings(1, TimeSpanMaxTicks, DoNothing), CB.Fresh()),
                   [Call(Throws(f, true), now)]);
      && t.replies == [Rethrown(f)]
      && t.breaker.CountThreshold? && t.breaker.countState.blockedTill == MaxTicks
      && forall later: Instant :: later < MaxTicks ==> IsBroken(t.breaker, later)
  {
  }

  // ---------------------------------------------------------------- success-ratio scenarios

  /** The test breaker: the given minimum, one minute, 30-second half-life. */
  function RatioOneMinute(minSuccessRatio: real, decay: int -> real): SR.Settings
  {
    SR.Settings(minSuccessRatio, TicksPerMinute, 30 * TicksPerSecond, decay)
  }

  /**
   * The success-ratio scenarios use the breaker the tests build with
   * `CircuitBreaker(minSuccessRatio, TimeSpan.FromMinutes(1), TimeSpan.FromSeconds(30))`.
   */
  lemma RatioOneMinuteFromBuilder(minSuccessRatio: real, decay: int -> real)
    requires minSuccessRatio >= 0.0
    ensures
      var c := RatioOneMinute(minSuccessRatio, decay);
      Syntax.SuccessRatioCircuitBreaker(minSuccessRatio, TicksPerMinute, 30 * TicksPerSecond)
        == Syntax.Ok(Syntax.Policy(Syntax.SuccessRatioState(c.minSuccessRatio, c.durationOfBreak, c.halfLife),
                                   Syntax.Synchronous))
  {
  }

  /**
   * Minimum 45%, clock frozen: after one success, the first handled fault gives a
   * ratio of 50% and is rethrown; the second gives 33.3% and opens the circuit;
   * the third call fails fast wrapping the second fault.
   */
  lemma RatioOpensBelowMinimumScenario(decay: int -> real, f1: Exception, f2: Exception, next: Outcome, now: Instant)
    requires SR.DecayCurve(decay, 30 * TicksPerSecond)
    requires now < MaxTicks
    ensures
      var c := RatioOneMinute(45.0, decay);
      var t := Run(SuccessRatio(c, SR.Fresh()),
                   [Call(Completes, now), Call(Throws(f1, true), now), Call(Throws(f2, true), now), Call(next, now)]);
      var s1 := SR.AfterSuccess(c, SR.Fresh(), now);
      && SR.RatioOnFault(c, s1, now) == 50.0
      && SR.RatioOnFault(c, SR.AfterFault(c, s1, f1, now), now) == 100.0 / 3.0
      && t.replies == [Returned, Rethrown(f1), Rethrown(f2), BrokenCircuit(f2)]
  {
    var c := RatioOneMinute(45.0, decay);
    var s0 := SR.Fresh();
    var s1 := SR.AfterSuccess(c, s0, now);
    assert s1.successCount == 1.0 && s1.lastSuccessUpdate == now;
    assert SR.RatioOnFault(c, s1, now) == 50.0;
    var s2 := SR.AfterFault(c, s1, f1, now);
    assert s2.successCount == 1.0 && s2.failCount == 1.0 && s2.lastFailUpdate == now;
    SR.FrozenClockRatio(c, s2, now);
    assert SR.RatioOnFault(c, s2, now) == 100.0 / 3.0;
    var s3 := SR.AfterFault(c, s2, f2, now);
    assert SR.BrokenAt(s3, now);
    var calls := [Call(Completes, now), Call(Throws(f1, true), now), Call(Throws(f2, true), now), Call(next, now)];
    assert calls[1..] == [Call(Throws(f1, true), now), Call(Throws(f2, true), now), Call(next, now)];
    assert calls[2..] == [Call(Throws(f2, true), now), Call(next, now)];
    assert Run(SuccessRatio(c, s3), calls[3..]).replies == [BrokenCircuit(f2)];
    assert Run(SuccessRatio(c, s2), calls[2..]).replies == [Rethrown(f2), BrokenCircuit(f2)];
    assert Run(SuccessRatio(c, s1), calls[1..]).replies == [Rethrown(f1), Rethrown(f2), BrokenCircuit(f2)];
  }

  /**
   * Minimum 45%, one minute, clock frozen at T: with no success recorded the
   * first handled fault opens the circuit; once the minute is over a successful
   * trial call closes it, and then it again takes two faults to open it.
   */
  lemma RatioHalfOpenSuccessScenario(decay: int -> real, f1: Exception, f2: Exception, f3: Exception,
                                     probe: Outcome, t0: Instant)
    requires SR.DecayCurve(decay, 30 * TicksPerSecond)
    requires t0 + 2 * TicksPerMinute <= MaxTicks
    ensures
      var c := RatioOneMinute(45.0, decay);
      var t1 := t0 + TicksPerMinute;
      var tripped := Run(SuccessRatio(c, SR.Fresh()), [Call(Throws(f1, true), t0), Call(probe, t0)]);
      && tripped.replies == [Rethrown(f1), BrokenCircuit(f1)]
      && !IsBroken(tripped.breaker, t1)
      && Run(tripped.breaker, [Call(Completes, t1), Call(Throws(f2, true), t1), Call(Throws(f3, true), t1),
                              Call(probe, t1)]).replies
           == [Returned, Rethrown(f2), Rethrown(f3), BrokenCircuit(f3)]
  {
    var c := RatioOneMinute(45.0, decay);
    var t1 := t0 + TicksPerMinute;
    var s0 := SR.Fresh();
    SR.NoSuccessMassTrips(c, s0, t0);
    var s1 := SR.AfterFault(c, s0, f1, t0);
    assert SR.BrokenAt(s1, t0) && s1.blockedTill == t1;
    var calls := [Call(Throws(f1, true), t0), Call(probe, t0)];
    assert calls[1..] == [Call(probe, t0)];
    assert Run(SuccessRatio(c, s1), calls[1..]).replies == [BrokenCircuit(f1)];
    var tripped := Run(SuccessRatio(c, s0), calls);
    assert tripped.breaker == SuccessRatio(c, s1);
    // after the break both counters are zero, so the trial success leaves exactly one success
    var s2 := SR.AfterSuccess(c, s1, t1);
    assert s2.successCount == 1.0 && s2.lastSuccessUpdate == t1;
    assert s2.failCount == 0.0;
    var s3 := SR.AfterFault(c, s2, f2, t1);
    assert SR.RatioOnFault(c, s2, t1) == 50.0;
    assert s3.successCount == 1.0 && s3.failCount == 1.0 && s3.lastFailUpdate == t1;
    SR.FrozenClockRatio(c, s3, t1);
    var s4 := SR.AfterFault(c, s3, f3, t1);
    assert SR.BrokenAt(s4, t1);
    var more := [Call(Completes, t1), Call(Throws(f2, true), t1), Call(Throws(f3, true), t1), Call(probe, t1)];
    assert more[1..] == [Call(Throws(f2, true), t1), Call(Throws(f3, true), t1), Call(probe, t1)];
    assert more[2..] == [Call(Throws(f3, true), t1), Call(probe, t1)];
    assert Run(SuccessRatio(c, s4), more[3..]).replies == [BrokenCircuit(f3)];
    assert Run(SuccessRatio(c, s3), more[2..]).replies == [Rethrown(f3), BrokenCircuit(f3)];
    assert Run(SuccessRatio(c, s2), more[1..]).replies == [Rethrown(f2), Rethrown(f3), BrokenCircuit(f3)];
  }

  /**
   * Minimum 50%, one minute: the first handled fault opens the circuit; once the
   * minute is over the circuit lets a call through, and if that call throws a
   * handled fault the circuit opens again at once.
   */
  lemma RatioHalfOpenFaultScenario(decay: int -> real, f1: Exception, f2: Exception, probe: Outcome, t0: Instant)
    requires SR.DecayCurve(decay, 30 * TicksPerSecond)
    requires t0 + 2 * TicksPerMinute <= MaxTicks
    ensures
      var c := RatioOneMinute(50.0, decay);
      var t1 := t0 + TicksPerMinute;
      var tripped := Run(SuccessRatio(c, SR.Fresh()), [Call(Throws(f1, true), t0), Call(probe, t0)]);
      && tripped.replies == [Rethrown(f1), BrokenCircuit(f1)]
      && !IsBroken(tripped.breaker, t1)
      && Run(tripped.breaker, [Call(Throws(f2, true), t1), Call(probe, t1)]).replies
           == [Rethrown(f2), BrokenCircuit(f2)]
  {
    var c := RatioOneMinute(50.0, decay);
    var t1 := t0 + TicksPerMinute;
    var s0 := SR.Fresh();
    SR.NoSuccessMassTrips(c, s0, t0);
    var s1 := SR.AfterFault(c, s0, f1, t0);
    var calls := [Call(Throws(f1, true), t0), Call(probe, t0)];
    assert calls[1..] == [Call(probe, t0)];
    assert Run(SuccessRatio(c, s1), calls[1..]).replies == [BrokenCircuit(f1)];
    SR.HalfOpenTrialFaultReopens(c, s0, f1, f2, t0, t1);
    var s2 := SR.AfterFault(c, s1, f2, t1);
    assert SR.BrokenAt(s2, t1);
    var more := [Call(Throws(f2, true), t1), Call(probe, t1)];
    assert more[1..] == [Call(probe, t1)];
    assert Run(SuccessRatio(c, s2), more[1..]).replies == [BrokenCircuit(f2)];
  }

  /**
   * Minimum 100% with `TimeSpan.MaxValue` as the break duration: the first handled
   * fault is rethrown as it is and opens the circuit up to `DateTime.MaxValue`.
   */
  lemma RatioMaxDurationScenario(decay: int -> real, f: Exception, now: Instant)
    requires SR.DecayCurve(decay, 30 * TicksPerSecond)
    ensures
      var c := SR.Settings(100.0, TimeSpanMaxTicks, 30 * TicksPerSecond, decay);
      var t := Run(SuccessRatio(c, SR.Fresh()), [Call(Throws(f, true), now)]);
      && t.replies == [Rethrown(f)]
      && t.breaker.SuccessRatio? && t.breaker.ratioState.blockedTill == MaxTicks
  {
    var c := SR.Settings(100.0, TimeSpanMaxTicks, 30 * TicksPerSecond, decay);
    SR.FullRatioAlwaysTrips(c, SR.Fresh(), now);
  }
}
