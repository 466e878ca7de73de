/**
 * The success-ratio circuit breaker (`SuccessRatioCircuitBreakerState`): success
 * and failure counters that decay exponentially with a configured half-life, and
 * a circuit that breaks when the decayed success share drops below a minimum.
 *
 * The counters are `double`s in the source and `real`s here. The exponential
 * factor `Math.Exp(elapsedTicks * _decayFactor)`, with
 * `_decayFactor = ln 0.5 / halfLifeTicks`, is not computed: each breaker carries
 * it as a function from elapsed ticks to a multiplier, constrained by the laws
 * the exact exponential satisfies (`DecayCurve`).
 */
module SuccessRatioBreaker {
  import opened Platform

  /** Counters at or below this are left exactly as they are by `Decay`. */
  const Epsilon: real := 0.00001

  /**
   * Laws of `elapsed => exp(elapsed * ln 0.5 / halfLife)` in exact arithmetic:
   * the multiplier is always positive, no elapsed time leaves a counter as it is,
   * elapsed time never makes it grow, and one half-life halves it. (A clock that
   * went backwards gives a negative elapsed time and a multiplier above 1.)
   */
  ghost predicate DecayCurve(decay: int -> real, halfLife: int)
  {
    && decay(0) == 1.0
    && (forall dt: int :: 0.0 < decay(dt))
    && (forall dt: int :: dt >= 0 ==> decay(dt) <= 1.0)
    && decay(halfLife) == 0.5
  }

  /**
   * `Decay(counter, lastUpdate)` with `elapsed = now - lastUpdate`: counters above
   * `Epsilon` are scaled by the decay multiplier, smaller ones are returned as they
   * are (not zeroed).
   */
  function Decay(decay: int -> real, halfLife: int, counter: real, elapsed: int): (r: real)
    requires DecayCurve(decay, halfLife)
    ensures counter <= Epsilon || elapsed == 0 ==> r == counter
    ensures counter > Epsilon && elapsed >= 0 ==> 0.0 < r <= counter
    ensures counter >= 0.0 ==> 0.0 <= r
    ensures counter >= 0.0 && elapsed >= 0 ==> r <= counter
    ensures counter > Epsilon && elapsed == halfLife ==> r == counter / 2.0
  {
    if counter > Epsilon then counter * decay(elapsed) else counter
  }

  /** `(success / (success + fail)) * 100`, defined because `fail` is at least 1. */
  function SuccessRatio(success: real, fail: real): (ratio: real)
    requires success >= 0.0 && fail >= 1.0
    ensures 0.0 <= ratio < 100.0
    ensures ratio == 0.0 <==> success == 0.0
  {
    assert success < success + fail;
    (success / (success + fail)) * 100.0
  }

  /** The readonly configuration. `decay` stands for `Math.Exp(ticks * _decayFactor)`. */
  datatype Settings = Settings(
    minSuccessRatio: real,
    durationOfBreak: Duration,
    halfLife: Duration,
    decay: int -> real)

  /**
   * Neither the break duration nor the half-life is validated by the source; a
   * zero half-life would make `_decayFactor` infinite. The model excludes both.
   */
  ghost predicate ValidSettings(c: Settings)
  {
    c.durationOfBreak >= 0 && c.halfLife > 0 && DecayCurve(c.decay, c.halfLife)
  }

  /** The mutable fields. */
  datatype State = State(
    successCount: real,
    failCount: real,
    lastSuccessUpdate: Instant,
    lastFailUpdate: Instant,
    blockedTill: Instant,
    lastException: Exception)

  /** The counters are never negative. */
  predicate NonNegative(s: State)
  {
    s.successCount >= 0.0 && s.failCount >= 0.0
  }

  /** `IsBroken` read at `now`. */
  predicate BrokenAt(s: State, now: Instant)
  {
    Blocked(now, s.blockedTill)
  }

  /**
   * A freshly constructed breaker: counters and update instants at their .NET
   * defaults (0 and `DateTime.MinValue`), then `Initialize`.
   */
  function Fresh(): (r: State)
    ensures NonNegative(r)
    ensures r.successCount == 0.0 && r.failCount == 0.0
    ensures r.lastException == ShouldNeverBeThrown
    ensures forall now: Instant :: !BrokenAt(r, now)
  {
    Initialized(State(0.0, 0.0, MinTicks, MinTicks, MinTicks, ShouldNeverBeThrown))
  }

  /** Effect of `Initialize`: not blocked, placeholder exception, counters untouched. */
  function Initialized(s: State): (r: State)
    ensures r.lastException == ShouldNeverBeThrown
    ensures forall now: Instant :: !BrokenAt(r, now)
    ensures r.successCount == s.successCount && r.failCount == s.failCount
    ensures r.lastSuccessUpdate == s.lastSuccessUpdate && r.lastFailUpdate == s.lastFailUpdate
  {
    s.(blockedTill := MinTicks, lastException := ShouldNeverBeThrown)
  }

  /**
   * Effect of `Reset` (a successful call) at `now`: the success counter is decayed
   * up to `now` and incremented, the circuit is closed, and the failure counter is
   * left alone.
   */
  function AfterSuccess(c: Settings, s: State, now: Instant): (r: State)
    requires ValidSettings(c) && NonNegative(s)
    ensures NonNegative(r)
    ensures r.successCount == Decay(c.decay, c.halfLife, s.successCount, now - s.lastSuccessUpdate) + 1.0
    ensures now >= s.lastSuccessUpdate ==> 1.0 <= r.successCount <= s.successCount + 1.0
    ensures r.lastSuccessUpdate == now
    ensures r.failCount == s.failCount && r.lastFailUpdate == s.lastFailUpdate
    ensures r.lastException == ShouldNeverBeThrown
    ensures forall t: Instant :: !BrokenAt(r, t)
  {
    var success := Decay(c.decay, c.halfLife, s.successCount, now - s.lastSuccessUpdate) + 1.0;
    Initialized(s.(successCount := success, lastSuccessUpdate := now))
  }

  /** The failure counter `TryBreak` stores: decayed up to `now`, plus this fault. */
  function FailMass(c: Settings, s: State, now: Instant): (f: real)
    requires ValidSettings(c) && NonNegative(s)
    ensures f >= 1.0
    ensures now >= s.lastFailUpdate ==> f <= s.failCount + 1.0
  {
    Decay(c.decay, c.halfLife, s.failCount, now - s.lastFailUpdate) + 1.0
  }

  /** The success counter as `TryBreak` sees it: decayed into a local only. */
  function SuccessMass(c: Settings, s: State, now: Instant): (m: real)
    requires ValidSettings(c) && NonNegative(s)
    ensures 0.0 <= m
    ensures now >= s.lastSuccessUpdate ==> m <= s.successCount
  {
    Decay(c.decay, c.halfLife, s.successCount, now - s.lastSuccessUpdate)
  }

  /** The success ratio, in percent, that a handled fault at `now` is judged by. */
  function RatioOnFault(c: Settings, s: State, now: Instant): (ratio: real)
    requires ValidSettings(c) && NonNegative(s)
    ensures 0.0 <= ratio < 100.0
  {
    SuccessRatio(SuccessMass(c, s, now), FailMass(c, s, now))
  }

  /** Whether a handled fault at `now` breaks the circuit. */
  predicate Trips(c: Settings, s: State, now: Instant)
    requires ValidSettings(c) && NonNegative(s)
  {
    RatioOnFault(c, s, now) < c.minSuccessRatio
  }

  /**
   * Effect of `TryBreak(ex)` at `now`. The fault is always recorded; if the ratio
   * falls below the minimum the circuit breaks until the saturating
   * `now + duration` and both counters restart from zero at `now`. Otherwise the
   * success counter and its instant are not written (the decayed success value
   * lived only in a local).
   */
  function AfterFault(c: Settings, s: State, ex: Exception, now: Instant): (r: State)
    requires ValidSettings(c) && NonNegative(s)
    ensures NonNegative(r)
    ensures r.lastException == ex
    ensures Trips(c, s, now) ==>
              && r.successCount == 0.0 && r.failCount == 0.0
              && r.lastSuccessUpdate == now && r.lastFailUpdate == now
              && r.blockedTill == Min(now + c.durationOfBreak, MaxTicks)
    ensures !Trips(c, s, now) ==>
              && r.failCount == FailMass(c, s, now) && r.lastFailUpdate == now
              && r.successCount == s.successCount && r.lastSuccessUpdate == s.lastSuccessUpdate
              && r.blockedTill == s.blockedTill
    ensures Trips(c, s, now) ==>
              (BrokenAt(r, now) <==> c.durationOfBreak > 0 && now < MaxTicks)
  {
    var recorded := s.(lastException := ex, failCount := FailMass(c, s, now), lastFailUpdate := now);
    if Trips(c, s, now) then BrokenTheCircuit(c, recorded, now) else recorded
  }

  /** Effect of `BreakTheCircuit` at `now`; the last exception is kept. */
  function BrokenTheCircuit(c: Settings, s: State, now: Instant): (r: State)
    requires ValidSettings(c)
    ensures NonNegative(r)
    ensures r.successCount == 0.0 && r.failCount == 0.0
    ensures r.lastSuccessUpdate == now && r.lastFailUpdate == now
    ensures r.blockedTill == Min(now + c.durationOfBreak, MaxTicks)
    ensures r.lastException == s.lastException
  {
    State(0.0, 0.0, now, now, SaturatingAdd(now, c.durationOfBreak), s.lastException)
  }

  /** The imperative breaker object. Locking is not modelled: each method is atomic. */
  class SuccessRatioCircuitBreakerState {
    const durationOfBreak: Duration
    const minSuccessRatio: real
    const halfLife: Duration
    /** Stands for `ticks => Math.Exp(ticks * _decayFactor)`. */
    const decay: int -> real

    var successCount: real
    var failCount: real
    var lastSuccessUpdate: Instant
    var lastFailUpdate: Instant
    var blockedTill: Instant
    var lastException: Exception

    function Config(): Settings
    {
      Settings(minSuccessRatio, durationOfBreak, halfLife, decay)
    }

    ghost function Current(): State
      reads this
    {
      State(successCount, failCount, lastSuccessUpdate, lastFailUpdate, blockedTill, lastException)
    }

    ghost predicate Valid()
      reads this
    {
      ValidSettings(Config()) && NonNegative(Current())
    }

    constructor (minSuccessRatio: real, durationOfBreak: Duration, halfLife: Duration, decay: int -> real)
      requires durationOfBreak >= 0 && halfLife > 0 && DecayCurve(decay, halfLife)
      ensures Valid()
      ensures Config() == Settings(minSuccessRatio, durationOfBreak, halfLife, decay)
      ensures Current() == Fresh()
    {
      this.durationOfBreak := durationOfBreak;
      this.minSuccessRatio := minSuccessRatio;
      this.halfLife := halfLife;
      this.decay := decay;
      successCount, failCount := 0.0, 0.0;
      lastSuccessUpdate, lastFailUpdate := MinTicks, MinTicks;
      blockedTill, lastException := MinTicks, ShouldNeverBeThrown;
      new;
      Initialize();
    }

    /** The `LastException` getter. */
    method LastException() returns (ex: Exception)
      ensures ex == Current().lastException
    {
      ex := lastException;
    }

    /** The `IsBroken` getter, with the clock read passed in as `now`. */
    method IsBroken(now: Instant) returns (broken: bool)
      ensures broken <==> BrokenAt(Current(), now)
    {
      broken := now < blockedTill;
    }

    method Reset(now: Instant)
      requires Valid()
      modifies this
      ensures Valid()
      ensures Current() == AfterSuccess(Config(), old(Current()), now)
    {
      successCount := Decay(decay, halfLife, successCount, now - lastSuccessUpdate);
      successCount := successCount + 1.0;
      lastSuccessUpdate := now;
      Initialize();
    }

    method TryBreak(ex: Exception, now: Instant)
      requires Valid()
      modifies this
      ensures Valid()
      ensures Current() == AfterFault(Config(), old(Current()), ex, now)
    {
      ghost var s := Current();
      lastException := ex;
      failCount := Decay(decay, halfLife, failCount, now - lastFailUpdate);
      failCount := failCount + 1.0;
      lastFailUpdate := now;

      var successDecay := Decay(decay, halfLife, successCount, now - lastSuccessUpdate);
      var currentSuccessRatio := SuccessRatio(successDecay, failCount);
      assert currentSuccessRatio == RatioOnFault(Config(), s, now);
      if currentSuccessRatio < minSuccessRatio {
        BreakTheCircuit(now);
      }
    }

    method BreakTheCircuit(now: Instant)
      requires ValidSettings(Config())
      modifies this
      ensures Current() == BrokenTheCircuit(Config(), old(Current()), now)
    {
      var currentUtc := now;
      var willDurationTakeUsPastMaxValue := durationOfBreak > MaxTicks - currentUtc;
      blockedTill := if willDurationTakeUsPastMaxValue then MaxTicks else currentUtc + durationOfBreak;
      successCount := 0.0;
      failCount := 0.0;
      lastSuccessUpdate := currentUtc;
      lastFailUpdate := currentUtc;
    }

    method Initialize()
      modifies this
      ensures Current() == Initialized(old(Current()))
    {
      blockedTill := MinTicks;
      lastException := ShouldNeverBeThrown;
    }
  }

  // ---------------------------------------------------------------- break condition

  /** A minimum of 100 or more is never met: every handled fault breaks the circuit. */
  lemma FullRatioAlwaysTrips(c: Settings, s: State, now: Instant)
    requires ValidSettings(c) && NonNegative(s) && c.minSuccessRatio >= 100.0
    ensures Trips(c, s, now)
  {
  }

  /** A minimum of 0 is always met: no handled fault breaks the circuit. */
  lemma ZeroRatioNeverTrips(c: Settings, s: State, now: Instant)
    requires ValidSettings(c) && NonNegative(s) && c.minSuccessRatio <= 0.0
    ensures !Trips(c, s, now)
  {
  }

  /**
   * With no success mass at all the ratio is 0, so any positive minimum breaks the
   * circuit on the first handled fault; in particular right after construction and
   * right after a break.
   */
  lemma NoSuccessMassTrips(c: Settings, s: State, now: Instant)
    requires ValidSettings(c) && NonNegative(s) && s.successCount == 0.0 && c.minSuccessRatio > 0.0
    ensures RatioOnFault(c, s, now) == 0.0
    ensures Trips(c, s, now)
  {
  }

  /**
   * With the clock standing still, the ratio is exactly the share of successes in
   * the stored counters: decay plays no part.
   */
  lemma {:induction false} FrozenClockRatio(c: Settings, s: State, now: Instant)
    requires ValidSettings(c) && NonNegative(s)
    requires s.lastSuccessUpdate == now && s.lastFailUpdate == now
    ensures RatioOnFault(c, s, now) == s.successCount / (s.successCount + s.failCount + 1.0) * 100.0
  {
    assert SuccessMass(c, s, now) == s.successCount;
    assert FailMass(c, s, now) == s.failCount + 1.0;
  }

  /**
   * A half-open trial that fails re-opens the circuit whenever the minimum is
   * positive: the last break zeroed the success counter, and nothing but a
   * success can raise it again.
   */
  lemma HalfOpenTrialFaultReopens(c: Settings, s: State, ex0: Exception, ex: Exception, t0: Instant, now: Instant)
    requires ValidSettings(c) && NonNegative(s) && c.minSuccessRatio > 0.0
    requires Trips(c, s, t0)
    ensures Trips(c, AfterFault(c, s, ex0, t0), now)
    ensures AfterFault(c, AfterFault(c, s, ex0, t0), ex, now).blockedTill
              == SaturatingAdd(now, c.durationOfBreak)
  {
    NoSuccessMassTrips(c, AfterFault(c, s, ex0, t0), now);
  }
}
