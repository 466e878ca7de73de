/**
 * The count-threshold circuit breaker (`CircuitBreakerState`): a failure counter,
 * the instant the circuit stays broken until, and the last exception handled.
 *
 * The first half is the value model the class is specified by (what each
 * operation makes of the fields); the class follows, then the lemmas about the
 * breaker's life cycle.
 */
module CountBreaker {
  import opened Platform

  /** The readonly configuration: threshold, break duration and callback. */
  datatype Settings = Settings(
    exceptionsAllowedBeforeBreaking: Int32,
    durationOfBreak: Duration,
    onCircuitBroken: Callback)

  /**
   * The break duration is not validated by the source; a negative one could make
   * `now + durationOfBreak` fall below `DateTime.MinValue`. The model excludes it.
   */
  predicate ValidSettings(c: Settings)
  {
    c.durationOfBreak >= 0
  }

  /**
   * The mutable fields `_count`, `_blockedTill` and `_lastException`, plus the
   * exceptions `onCircuitBroken` has been called with so far.
   */
  datatype State = State(
    count: Int32,
    blockedTill: Instant,
    lastException: Exception,
    notified: seq<Exception>)

  /** `IsBroken` read at `now`. */
  predicate BrokenAt(s: State, now: Instant)
  {
    Blocked(now, s.blockedTill)
  }

  /** Effect of `Reset`: a closed circuit with nothing counted. */
  function Cleared(s: State): (r: State)
    ensures r.count == 0 && r.lastException == ShouldNeverBeThrown
    ensures forall now: Instant :: !BrokenAt(r, now)
    ensures r.notified == s.notified
  {
    State(0, MinTicks, ShouldNeverBeThrown, s.notified)
  }

  /** A freshly constructed breaker: default fields, then `Reset` (constructor). */
  function Fresh(): (r: State)
    ensures r.count == 0 && r.blockedTill == MinTicks
    ensures r.lastException == ShouldNeverBeThrown && r.notified == []
    ensures forall now: Instant :: !BrokenAt(r, now)
  {
    Cleared(State(0, MinTicks, ShouldNeverBeThrown, []))
  }

  /** Whether a handled fault recorded in `s` makes the count reach the threshold. */
  predicate Trips(c: Settings, s: State)
  {
    Increment(s.count) >= c.exceptionsAllowedBeforeBreaking
  }

  /**
   * Effect of `TryBreak(ex)` at `now`: record `ex`, count it, and when the count
   * reaches the threshold break the circuit until the saturating `now + duration`
   * and invoke the callback (if any) with `ex`. Breaking does not reset the count.
   */
  function AfterFault(c: Settings, s: State, ex: Exception, now: Instant): (r: State)
    requires ValidSettings(c)
    ensures r.lastException == ex
    ensures r.count == Increment(s.count)
    ensures !Trips(c, s) ==> r.blockedTill == s.blockedTill && r.notified == s.notified
    ensures Trips(c, s) ==>
              && r.blockedTill == Min(now + c.durationOfBreak, MaxTicks)
              && r.notified == s.notified + Invocations(c.onCircuitBroken, ex)
    ensures Trips(c, s) ==>
              (BrokenAt(r, now) <==> c.durationOfBreak > 0 && now < MaxTicks)
  {
    var count := Increment(s.count);
    if count >= c.exceptionsAllowedBeforeBreaking then
      State(count, SaturatingAdd(now, c.durationOfBreak), ex,
            s.notified + Invocations(c.onCircuitBroken, ex))
    else
      State(count, s.blockedTill, ex, s.notified)
  }

  /** The imperative breaker object. Locking is not modelled: each method is atomic. */
  class CircuitBreakerState {
    const durationOfBreak: Duration
    const exceptionsAllowedBeforeBreaking: Int32
    const onCircuitBroken: Callback

    var count: Int32
    var blockedTill: Instant
    var lastException: Exception
    /** Arguments of every `onCircuitBroken` invocation so far, oldest first. */
    ghost var notified: seq<Exception>

    function Config(): Settings
    {
      Settings(exceptionsAllowedBeforeBreaking, durationOfBreak, onCircuitBroken)
    }

    ghost function Current(): State
      reads this
    {
      State(count, blockedTill, lastException, notified)
    }

    ghost predicate Valid()
    {
      ValidSettings(Config())
    }

    constructor (exceptionsAllowedBeforeBreaking: Int32, durationOfBreak: Duration, onCircuitBroken: Callback)
      requires durationOfBreak >= 0
      ensures Valid()
      ensures Config() == Settings(exceptionsAllowedBeforeBreaking, durationOfBreak, onCircuitBroken)
      ensures Current() == Fresh()
    {
      this.durationOfBreak := durationOfBreak;
      this.exceptionsAllowedBeforeBreaking := exceptionsAllowedBeforeBreaking;
      this.onCircuitBroken := onCircuitBroken;
      count, blockedTill, lastException := 0, MinTicks, ShouldNeverBeThrown;
      notified := [];
      new;
      Reset();
    }

    /** The `LastException` getter. */
    method LastException() returns (ex: Exception)
      ensures ex == Current().lastException
    {
      ex := lastException;
    }

    /** The `IsBroken` getter, with the clock read passed in as `now`. */
    method IsBroken(now: Instant) returns (broken: bool)
      ensures broken <==> BrokenAt(Current(), now)
    {
      broken := now < blockedTill;
    }

    method Reset()
      modifies this
      ensures Current() == Cleared(old(Current()))
    {
      count := 0;
      blockedTill := MinTicks;
      lastException := ShouldNeverBeThrown;
    }

    method TryBreak(ex: Exception, now: Instant)
      requires Valid()
      modifies this
      ensures Current() == AfterFault(Config(), old(Current()), ex, now)
    {
      lastException := ex;
      count := Increment(count);
      if count >= exceptionsAllowedBeforeBreaking {
        BreakTheCircuit(now);
        if onCircuitBroken != NullCallback {
          notified := notified + [ex];
        }
      }
    }

    /** Both reads of the clock in the source see the same `now`. */
    method BreakTheCircuit(now: Instant)
      requires Valid()
      modifies this`blockedTill
      ensures blockedTill == SaturatingAdd(now, durationOfBreak)
    {
      var willDurationTakeUsPastMaxValue := durationOfBreak > MaxTicks - now;
      blockedTill := if willDurationTakeUsPastMaxValue then MaxTicks else now + durationOfBreak;
    }
  }

  // ---------------------------------------------------------------- life cycle

  /** `count` handled faults recorded at `now`, one after another. */
  function Faults(c: Settings, s: State, exs: seq<Exception>, now: Instant): State
    requires ValidSettings(c)
    decreases |exs|
  {
    if exs == [] then s else Faults(c, AfterFault(c, s, exs[0], now), exs[1..], now)
  }

  /**
   * Below the threshold, faults only count: the circuit stays where it was, the
   * callback is not called, and the count goes up by exactly the number of faults.
   */
  lemma {:induction false} FaultsBelowThreshold(c: Settings, s: State, exs: seq<Exception>, now: Instant)
    requires ValidSettings(c)
    requires 0 <= s.count && s.count + |exs| < c.exceptionsAllowedBeforeBreaking
    ensures Faults(c, s, exs, now).count == s.count + |exs|
    ensures Faults(c, s, exs, now).blockedTill == s.blockedTill
    ensures Faults(c, s, exs, now).notified == s.notified
    ensures exs != [] ==> Faults(c, s, exs, now).lastException == exs[|exs| - 1]
    decreases |exs|
  {
    if exs != [] {
      var s' := AfterFault(c, s, exs[0], now);
      FaultsBelowThreshold(c, s', exs[1..], now);
      if |exs| > 1 {
        assert exs[1..][|exs[1..]| - 1] == exs[|exs| - 1];
      }
    }
  }

  /**
   * From a reset breaker it takes exactly `exceptionsAllowedBeforeBreaking`
   * handled faults to open the circuit: after one fewer it is still closed and the
   * callback has not run; the next one breaks it for the whole duration and
   * calls the callback once, with that fault.
   */
  lemma ThresholdOpensCircuit(c: Settings, s: State, exs: seq<Exception>, ex: Exception, now: Instant)
    requires ValidSettings(c) && c.durationOfBreak > 0 && now < MaxTicks
    requires s == Cleared(s)
    requires |exs| == c.exceptionsAllowedBeforeBreaking - 1
    ensures !BrokenAt(Faults(c, s, exs, now), now)
    ensures Faults(c, s, exs, now).notified == s.notified
    ensures BrokenAt(AfterFault(c, Faults(c, s, exs, now), ex, now), now)
    ensures AfterFault(c, Faults(c, s, exs, now), ex, now).notified
              == s.notified + Invocations(c.onCircuitBroken, ex)
  {
    FaultsBelowThreshold(c, s, exs, now);
  }

  /**
   * Breaking does not clear the count, so once the break has run out the breaker
   * is half-open: the circuit reports closed, and a single further fault breaks
   * it again for a fresh duration from the moment of that fault.
   */
  lemma HalfOpenTrialFaultReopens(c: Settings, s: State, ex: Exception, now: Instant)
    requires ValidSettings(c)
    requires c.exceptionsAllowedBeforeBreaking <= s.count < Int32Max
    requires !BrokenAt(s, now)
    ensures Trips(c, s)
    ensures AfterFault(c, s, ex, now).blockedTill == SaturatingAdd(now, c.durationOfBreak)
    ensures c.durationOfBreak > 0 && now < MaxTicks ==> BrokenAt(AfterFault(c, s, ex, now), now)
  {
  }

  /** The count stays at or above the threshold from one break to the next. */
  lemma BreakKeepsCountAtThreshold(c: Settings, s: State, ex: Exception, now: Instant)
    requires ValidSettings(c) && s.count < Int32Max
    requires Trips(c, s)
    ensures AfterFault(c, s, ex, now).count >= c.exceptionsAllowedBeforeBreaking
    ensures AfterFault(c, s, ex, now).count < Int32Max ==> Trips(c, AfterFault(c, s, ex, now))
  {
  }

  /**
   * `_count` is a C# `int`: a fault recorded at `int.MaxValue` wraps the count to
   * `int.MinValue`, and that fault does not break the circuit.
   */
  lemma CountWrapsAtInt32Max(c: Settings, s: State, ex: Exception, now: Instant)
    requires ValidSettings(c) && s.count == Int32Max
    requires c.exceptionsAllowedBeforeBreaking > Int32Min
    ensures AfterFault(c, s, ex, now).count == Int32Min
    ensures !Trips(c, s)
    ensures AfterFault(c, s, ex, now).blockedTill == s.blockedTill
  {
  }

  /** With `TimeSpan.MaxValue` as duration a break lasts until `DateTime.MaxValue`. */
  lemma MaxDurationBlocksUntilMaxValue(c: Settings, s: State, ex: Exception, now: Instant)
    requires c.durationOfBreak == TimeSpanMaxTicks
    requires Trips(c, s)
    ensures AfterFault(c, s, ex, now).blockedTill == MaxTicks
    ensures forall t: Instant :: t < MaxTicks ==> BrokenAt(AfterFault(c, s, ex, now), t)
  {
  }
}
