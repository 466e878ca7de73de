/**
 * The .NET value types the circuit breakers are written against, in Dafny's terms:
 * `int` (Int32), `DateTime` and `TimeSpan` (both counted in 100-nanosecond ticks),
 * the exceptions a guarded call can raise, and the `Action<Exception>` callback
 * run when a circuit opens.
 */
module Platform {

  // ---------------------------------------------------------------- Int32

  const Int32Min: int := -0x8000_0000
  const Int32Max: int := 0x7FFF_FFFF

  /** A C# `int`. */
  type Int32 = x: int | -0x8000_0000 <= x <= 0x7FFF_FFFF

  /**
   * `x += 1` on a C# `int` in the default unchecked context: the result is
   * x + 1 taken modulo 2^32 into the Int32 range.
   */
  function Increment(x: Int32): (r: Int32)
    ensures (r - x - 1) % 0x1_0000_0000 == 0
    ensures x < Int32Max ==> r == x + 1
  {
    if x == Int32Max then Int32Min else x + 1
  }

  // ---------------------------------------------------------------- Time

  /** Ticks of `DateTime.MinValue`; a `blockedTill` equal to it means "never blocked". */
  const MinTicks: int := 0
  /** Ticks of `DateTime.MaxValue` (23:59:59.9999999 on 31 December 9999). */
  const MaxTicks: int := 3_155_378_975_999_999_999
  /** Ticks of `TimeSpan.MaxValue`. */
  const TimeSpanMaxTicks: int := 0x7FFF_FFFF_FFFF_FFFF

  const TicksPerSecond: int := 10_000_000
  const TicksPerMinute: int := 600_000_000

  /** A `DateTime`: an instant between `DateTime.MinValue` and `DateTime.MaxValue`. */
  type Instant = t: int | 0 <= t <= 3_155_378_975_999_999_999

  /** A `TimeSpan`: a signed 64-bit number of ticks. */
  type Duration = d: int | -0x8000_0000_0000_0000 <= d <= 0x7FFF_FFFF_FFFF_FFFF

  function Min(a: int, b: int): int { if a <= b then a else b }

  /**
   * The end of a break that starts at `now` and lasts `duration`: `now + duration`,
   * clamped at `DateTime.MaxValue` instead of overflowing. The guard compares the
   * duration with `MaxValue - now`, which is itself always representable.
   * `DateTime + TimeSpan` throws below `DateTime.MinValue`; the requires keeps the
   * sum above it.
   */
  function SaturatingAdd(now: Instant, duration: Duration): (until: Instant)
    requires MinTicks <= now + duration
    ensures until == Min(now + duration, MaxTicks)
    ensures duration >= 0 ==> now <= until
    ensures duration == TimeSpanMaxTicks ==> until == MaxTicks
  {
    if duration > MaxTicks - now then MaxTicks else now + duration
  }

  /**
   * Both breakers answer `IsBroken` with `SystemClock.UtcNow() < _blockedTill`:
   * a strict comparison, so the circuit is closed again at `blockedTill` itself.
   */
  predicate Blocked(now: Instant, blockedTill: Instant)
  {
    now < blockedTill
  }

  /** Nothing is blocked until `DateTime.MinValue`: no representable instant precedes it. */
  lemma NeverBlockedUntilMin(now: Instant)
    ensures !Blocked(now, MinTicks)
  {
  }

  // ---------------------------------------------------------------- Exceptions

  /**
   * An exception object. `ShouldNeverBeThrown` is the placeholder
   * `InvalidOperationException("This exception should never be thrown")` that a
   * reset breaker reports as its last exception; `Raised` is any exception a
   * guarded call throws, identified by reference.
   */
  datatype Exception = ShouldNeverBeThrown | Raised(id: nat)

  /**
   * The `onCircuitBroken` delegate: `null`, the do-nothing lambda `_ => { }` the
   * short overloads supply, or a caller's own action. Its body is not modelled;
   * the breakers record each invocation instead.
   */
  datatype Callback = NullCallback | DoNothing | Handler(id: nat)

  /** The invocations `if (_onCircuitBroken != null) _onCircuitBroken(ex)` performs. */
  function Invocations(callback: Callback, ex: Exception): (calls: seq<Exception>)
    ensures |calls| <= 1
    ensures calls == [] <==> callback == NullCallback
    ensures forall i :: 0 <= i < |calls| ==> calls[i] == ex
  {
    if callback == NullCallback then [] else [ex]
  }
}
