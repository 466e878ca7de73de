/**
 * The fluent builders that validate a circuit breaker's arguments and construct
 * its state (`CircuitBreakerSyntax`, synchronous). A builder either throws an
 * argument exception naming the offending parameter or returns a policy around
 * the state it built; the model returns that outcome as a value.
 */
module CircuitBreakerSyntax {
  import opened Platform
  import CountBreaker

  /** The argument exceptions the builders throw, with their `ParamName`. */
  datatype ArgumentError =
    | ArgumentOutOfRange(paramName: string)
    | ArgumentNull(paramName: string)

  datatype Result<T> = Ok(value: T) | Err(error: ArgumentError)

  /**
   * The breaker state a policy consults: a new `CircuitBreakerState` built from
   * these settings, a new `SuccessRatioCircuitBreakerState` built from these
   * arguments, or a state object the caller supplied (identified by reference).
   */
  datatype BreakerState =
    | CountState(settings: CountBreaker.Settings)
    | SuccessRatioState(minSuccessRatio: real, durationOfBreak: Duration, halfLife: Duration)
    | SuppliedState(id: nat)

  /** Whether the policy runs its action through the synchronous or the asynchronous wrapper. */
  datatype Execution = Synchronous | Asynchronous

  datatype Policy = Policy(state: BreakerState, execution: Execution)

  const ThresholdParam: string := "exceptionsAllowedBeforeBreaking"
  const MinSuccessRatioParam: string := "minSuccessRatio"
  const CallbackParam: string := "onCircuitBroken"

  /** `CircuitBreaker(exceptionsAllowedBeforeBreaking, durationOfBreak)`: forwards a do-nothing callback. */
  function CircuitBreaker(exceptionsAllowedBeforeBreaking: Int32, durationOfBreak: Duration): (r: Result<Policy>)
    ensures r.Err? <==> exceptionsAllowedBeforeBreaking <= 0
    ensures r.Err? ==> r.error == ArgumentOutOfRange(ThresholdParam)
    ensures r.Ok? ==> r.value.state.CountState? && r.value.state.settings.onCircuitBroken == DoNothing
    ensures r.Ok? ==> r.value.state.settings.exceptionsAllowedBeforeBreaking == exceptionsAllowedBeforeBreaking
    ensures r.Ok? ==> r.value.state.settings.durationOfBreak == durationOfBreak
  {
    CircuitBreakerWithCallback(exceptionsAllowedBeforeBreaking, durationOfBreak, DoNothing)
  }

  /**
   * `CircuitBreaker(exceptionsAllowedBeforeBreaking, durationOfBreak, onCircuitBroken)`:
   * rejects a non-positive threshold before building anything, does not reject a
   * null callback, and hands the new state to the overload below.
   */
  function CircuitBreakerWithCallback(exceptionsAllowedBeforeBreaking: Int32, durationOfBreak: Duration,
                                      onCircuitBroken: Callback): (r: Result<Policy>)
    ensures r.Err? <==> exceptionsAllowedBeforeBreaking <= 0
    ensures r.Err? ==> r.error == ArgumentOutOfRange(ThresholdParam)
    ensures r.Ok? ==> r.value.execution == Synchronous
    ensures r.Ok? ==> r.value.state == CountState(
              CountBreaker.Settings(exceptionsAllowedBeforeBreaking, durationOfBreak, onCircuitBroken))
  {
    if exceptionsAllowedBeforeBreaking <= 0 then
      Err(ArgumentOutOfRange(ThresholdParam))
    else
      var policyState := CountState(CountBreaker.Settings(exceptionsAllowedBeforeBreaking, durationOfBreak, onCircuitBroken));
      CircuitBreakerWithState(exceptionsAllowedBeforeBreaking, policyState)
  }

  /**
   * `CircuitBreaker(exceptionsAllowedBeforeBreaking, circuitBreakerState)`: the same
   * threshold check; the threshold is otherwise unused and the state is taken as given.
   */
  function CircuitBreakerWithState(exceptionsAllowedBeforeBreaking: Int32, circuitBreakerState: BreakerState): (r: Result<Policy>)
    ensures r.Err? <==> exceptionsAllowedBeforeBreaking <= 0
    ensures r.Err? ==> r.error == ArgumentOutOfRange(ThresholdParam)
    ensures r.Ok? ==> r.value == Policy(circuitBreakerState, Synchronous)
  {
    if exceptionsAllowedBeforeBreaking <= 0 then
      Err(ArgumentOutOfRange(ThresholdParam))
    else
      Ok(Policy(circuitBreakerState, Synchronous))
  }

  /**
   * `CircuitBreaker(minSuccessRatio, durationOfBreak, halfLife)`: only a negative
   * minimum is rejected; 0 and anything above, 100 and more included, is accepted.
   */
  function SuccessRatioCircuitBreaker(minSuccessRatio: real, durationOfBreak: Duration, halfLife: Duration): (r: Result<Policy>)
    ensures r.Err? <==> minSuccessRatio < 0.0
    ensures r.Err? ==> r.error == ArgumentOutOfRange(MinSuccessRatioParam)
    ensures r.Ok? ==> r.value == Policy(SuccessRatioState(minSuccessRatio, durationOfBreak, halfLife), Synchronous)
  {
    if minSuccessRatio < 0.0 then
      Err(ArgumentOutOfRange(MinSuccessRatioParam))
    else
      Ok(Policy(SuccessRatioState(minSuccessRatio, durationOfBreak, halfLife), Synchronous))
  }

  /** Whatever the callback, the count-threshold overloads accept exactly the positive thresholds. */
  lemma ThresholdDecidesAcceptance(t: Int32, d: Duration, callback: Callback, id: nat)
    ensures CircuitBreaker(t, d).Ok? == CircuitBreakerWithCallback(t, d, callback).Ok?
    ensures CircuitBreakerWithCallback(t, d, callback).Ok? == CircuitBreakerWithState(t, SuppliedState(id)).Ok?
    ensures CircuitBreakerWithCallback(t, d, NullCallback).Ok? <==> t > 0
  {
  }
}

/**
 * The asynchronous builders (`CircuitBreakerSyntaxAsync`): the same threshold
 * check, and in addition a null callback is rejected.
 */
module CircuitBreakerSyntaxAsync {
  import opened Platform
  import CountBreaker
  import opened CircuitBreakerSyntax

  /** `CircuitBreakerAsync(exceptionsAllowedBeforeBreaking, durationOfBreak)`: forwards a do-nothing callback. */
  function CircuitBreakerAsync(exceptionsAllowedBeforeBreaking: Int32, durationOfBreak: Duration): (r: Result<Policy>)
    ensures r.Err? <==> exceptionsAllowedBeforeBreaking <= 0
    ensures r.Err? ==> r.error == ArgumentOutOfRange(ThresholdParam)
    ensures r.Ok? ==> r.value.state.CountState? && r.value.state.settings.onCircuitBroken == DoNothing
    ensures r.Ok? ==> r.value.state.settings.exceptionsAllowedBeforeBreaking == exceptionsAllowedBeforeBreaking
    ensures r.Ok? ==> r.value.state.settings.durationOfBreak == durationOfBreak
  {
    CircuitBreakerAsyncWithCallback(exceptionsAllowedBeforeBreaking, durationOfBreak, DoNothing)
  }

  /**
   * `CircuitBreakerAsync(exceptionsAllowedBeforeBreaking, durationOfBreak, onCircuitBroken)`:
   * the threshold is checked first, then the callback; a bad threshold is reported
   * even when the callback is null as well.
   */
  function CircuitBreakerAsyncWithCallback(exceptionsAllowedBeforeBreaking: Int32, durationOfBreak: Duration,
                                           onCircuitBroken: Callback): (r: Result<Policy>)
    ensures r.Err? <==> exceptionsAllowedBeforeBreaking <= 0 || onCircuitBroken == NullCallback
    ensures exceptionsAllowedBeforeBreaking <= 0 ==> r == Err(ArgumentOutOfRange(ThresholdParam))
    ensures exceptionsAllowedBeforeBreaking > 0 && onCircuitBroken == NullCallback ==>
              r == Err(ArgumentNull(CallbackParam))
    ensures r.Ok? ==> r.value == Policy(
              CountState(CountBreaker.Settings(exceptionsAllowedBeforeBreaking, durationOfBreak, onCircuitBroken)),
              Asynchronous)
  {
    if exceptionsAllowedBeforeBreaking <= 0 then
      Err(ArgumentOutOfRange(ThresholdParam))
    else if onCircuitBroken == NullCallback then
      Err(ArgumentNull(CallbackParam))
    else
      Ok(Policy(CountState(CountBreaker.Settings(exceptionsAllowedBeforeBreaking, durationOfBreak, onCircuitBroken)),
                Asynchronous))
  }

  /**
   * The synchronous and asynchronous builders agree on everything except a null
   * callback, which only the asynchronous one rejects, and the wrapper they use.
   */
  lemma AsyncDiffersOnlyOnNullCallback(t: Int32, d: Duration, callback: Callback)
    ensures callback != NullCallback ==>
              CircuitBreakerAsyncWithCallback(t, d, callback).Ok? == CircuitBreakerWithCallback(t, d, callback).Ok?
    ensures CircuitBreakerAsyncWithCallback(t, d, callback).Ok? ==>
              CircuitBreakerAsyncWithCallback(t, d, callback).value.state
                == CircuitBreakerWithCallback(t, d, callback).value.state
    ensures t > 0 ==> CircuitBreakerWithCallback(t, d, NullCallback).Ok? && CircuitBreakerAsyncWithCallback(t, d, NullCallback).Err?
  {
  }
}
