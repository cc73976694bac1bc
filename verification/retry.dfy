/** `lib/retry.ts`: a bounded attempt loop with a capped exponential delay.
    The wrapped operation is an oracle giving the outcome of its k-th call;
    instead of sleeping, a run reports the delays it would have waited. */
module Retry {
  import opened Wrappers

  /** Caller options: an absent field falls back to the default. */
  datatype RetryOptions = RetryOptions(
    maxRetries: Option<int>,
    initialDelay: Option<nat>,
    maxDelay: Option<nat>,
    backoffMultiplier: Option<nat>)

  /** The options after merging, every field present. */
  datatype RetryPolicy = RetryPolicy(maxRetries: int, initialDelay: nat, maxDelay: nat, backoffMultiplier: nat)

  const NoOptions := RetryOptions(None, None, None, None)

  /** `defaultOptions`. */
  const DefaultPolicy := RetryPolicy(3, 1000, 10000, 2)

  /** The outcome of one call of the wrapped operation. */
  datatype Attempt<T, E> = Succeeded(value: T) | Failed(error: E)

  /** How `withRetry` finishes: it returns a value, or throws the last error
      (`None` stands for the `undefined` thrown when nothing was attempted). */
  datatype Completion<T, E> = Returned(value: T) | Threw(error: Option<E>)

  /** A complete run: how it ended, how many calls it made, and the waits
      between them in order. */
  datatype RetryRun<T, E> = RetryRun(completion: Completion<T, E>, calls: nat, delays: seq<nat>)

  /** `{ ...defaultOptions, ...options }`: each given field overrides its default. */
  function Resolve(options: RetryOptions): (p: RetryPolicy)
    ensures p.maxRetries == if options.maxRetries.Some? then options.maxRetries.value else DefaultPolicy.maxRetries
    ensures p.initialDelay == if options.initialDelay.Some? then options.initialDelay.value else DefaultPolicy.initialDelay
    ensures p.maxDelay == if options.maxDelay.Some? then options.maxDelay.value else DefaultPolicy.maxDelay
    ensures p.backoffMultiplier == if options.backoffMultiplier.Some? then options.backoffMultiplier.value else DefaultPolicy.backoffMultiplier
  {
    RetryPolicy(
      options.maxRetries.GetOr(DefaultPolicy.maxRetries),
      options.initialDelay.GetOr(DefaultPolicy.initialDelay),
      options.maxDelay.GetOr(DefaultPolicy.maxDelay),
      options.backoffMultiplier.GetOr(DefaultPolicy.backoffMultiplier))
  }

  function Pow(base: nat, exp: nat): nat {
    if exp == 0 then 1 else base * Pow(base, exp - 1)
  }

  /** The wait after failed attempt `k`: the exponential term, capped at `maxDelay`. */
  function Delay(p: RetryPolicy, k: nat): nat {
    var grown := p.initialDelay * Pow(p.backoffMultiplier, k);
    if grown < p.maxDelay then grown else p.maxDelay
  }

  /** The wait is the smaller of the cap and the exponential term: it never
      exceeds either, and it is one of them. */
  lemma DelayCapped(p: RetryPolicy, k: nat)
    ensures Delay(p, k) <= p.maxDelay
    ensures Delay(p, k) <= p.initialDelay * Pow(p.backoffMultiplier, k)
    ensures Delay(p, k) == p.maxDelay || Delay(p, k) == p.initialDelay * Pow(p.backoffMultiplier, k)
  {
  }

  lemma {:induction false} PowGrows(base: nat, k: nat)
    requires base >= 1
    ensures Pow(base, k) <= Pow(base, k + 1)
  {
    assert Pow(base, k + 1) == base * Pow(base, k);
  }

  /** With a multiplier of at least one the schedule never shrinks. */
  lemma DelayNonDecreasing(p: RetryPolicy, k: nat)
    requires p.backoffMultiplier >= 1
    ensures Delay(p, k) <= Delay(p, k + 1)
  {
    PowGrows(p.backoffMultiplier, k);
    MulMonotone(p.initialDelay, Pow(p.backoffMultiplier, k), Pow(p.backoffMultiplier, k + 1));
  }

  lemma MulMonotone(a: nat, x: nat, y: nat)
    requires x <= y
    ensures a * x <= a * y
  {
  }

  /** Whether every call from `from` up to (not including) `to` failed. */
  ghost predicate FailedBetween<T, E>(outcome: nat -> Attempt<T, E>, from: nat, to: int) {
    forall k: nat :: from <= k < to ==> outcome(k).Failed?
  }

  /** The loop from `attempt` on, `lastError` being the error of the call
      before it. */
  function Loop<T, E>(p: RetryPolicy, outcome: nat -> Attempt<T, E>, attempt: nat, lastError: Option<E>): (r: RetryRun<T, E>)
    ensures attempt >= p.maxRetries ==> r == RetryRun(Threw(lastError), 0, [])
    ensures attempt < p.maxRetries ==> 1 <= r.calls <= p.maxRetries - attempt
    ensures r.calls > 0 ==> |r.delays| == r.calls - 1
    ensures forall i :: 0 <= i < |r.delays| ==> r.delays[i] == Delay(p, attempt + i)
    ensures FailedBetween(outcome, attempt, attempt + r.calls - 1)
    ensures r.completion.Returned? ==> r.calls > 0 && outcome(attempt + r.calls - 1) == Succeeded(r.completion.value)
    ensures attempt < p.maxRetries && r.completion.Threw? ==>
      && r.calls == p.maxRetries - attempt
      && outcome(p.maxRetries - 1).Failed?
      && r.completion.error == Some(outcome(p.maxRetries - 1).error)
    decreases p.maxRetries - attempt
  {
    if attempt >= p.maxRetries then RetryRun(Threw(lastError), 0, [])
    else
      match outcome(attempt)
      case Succeeded(v) => RetryRun(Returned(v), 1, [])
      case Failed(e) =>
        if attempt == p.maxRetries - 1 then RetryRun(Threw(Some(e)), 1, [])
        else
          var rest := Loop(p, outcome, attempt + 1, Some(e));
          RetryRun(rest.completion, rest.calls + 1, [Delay(p, attempt)] + rest.delays)
  }

  /** `withRetry(fn, options)`. */
  function WithRetry<T, E>(options: RetryOptions, outcome: nat -> Attempt<T, E>): (r: RetryRun<T, E>)
    ensures var p := Resolve(options);
      && (p.maxRetries <= 0 ==> r == RetryRun(Threw(None), 0, []))
      && (p.maxRetries > 0 ==> 1 <= r.calls <= p.maxRetries && |r.delays| == r.calls - 1)
      && (forall i :: 0 <= i < |r.delays| ==> r.delays[i] == Delay(p, i))
  {
    Loop(Resolve(options), outcome, 0, None)
  }

  /** The first successful call ends the run: its value is returned, and
      every earlier call had failed. */
  lemma ReturnsFirstSuccess<T, E>(options: RetryOptions, outcome: nat -> Attempt<T, E>, k: nat)
    requires k < Resolve(options).maxRetries
    requires outcome(k).Succeeded? && FailedBetween(outcome, 0, k)
    ensures WithRetry(options, outcome) == RetryRun(Returned(outcome(k).value), k + 1,
      seq(k, i requires 0 <= i < k => Delay(Resolve(options), i)))
  {
  }

  /** When every allowed call fails, exactly `maxRetries` calls are made,
      `maxRetries - 1` waits separate them, and the last call's error is
      thrown unchanged. */
  lemma AllFailuresRethrowLast<T, E>(options: RetryOptions, outcome: nat -> Attempt<T, E>)
    requires Resolve(options).maxRetries > 0
    requires FailedBetween(outcome, 0, Resolve(options).maxRetries)
    ensures var p := Resolve(options);
      var r := WithRetry(options, outcome);
      && r.completion == Threw(Some(outcome(p.maxRetries - 1).error))
      && r.calls == p.maxRetries
      && |r.delays| == p.maxRetries - 1
  {
  }

  /** The defaults: three calls, waits of 1000 then 2000 milliseconds. */
  lemma DefaultSchedule<T, E>(outcome: nat -> Attempt<T, E>)
    requires FailedBetween(outcome, 0, 3)
    ensures WithRetry(NoOptions, outcome).delays == [1000, 2000]
    ensures WithRetry(NoOptions, outcome).calls == 3
  {
    AllFailuresRethrowLast(NoOptions, outcome);
    var r := WithRetry(NoOptions, outcome);
    assert Pow(2, 1) == 2;
    assert r.delays[0] == Delay(DefaultPolicy, 0);
    assert r.delays[1] == Delay(DefaultPolicy, 1);
  }

  /** A run prefixed by `calls` calls already made and `delays` already waited. */
  function After<T, E>(calls: nat, delays: seq<nat>, run: RetryRun<T, E>): RetryRun<T, E> {
    RetryRun(run.completion, calls + run.calls, delays + run.delays)
  }

  /** One turn of the loop, for a failed call that is not the last one. */
  lemma LoopFailedTurn<T, E>(p: RetryPolicy, outcome: nat -> Attempt<T, E>, attempt: nat, lastError: Option<E>,
                             calls: nat, delays: seq<nat>)
    requires attempt < p.maxRetries - 1 && outcome(attempt).Failed?
    ensures After(calls, delays, Loop(p, outcome, attempt, lastError))
         == After(calls + 1, delays + [Delay(p, attempt)], Loop(p, outcome, attempt + 1, Some(outcome(attempt).error)))
  {
    var rest := Loop(p, outcome, attempt + 1, Some(outcome(attempt).error));
    assert delays + ([Delay(p, attempt)] + rest.delays) == delays + [Delay(p, attempt)] + rest.delays;
  }

  /** One turn of the loop that ends it: a success, or the failure of the last allowed call. */
  lemma LoopFinalTurn<T, E>(p: RetryPolicy, outcome: nat -> Attempt<T, E>, attempt: nat, lastError: Option<E>,
                            calls: nat, delays: seq<nat>)
    requires attempt < p.maxRetries
    requires outcome(attempt).Succeeded? || attempt == p.maxRetries - 1
    ensures After(calls, delays, Loop(p, outcome, attempt, lastError))
         == RetryRun(if outcome(attempt).Succeeded? then Returned(outcome(attempt).value)
                     else Threw(Some(outcome(attempt).error)), calls + 1, delays)
  {
  }

  /** The `for` loop of the source, run against the same oracle; it agrees
      with the recursive account of the run. */
  method WithRetryLoop<T, E>(options: RetryOptions, outcome: nat -> Attempt<T, E>)
    returns (completion: Completion<T, E>, calls: nat, delays: seq<nat>)
    ensures RetryRun(completion, calls, delays) == WithRetry(options, outcome)
  {
    var p := Resolve(options);
    var lastError: Option<E> := None;
    calls, delays := 0, [];
    var attempt: nat := 0;
    ghost var whole := WithRetry(options, outcome);
    assert whole == After(0, [], Loop(p, outcome, 0, None));
    while attempt < p.maxRetries
      invariant calls == attempt
      invariant whole == After(calls, delays, Loop(p, outcome, attempt, lastError))
      decreases p.maxRetries - attempt
    {
      match outcome(attempt)
      case Succeeded(v) =>
        LoopFinalTurn(p, outcome, attempt, lastError, calls, delays);
        completion, calls := Returned(v), calls + 1;
        return;
      case Failed(e) =>
        if attempt == p.maxRetries - 1 {
          LoopFinalTurn(p, outcome, attempt, lastError, calls, delays);
          completion, calls := Threw(Some(e)), calls + 1;
          return;
        }
        LoopFailedTurn(p, outcome, attempt, lastError, calls, delays);
        lastError := Some(e);
        calls, delays := calls + 1, delays + [Delay(p, attempt)];
        attempt := attempt + 1;
    }
    completion := Threw(lastError);
  }
}
