/**
 * The retry policies.  `runs` counts how often the operation has run and `last` is what the last
 * run reported; the delays are those between consecutive runs, in seconds.
 */
module Retry {
  import opened Options
  import opened Metrics

  const MAX_RETRIES: nat := 3

  predicate IsRetriable(err: Option<Error>)
  {
    err.Some? && err.value.Failure? && err.value.retriable
  }

  /** WithRetry: the first run is on its own; a retriable error then buys up to MAX_RETRIES more. */
  predicate WithRetryGoesOn(runs: nat, last: Option<Error>)
  {
    IsRetriable(last) && runs < 1 + MAX_RETRIES
  }

  /** Do: any error is retried, MAX_RETRIES runs in all. */
  predicate DoGoesOn(runs: nat, last: Option<Error>)
  {
    last.Some? && runs < MAX_RETRIES
  }

  const INTERVALS: seq<nat> := [1, 3, 5]

  /** The library numbers the delays of one Do from 1. */
  function DelayFunc(n: nat): nat
  {
    if n > 0 && n - 1 < |INTERVALS| then INTERVALS[n - 1] else 1
  }

  /** WithRetry on an operation whose k-th run reports outcomes(k). */
  method WithRetry(outcomes: nat -> Option<Error>) returns (err: Option<Error>, runs: nat, delays: seq<nat>)
    ensures 1 <= runs <= 4 && err == outcomes(runs - 1)
    ensures forall k: nat | k < runs - 1 :: IsRetriable(outcomes(k))
    ensures IsRetriable(err) ==> runs == 4
    ensures delays == [0, 1, 3][..runs - 1]
  {
    err := outcomes(0);
    runs, delays := 1, [];
    var n := 0;
    while WithRetryGoesOn(runs, err)
      invariant 1 <= runs <= 4 && err == outcomes(runs - 1) && n == runs - 1
      invariant forall k: nat | k < runs - 1 :: IsRetriable(outcomes(k))
      invariant delays == [0, 1, 3][..runs - 1]
      decreases 4 - runs
    {
      delays := delays + [if n == 0 then 0 else DelayFunc(n)];
      n := n + 1;
      err := outcomes(runs);
      runs := runs + 1;
    }
  }
}
