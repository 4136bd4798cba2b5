/** Reported request outcomes, shared by the passive-health tracker and the circuit breaker. */
module Outcomes {

  /** `time.Time` as nanoseconds since Go's zero time, so the zero time is 0. */
  const ZERO_TIME := 0

  /** One reported request: did the backend answer without failing, and when was it reported. */
  datatype Outcome = Outcome(ok: bool, at: int)

  /** The length of the run of failures that ends the log. */
  ghost function TrailingFailures(h: seq<Outcome>): (n: nat)
    ensures n <= |h|
  {
    if h == [] || h[|h| - 1].ok then 0 else TrailingFailures(h[..|h| - 1]) + 1
  }

  /** The length of the run of successes that ends the log. */
  ghost function TrailingSuccesses(h: seq<Outcome>): (n: nat)
    ensures n <= |h|
  {
    if h == [] || !h[|h| - 1].ok then 0 else TrailingSuccesses(h[..|h| - 1]) + 1
  }

  /** Reports i, ..., i+n-1 of the log are all failures. */
  ghost predicate FailureWindow(h: seq<Outcome>, i: int, n: nat) {
    0 <= i && i + n <= |h| && forall k | i <= k < i + n :: !h[k].ok
  }

  /** Reports i, ..., i+n-1 of the log are all successes. */
  ghost predicate SuccessWindow(h: seq<Outcome>, i: int, n: nat) {
    0 <= i && i + n <= |h| && forall k | i <= k < i + n :: h[k].ok
  }

  lemma {:induction false} TrailingFailuresAreAWindow(h: seq<Outcome>, n: nat)
    ensures TrailingFailures(h) >= n <==> FailureWindow(h, |h| - n, n)
  {
    if n == 0 || h == [] || h[|h| - 1].ok {
    } else {
      var g := h[..|h| - 1];
      TrailingFailuresAreAWindow(g, n - 1);
      assert FailureWindow(h, |h| - n, n) <==> FailureWindow(g, |g| - (n - 1), n - 1);
    }
  }

  lemma {:induction false} TrailingSuccessesAreAWindow(h: seq<Outcome>, n: nat)
    ensures TrailingSuccesses(h) >= n <==> SuccessWindow(h, |h| - n, n)
  {
    if n == 0 || h == [] || !h[|h| - 1].ok {
    } else {
      var g := h[..|h| - 1];
      TrailingSuccessesAreAWindow(g, n - 1);
      assert SuccessWindow(h, |h| - n, n) <==> SuccessWindow(g, |g| - (n - 1), n - 1);
    }
  }
}
