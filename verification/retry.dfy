/**
 `safe_get` and `backoff_sleep`: up to three requests, returning the first
 response with status 200; a raised exception and any other status are both
 retried, and between two attempts the caller sleeps for a random time that
 grows with the attempt number.
 */
module Retry {
  import opened Wrappers

  const RetryAttempts: nat := 3
  const BackoffLow: real := 1.2
  const BackoffHigh: real := 2.0

  /** A value of `random.random()`. */
  type Fraction = r: real | 0.0 <= r < 1.0

  datatype Response = Response(status: int, body: string)

  /** What one call of `requests.get` did: raise, or answer with a response. */
  datatype Outcome = Raised | Answered(response: Response)

  predicate Succeeds(o: Outcome) {
    o.Answered? && o.response.status == 200
  }

  /** The seconds `backoff_sleep(attempt)` sleeps when `random.random()` returned `u`. */
  function BackoffDelay(attempt: nat, u: Fraction): (d: real)
    ensures attempt >= 1 ==> BackoffLow * attempt as real <= d < BackoffHigh * attempt as real
  {
    var a := attempt as real;
    var d := (BackoffLow + (BackoffHigh - BackoffLow) * u) * a;
    assert d == BackoffLow * a + 0.8 * (u * a);
    assert attempt >= 1 ==> 0.0 <= u * a < a by {
      if attempt >= 1 {
        assert u * a <= u * a;
        assert (1.0 - u) * a > 0.0;
      }
    }
    d
  }

  /**
   `safe_get`: `outcome(k)` is what the k-th request did and `random(k)` the
   random draw of the sleep that follows it. Returns the response, how many
   requests were made, and the sleeps in order.
   */
  method SafeGet(outcome: nat -> Outcome, random: nat -> Fraction)
    returns (result: Option<Response>, requests: nat, sleeps: seq<real>)
    ensures 1 <= requests <= RetryAttempts
    ensures forall k :: 1 <= k < requests ==> !Succeeds(outcome(k))
    ensures result.Some? ==> Succeeds(outcome(requests)) && result.value == outcome(requests).response
    ensures result.None? ==> requests == RetryAttempts && !Succeeds(outcome(requests))
    ensures result.None? <==> forall k :: 1 <= k <= RetryAttempts ==> !Succeeds(outcome(k))
    ensures |sleeps| == requests - 1
    ensures forall i :: 0 <= i < |sleeps| ==>
      BackoffLow * (i + 1) as real <= sleeps[i] < BackoffHigh * (i + 1) as real
  {
    var attempt := 1;
    sleeps := [];
    requests := 0;
    while attempt <= RetryAttempts
      invariant 1 <= attempt <= RetryAttempts + 1
      invariant forall k :: 1 <= k < attempt ==> !Succeeds(outcome(k))
      invariant attempt <= RetryAttempts ==> |sleeps| == attempt - 1
      invariant attempt == RetryAttempts + 1 ==> |sleeps| == RetryAttempts - 1 && requests == RetryAttempts
      invariant forall i :: 0 <= i < |sleeps| ==>
        BackoffLow * (i + 1) as real <= sleeps[i] < BackoffHigh * (i + 1) as real
    {
      requests := attempt;
      var o := outcome(attempt);
      if Succeeds(o) {
        return Some(o.response), requests, sleeps;
      }
      if attempt < RetryAttempts {
        sleeps := sleeps + [BackoffDelay(attempt, random(attempt))];
      }
      attempt := attempt + 1;
    }
    result := None;
  }

  /** Sleeping happens only between attempts, so it never adds up to `2.0 * (1 + 2)` seconds. */
  lemma TotalSleepBound(sleeps: seq<real>)
    requires |sleeps| <= RetryAttempts - 1
    requires forall i :: 0 <= i < |sleeps| ==>
      BackoffLow * (i + 1) as real <= sleeps[i] < BackoffHigh * (i + 1) as real
    ensures Sum(sleeps) < 6.0
  {
    if |sleeps| > 0 {
      assert Sum(sleeps) == sleeps[0] + Sum(sleeps[1..]);
      if |sleeps| == 2 {
        assert sleeps[1..][0] == sleeps[1];
        assert Sum(sleeps[1..]) == sleeps[1] + Sum(sleeps[2..]);
      }
    }
  }

  function Sum(xs: seq<real>): real
    decreases |xs|
  {
    if |xs| == 0 then 0.0 else xs[0] + Sum(xs[1..])
  }
}
