/**
 Waiting for the database at start-up: the doubling, saturating delay of the retry
 loop and the setting bounds it relies on. Delays are whole seconds.
 */
module DatabaseRetry {
  import Backoff

  datatype Settings = Settings(baseDelay: int, maxDelay: int)

  datatype SettingError = BaseNotPositive | MaxNotPositive | MaxBelowBase

  // One failed attempt, and whether shutdown had been requested by then.
  datatype Failure = Failure(shutdownRequested: bool)

  datatype Outcome = Ready | Cancelled

  // The delay after k earlier ones, in closed form.
  function Delay(s: Settings, k: nat): int {
    Backoff.Delay(s.baseDelay, s.maxDelay, k)
  }

  predicate Accepted(s: Settings) {
    0 < s.baseDelay <= s.maxDelay
  }

  // The bound an error stands for is broken.
  predicate Broken(s: Settings, e: SettingError) {
    match e
    case BaseNotPositive => s.baseDelay <= 0
    case MaxNotPositive => s.maxDelay <= 0
    case MaxBelowBase => s.maxDelay < s.baseDelay
  }

  /** Reports every broken bound and no other, and nothing exactly for accepted settings. */
  method ValidateDatabaseSettings(s: Settings, errors: seq<SettingError>) returns (after: seq<SettingError>)
    ensures errors <= after
    ensures forall e: SettingError :: e in after[|errors|..] <==> Broken(s, e)
    ensures after == errors <==> Accepted(s)
  {
    after := errors;
    ghost var found: seq<SettingError> := [];
    if s.baseDelay <= 0 {
      after, found := after + [BaseNotPositive], found + [BaseNotPositive];
    }
    if s.maxDelay <= 0 {
      after, found := after + [MaxNotPositive], found + [MaxNotPositive];
    }
    if s.maxDelay < s.baseDelay {
      after, found := after + [MaxBelowBase], found + [MaxBelowBase];
    }
    assert after == errors + found;
    assert after[|errors|..] == found;
    assert forall e: SettingError :: e in found <==> Broken(s, e);
  }

  // The position of the first failure at which shutdown was requested.
  function FirstShutdown(failures: seq<Failure>): (n: nat)
    ensures n <= |failures|
    ensures forall i :: 0 <= i < n ==> !failures[i].shutdownRequested
    ensures n < |failures| ==> failures[n].shutdownRequested
  {
    if failures == [] || failures[0].shutdownRequested then 0 else 1 + FirstShutdown(failures[1..])
  }

  /**
   The loop against its closed form: with accepted settings the k-th sleep is
   min(base * 2^k, max), and there is one sleep per failure before the first at which
   shutdown was requested. After the given failures the database answers.
   */
  method InitializeWithRetry(s: Settings, failures: seq<Failure>) returns (outcome: Outcome, sleeps: seq<int>, attempt: nat)
    requires Accepted(s)
    ensures |sleeps| == FirstShutdown(failures) && attempt == |sleeps| + 1
    ensures forall k :: 0 <= k < |sleeps| ==> sleeps[k] == Backoff.Min(s.baseDelay * Backoff.Pow2(k), s.maxDelay)
    ensures outcome == Cancelled <==> FirstShutdown(failures) < |failures|
  {
    var delay := s.baseDelay;
    attempt, sleeps := 0, [];
    assert Delay(s, 0) == s.baseDelay;
    while true
      invariant attempt == |sleeps| <= FirstShutdown(failures)
      invariant delay == Delay(s, |sleeps|)
      invariant forall k :: 0 <= k < |sleeps| ==> sleeps[k] == Delay(s, k)
      decreases |failures| - attempt
    {
      var failed := attempt < |failures|;
      attempt := attempt + 1;
      if !failed {
        return Ready, sleeps, attempt;
      }
      if failures[attempt - 1].shutdownRequested {
        return Cancelled, sleeps, attempt;
      }
      Backoff.DelayDoubles(s.baseDelay, s.maxDelay, |sleeps|);
      sleeps := sleeps + [delay];
      delay := Backoff.Min(delay * 2, s.maxDelay);
    }
  }
}
