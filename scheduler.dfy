/** The retry policy: which errors are retried, and how long to wait before a retry. */
module Scheduler {
  import opened Wrappers
  import opened Exceptions

  /** `is_transient_error(exc)`: `isinstance(exc, ScraperNetworkError)`. */
  predicate IsTransientError(e: Exc) {
    IsInstance(e, ScraperNetworkError)
  }

  /** Exactly the network errors, timeouts included, are transient; nothing else is. */
  lemma TransientErrorClasses(e: Exc)
    ensures IsTransientError(e) <==> e.cls == ScraperNetworkError || e.cls == ScraperTimeoutError
  {
    assert IsSubclass(ScraperTimeoutError, ScraperNetworkError) by {
      assert Parent(ScraperTimeoutError) == Some(ScraperNetworkError);
    }
    match e.cls
    case Exception =>
    case HealthcareNewsError =>
    case ScraperNetworkError =>
    case ScraperTimeoutError =>
    case ScraperParseError =>
      assert !IsSubclass(HealthcareNewsError, ScraperNetworkError);
    case StorageError =>
      assert !IsSubclass(HealthcareNewsError, ScraperNetworkError);
    case PartialScrapeError =>
    case ValueError =>
    case RuntimeError =>
    case SqliteError =>
  }

  function MaxReal(a: real, b: real): real {
    if a >= b then a else b
  }

  function MaxInt(a: int, b: int): int {
    if a >= b then a else b
  }

  /**
    `backoff_seconds(base, attempt)`: `max(0.0, base) * max(1, attempt)`, a
    linear backoff that is never negative.
   */
  function BackoffSeconds(base: real, attempt: int): (r: real)
    ensures r >= 0.0
    ensures base >= 0.0 && attempt >= 1 ==> r == base * attempt as real
    ensures base <= 0.0 ==> r == 0.0
  {
    MaxReal(0.0, base) * MaxInt(1, attempt) as real
  }

  /** An attempt number of zero or below counts as the first attempt. */
  lemma BackoffClampsAttempt(base: real, attempt: int)
    requires attempt <= 0
    ensures BackoffSeconds(base, attempt) == BackoffSeconds(base, 1)
  {
  }

  /** For a fixed base the delay never shrinks as the attempt number grows. */
  lemma BackoffMonotone(base: real, a1: int, a2: int)
    requires a1 <= a2
    ensures BackoffSeconds(base, a1) <= BackoffSeconds(base, a2)
  {
  }

  /** A network error is transient and a `ValueError` is not. */
  lemma TransientErrorClassifier()
    ensures IsTransientError(Raise(ScraperNetworkError, "timeout"))
    ensures !IsTransientError(Raise(ValueError, "bad"))
  {
    TransientErrorClasses(Raise(ScraperNetworkError, "timeout"));
    TransientErrorClasses(Raise(ValueError, "bad"));
  }

  /** A base of 5 seconds waits 5 seconds after the first attempt and 15 after the third; a negative base never waits. */
  lemma BackoffExamples()
    ensures BackoffSeconds(5.0, 1) == 5.0
    ensures BackoffSeconds(5.0, 3) == 15.0
    ensures BackoffSeconds(-1.0, 2) == 0.0
  {
  }
}
