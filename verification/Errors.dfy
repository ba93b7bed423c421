/** The provider error taxonomy that decides retry and fallback. */
module Errors {

  datatype FailureClass =
    | AuthError | RateLimited | QuotaExceeded | InvalidRequest | ContentFiltered | ContextTooLong
    | ModelUnavailable | ProviderUnavailable | Timeout | NetworkError | Unknown

  /** Worth another attempt on the same model. */
  predicate IsRetryable(c: FailureClass) {
    c in {RateLimited, ProviderUnavailable, Timeout, NetworkError}
  }

  /** Worth an attempt on a different model. */
  predicate IsFallbackEligible(c: FailureClass) {
    c in {RateLimited, ModelUnavailable, ProviderUnavailable, Timeout, NetworkError}
  }

  /** Running it again would reach the same answer. */
  predicate IsDeterministic(c: FailureClass) {
    c in {ContentFiltered, InvalidRequest, ContextTooLong}
  }

  /** A class that earns a second attempt anywhere is never replayed as the final answer for its key. */
  lemma RetriedClassesAreNotFinal(c: FailureClass)
    ensures IsRetryable(c) ==> IsFallbackEligible(c)
    ensures IsFallbackEligible(c) ==> !IsDeterministic(c)
    ensures IsFallbackEligible(c) && !IsRetryable(c) ==> c == ModelUnavailable
  {
  }

  /** Every class is of one of four kinds: passing, of the model alone, of the request, or of neither and not worth a retry. */
  lemma EveryClassHasItsKind(c: FailureClass)
    ensures c in {RateLimited, ProviderUnavailable, Timeout, NetworkError} <==> IsRetryable(c) && IsFallbackEligible(c) && !IsDeterministic(c)
    ensures c == ModelUnavailable <==> !IsRetryable(c) && IsFallbackEligible(c) && !IsDeterministic(c)
    ensures c in {ContentFiltered, InvalidRequest, ContextTooLong} <==> !IsRetryable(c) && !IsFallbackEligible(c) && IsDeterministic(c)
    ensures c in {AuthError, QuotaExceeded, Unknown} <==> !IsRetryable(c) && !IsFallbackEligible(c) && !IsDeterministic(c)
  {
  }
}
