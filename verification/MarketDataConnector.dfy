/** The market data connector's retry loop, which backs off between attempts. */
module MarketDataConnector {
  import opened Powers
  import opened RateLimit

  // The errors one attempt can raise.
  datatype Code =
    | UpstreamRateLimited
    | UpstreamHttpError
    | UpstreamNetworkError
    | UpstreamInvalidResponse
    | MarketNotFound

  datatype Fetch = Fetched(payload: string) | Failed(code: Code)

  predicate Retryable(code: Code) {
    code.UpstreamRateLimited? || code.UpstreamHttpError? || code.UpstreamNetworkError?
  }

  predicate WorthRetrying(f: Fetch) {
    f.Failed? && Retryable(f.code)
  }

  /** How many of the first `n` attempts the upstream turned away for coming too often. */
  function RateLimitedAmong(upstream: nat -> Fetch, n: nat): nat {
    if n == 0 then 0
    else RateLimitedAmong(upstream, n - 1) + (if upstream(n - 1) == Failed(UpstreamRateLimited) then 1 else 0)
  }

  ghost function RateLimitedAttempts(upstream: nat -> Fetch, n: nat): set<nat> {
    set k: nat | k < n && upstream(k) == Failed(UpstreamRateLimited)
  }

  lemma {:induction false} RateLimitedAreCounted(upstream: nat -> Fetch, n: nat)
    ensures RateLimitedAmong(upstream, n) == |RateLimitedAttempts(upstream, n)|
  {
    if n > 0 {
      RateLimitedAreCounted(upstream, n - 1);
      var before, last := RateLimitedAttempts(upstream, n - 1), {n - 1};
      if upstream(n - 1) == Failed(UpstreamRateLimited) {
        assert RateLimitedAttempts(upstream, n) == before + last;
      } else {
        assert RateLimitedAttempts(upstream, n) == before;
      }
    }
  }

  /** What an attempt may end in that is worth another. */
  lemma WorthRetryingMeans(f: Fetch)
    ensures WorthRetrying(f) <==>
            f in {Failed(UpstreamRateLimited), Failed(UpstreamHttpError), Failed(UpstreamNetworkError)}
  {}

  /**
   `upstream(k)` is what attempt k yields. The result is that of the first attempt not worth
   repeating, or of the last one allowed; each earlier attempt was followed by its backoff delay.
   */
  method FetchJson(upstream: nat -> Fetch, retryCount: int, b: Backoff)
    returns (result: Fetch, attempts: nat, delays: seq<nat>, rateLimited: nat)
    ensures attempts >= 1 && attempts <= AtLeastZero(retryCount) + 1
    ensures result == upstream(attempts - 1)
    ensures forall k: nat | k < attempts - 1 :: WorthRetrying(upstream(k))
    ensures WorthRetrying(result) ==> attempts == AtLeastZero(retryCount) + 1
    ensures rateLimited == RateLimitedAmong(upstream, attempts)
    ensures |delays| == attempts - 1 && BackedOff(b, delays)
    ensures TotalMs(delays) <= AtLeastZero(b.initialDelayMs) * (Pow2(attempts - 1) - 1)
    ensures TotalMs(delays) <= (attempts - 1) * AtLeastZero(b.maxDelayMs)
    ensures forall i, j | 0 <= i <= j < |delays| :: delays[i] <= delays[j]
  {
    var attempt := 0;
    delays, rateLimited := [], 0;
    while true
      invariant 0 <= attempt <= AtLeastZero(retryCount)
      invariant forall k: nat | k < attempt :: WorthRetrying(upstream(k))
      invariant rateLimited == RateLimitedAmong(upstream, attempt)
      invariant |delays| == attempt && BackedOff(b, delays)
      decreases AtLeastZero(retryCount) - attempt
    {
      result := upstream(attempt);
      if result == Failed(UpstreamRateLimited) {
        rateLimited := rateLimited + 1;
      }
      if result.Fetched? || attempt >= retryCount || !Retryable(result.code) {
        attempts := attempt + 1;
        TotalSleepBound(b, delays);
        return;
      }
      delays := delays + [DelayMs(b, attempt)];
      attempt := attempt + 1;
    }
  }
}
