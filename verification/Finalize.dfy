/**
 What happens to the reservations of a request when it ends: the quota step and the token-bucket
 step of the finalizer, and the estimate that both were reserved with. No Redis command fails here.
 */
module Finalize {
  import opened Basics
  import opened QuotaLedger
  import opened RateLimiter
  import TokenBucket

  const ESTIMATED_TOKENS_PER_REQUEST := 100
  const CHARS_PER_TOKEN := 4
  const MAX_UPFRONT_ESTIMATE := 4_000
  const MAX_COMPLETION_CEILING := 200_000

  function ClampCompletion(value: int): int { Max(0, Min(value, MAX_COMPLETION_CEILING)) }

  /** The upfront estimate for an input of `chars` characters and a declared output limit. */
  function EstimateTokens(chars: nat, maxCompletion: int): (tokens: int)
    ensures ESTIMATED_TOKENS_PER_REQUEST <= tokens <= MAX_UPFRONT_ESTIMATE + MAX_COMPLETION_CEILING
    ensures 0 <= maxCompletion <= MAX_COMPLETION_CEILING && chars <= CHARS_PER_TOKEN * MAX_UPFRONT_ESTIMATE ==>
              chars < CHARS_PER_TOKEN * (tokens - maxCompletion + 1)
  {
    (if chars == 0 then ESTIMATED_TOKENS_PER_REQUEST
     else Min(Max(ESTIMATED_TOKENS_PER_REQUEST, chars / CHARS_PER_TOKEN), MAX_UPFRONT_ESTIMATE))
    + ClampCompletion(maxCompletion)
  }

  /**
   In numbers: an input of up to 403 characters counts as 100 tokens, one of up to 16,000 as a quarter of
   its characters, a longer one as 4000; the declared output limit is added as far as it is in 0..200,000.
   */
  lemma EstimateInNumbers(chars: nat, maxCompletion: int)
    ensures var output := if maxCompletion < 0 then 0 else if maxCompletion > 200_000 then 200_000 else maxCompletion;
            var input := EstimateTokens(chars, maxCompletion) - output;
            && (chars <= 403 ==> input == 100)
            && (403 < chars <= 16_000 ==> 4 * input <= chars < 4 * input + 4)
            && (chars > 16_000 ==> input == 4_000)
  {
    assert 4 * (chars / 4) <= chars < 4 * (chars / 4) + 4;
  }

  /** The parts of the request context that settlement reads and writes. */
  class RequestContext {
    const quotaReserved: bool
    const reservations: seq<Reservation>
    const estimatedTokens: int
    const promptTokens: int
    const completionTokens: int
    const totalTokens: int
    var quotaSettled: bool

    constructor (quotaReserved: bool, reservations: seq<Reservation>, estimatedTokens: int, promptTokens: int,
                 completionTokens: int, totalTokens: int)
      ensures this.quotaReserved == quotaReserved && this.reservations == reservations
      ensures this.estimatedTokens == estimatedTokens && this.promptTokens == promptTokens
      ensures this.completionTokens == completionTokens && this.totalTokens == totalTokens && !quotaSettled
    {
      this.quotaReserved, this.reservations, this.estimatedTokens := quotaReserved, reservations, estimatedTokens;
      this.promptTokens, this.completionTokens, this.totalTokens := promptTokens, completionTokens, totalTokens;
      quotaSettled := false;
    }

    /**
     `_settle_quota`, where `known` says that service and model are known: compensates a request
     that produced nothing, settles any other, and does neither a second time.
     */
    method SettleQuota(store: QuotaStore, known: bool, cost: Option<real>)
      modifies this, store
      ensures quotaSettled <==> old(quotaSettled) || (quotaReserved && known && reservations != [])
      ensures old(quotaSettled) == quotaSettled ==> store.counters == old(store.counters)
      ensures KeepsLifetimes(old(store.counters), store.counters)
      ensures quotaSettled && !old(quotaSettled) && promptTokens == 0 && completionTokens == 0 ==>
                forall k :: ValueAt(store.counters, k) == ValueAt(old(store.counters), k) - HeldOn(reservations, k)
      ensures quotaSettled && !old(quotaSettled) && !(promptTokens == 0 && completionTokens == 0) ==>
                forall k :: ValueAt(store.counters, k) ==
                  ValueAt(old(store.counters), k) + AdjustedOn(reservations, totalTokens, cost, k)
    {
      if quotaSettled || !quotaReserved {
        return;
      }
      if !known {
        return;
      }
      if |reservations| > 0 {
        if promptTokens == 0 && completionTokens == 0 {
          store.Compensate(reservations);
        } else {
          store.Settle(reservations, totalTokens, cost);
        }
        quotaSettled := true;
      }
    }

    /**
     `_settle_tpm`: the buckets of all rules move by what was reserved minus what was used. An
     estimate made by `EstimateTokens` is never zero, so the fallback never replaces it.
     */
    method SettleTpm(store: Store, rules: seq<Rule>, now: int)
      requires DistinctKeys(rules)
      modifies store`buckets
      ensures estimatedTokens != 0 ==>
                if totalTokens == estimatedTokens then store.buckets == old(store.buckets)
                else Settled(old(store.buckets), store.buckets, now, rules, estimatedTokens - totalTokens)
      ensures estimatedTokens == 0 && totalTokens != ESTIMATED_TOKENS_PER_REQUEST ==>
                Settled(old(store.buckets), store.buckets, now, rules, ESTIMATED_TOKENS_PER_REQUEST - totalTokens)
      ensures estimatedTokens == 0 && totalTokens == ESTIMATED_TOKENS_PER_REQUEST ==>
                store.buckets == old(store.buckets)
    {
      if |rules| == 0 {
        return;
      }
      var reserved := if estimatedTokens != 0 then estimatedTokens else ESTIMATED_TOKENS_PER_REQUEST;
      store.SettleTpm(now, rules, reserved - totalTokens);
    }
  }

  /**
   Estimate, reservation and settlement agree: if nothing else runs on the bucket in between, then
   whatever was estimated, the bucket that admitted the request ends with what it offered then minus
   the actual usage, as if that had been asked for; a settlement after the key expired is dropped.
   */
  lemma SettlementReplacesEstimate(r: TokenBucket.Rule, b: TokenBucket.Bucket, now: int, later: int, chars: nat,
                                   maxCompletion: int, total: int)
    requires r.Valid() && total >= 0
    requires TokenBucket.AfterCheck(r, b, now, EstimateTokens(chars, maxCompletion)).1.allowed
    ensures var estimate := EstimateTokens(chars, maxCompletion);
            var reserved := TokenBucket.AfterCheck(r, b, now, estimate).0;
            var settled := TokenBucket.AfterSettle(r, TokenBucket.Alive(reserved, later), later, estimate - total);
            if later <= now + TokenBucket.BUCKET_TTL_MS
            then settled.Bucket? && settled.tokens == TokenBucket.Available(r, b, now) - total && settled.ts == now
            else settled.Missing?
  {
  }

  /**
   In general a settlement finds what other requests and refills have left, and moves that by the
   whole difference exactly if the result stays within the burst; the rest of a refund is cut off.
   */
  lemma RefundIsCutOffAtTheBurst(r: TokenBucket.Rule, found: TokenBucket.Bucket, later: int, delta: int)
    requires r.Valid() && found.Bucket? && found.tokens <= r.burst
    ensures var settled := TokenBucket.AfterSettle(r, found, later, delta);
            && settled.Bucket?
            && (settled.tokens == found.tokens + delta <==> found.tokens + delta <= r.burst)
            && (found.tokens + delta > r.burst ==> settled.tokens == r.burst)
  {
  }

  /** That happens: another request's check refills the bucket first, and all but one token of a refund is lost. */
  lemma CheckInBetweenCutsRefund(r: TokenBucket.Rule)
    requires r.Valid() && r.burst >= 2
    ensures var wait := TokenBucket.CeilDiv(r.burst * TokenBucket.MINUTE_MS, r.rate);
            var first := TokenBucket.AfterCheck(r, TokenBucket.Missing, 0, r.burst).0;
            var second := TokenBucket.AfterCheck(r, first, wait, 1).0;
            && first.Bucket? && first.tokens == 0 && second.Bucket? && second.tokens == r.burst - 1
            && TokenBucket.AfterSettle(r, second, wait, r.burst).tokens == r.burst < second.tokens + r.burst
  {
    TokenBucket.CeilDivBounds(r.burst * TokenBucket.MINUTE_MS, r.rate);
  }
}
