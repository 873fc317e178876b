/** CachedRegistry end to end: concurrent ListArchs calls over the cache, keyed by secret and image. */
module CachedRegistry {
  import CacheInterleavings
  import CacheKey
  import ExpiringCache

  datatype Request = Request(auths: CacheKey.DockerAuths, image: string)

  /** Goroutine t runs ListArchs for requests[t]. */
  ghost predicate Serves(cfg: CacheInterleavings.Config, requests: seq<Request>) {
    && |requests| == |cfg.keyOf|
    && forall t :: 0 <= t < |requests| ==>
         cfg.keyOf[t] == ExpiringCache.CacheKey(CacheKey.SecretText(requests[t].auths), requests[t].image)
  }

  /** In every interleaving, a value ListArchs returns is one the registry gave to a request with the
      same credentials and the same image, and which that request stored: to this very request if it is a
      miss, and less than cacheDuration before the clock was read if it is a hit. */
  lemma AnswersBelongToTheRequest(cfg: CacheInterleavings.Config, requests: seq<Request>,
                                  s: CacheInterleavings.State, t: nat) returns (x: CacheInterleavings.Store)
    requires Serves(cfg, requests) && CacheInterleavings.Reachable(cfg, s) && t < |s.threads|
    requires s.threads[t].pc.Returned? && !s.threads[t].pc.outcome.Failed?
    ensures |s.threads| == |requests| && x.asker < |requests|
    ensures requests[x.asker] == requests[t]
    ensures x in s.stores && CacheInterleavings.Success(x.asker, x.value, x.answeredAt) in s.successes
    ensures x.answeredAt <= x.storedAt <= s.clock
    ensures match s.threads[t].pc.outcome
            case Hit(entry, at) => x.value == entry.value && x.storedAt <= at < x.storedAt + cfg.duration
            case Fresh(v) => x.value == v && x.asker == t
  {
    x := CacheInterleavings.StoreBehind(cfg, s, t);
    var asked, own := requests[x.asker], requests[t];
    CacheKey.CacheKeyIsInjective(asked.auths, asked.image, own.auths, own.image);
  }
}
