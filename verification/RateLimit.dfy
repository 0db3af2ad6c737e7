// hindsight_manager/middleware/rate_limit.py: a sliding-window limiter. The key of
// a call is the client host and the path.

module RateLimit {
  type Key = string

  datatype Answer = Accepted | TooManyRequests(status: nat, retryAfter: real)

  const TOO_MANY_REQUESTS: nat := 429

  /** The timestamps after the cutoff. */
  function After(ts: seq<real>, cutoff: real): seq<real> {
    if ts == [] then [] else (if ts[0] > cutoff then [ts[0]] else []) + After(ts[1..], cutoff)
  }

  function Recorded(requests: map<Key, seq<real>>, key: Key): seq<real> {
    if key in requests then requests[key] else []
  }

  /** The answer to a call and the table it leaves behind. */
  function Decide(requests: map<Key, seq<real>>, maxRequests: nat, window: real, key: Key, now: real): (Answer, map<Key, seq<real>>) {
    var recent := After(Recorded(requests, key), now - window);
    if |recent| >= maxRequests then (TooManyRequests(TOO_MANY_REQUESTS, window), requests[key := recent])
    else (Accepted, requests[key := recent + [now]])
  }

  class RateLimiter {
    const maxRequests: nat
    const windowSeconds: real
    var requests: map<Key, seq<real>>

    constructor (maxRequests: nat, windowSeconds: real)
      ensures requests == map[] && this.maxRequests == maxRequests && this.windowSeconds == windowSeconds
    {
      this.maxRequests, this.windowSeconds, requests := maxRequests, windowSeconds, map[];
    }

    method Call(key: Key, now: real) returns (answer: Answer)
      modifies this`requests
      ensures (answer, requests) == Decide(old(requests), maxRequests, windowSeconds, key, now)
    {
      var cutoff := now - windowSeconds;
      var timestamps := Recorded(requests, key);
      requests := requests[key := After(timestamps, cutoff)];
      if |requests[key]| >= maxRequests {
        return TooManyRequests(TOO_MANY_REQUESTS, windowSeconds);
      }
      ghost var pruned := requests;
      requests := requests[key := requests[key] + [now]];
      assert requests == old(requests)[key := pruned[key] + [now]];
      return Accepted;
    }
  }
}
