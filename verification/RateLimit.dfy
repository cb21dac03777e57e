/** The distributed rate limiter: one atomic script per request on a counter named after the
    identity, the endpoint and the start of the current window. */
module RateLimit {
  import opened Text
  import opened RedisKeys
  import opened Redis
  import opened Identities
  import opened WindowArithmetic

  /** What can go wrong between the limiter and Redis: the script never ran, it ran but the reply
      was lost, or the TTL command that follows it failed. */
  datatype Fault = NoFault | ScriptNotRun | ScriptReplyLost | TtlFailed

  /** One request at the limiter: the clock is read at `stamp`, the script runs at `exec`, the TTL
      is read at `ttlAt`. */
  datatype Visit = Visit(
    identity: Option<Identity>,
    endpoint: string,
    stamp: int,
    exec: int,
    ttlAt: int,
    fault: Fault)

  datatype Outcome =
    | NoIdentity
    | ScriptError
    | TtlError
    | Decided(count: int, limit: int, remaining: int, reset: int, admitted: bool)

  function CounterKey(cfg: Config, id: Identity, endpoint: string, t: int): Key
    requires Proper(cfg)
  {
    Window(SubjectOf(id), endpoint, UnixStart(cfg, t))
  }

  predicate Ran(v: Visit) {
    v.identity.Some? && v.fault != ScriptNotRun
  }

  function KeyOf(cfg: Config, v: Visit): Key
    requires Proper(cfg) && v.identity.Some?
  {
    CounterKey(cfg, v.identity.value, v.endpoint, v.stamp)
  }

  /** go-redis reports a missing key as a negative duration, which truncates to zero seconds. */
  function TtlSeconds(cfg: Config, s: Store<Key>, k: Key, now: int): int
    requires Proper(cfg)
  {
    var reply := Exec(s, now, Ttl(k)).reply;
    if reply.Number? then reply.n / cfg.perSecond else 0
  }

  function Decide(cfg: Config, id: Identity, count: int, reset: int): Outcome {
    var limit := LimitOf(cfg.jwtLimit, id);
    Decided(count, limit, if limit - count < 0 then 0 else limit - count, reset, count <= limit)
  }

  function Serve(cfg: Config, s: Store<Key>, v: Visit): (Store<Key>, Outcome)
    requires Proper(cfg)
  {
    if v.identity.None? then (s, NoIdentity)
    else if v.fault == ScriptNotRun then (s, ScriptError)
    else
      var e := Exec(s, v.exec, IncrExpire(KeyOf(cfg, v), ExpireAfter(cfg)));
      if v.fault == ScriptReplyLost || !e.reply.Number? then (e.store, ScriptError)
      else if v.fault == TtlFailed then (e.store, TtlError)
      else
        var reset := TtlSeconds(cfg, e.store, KeyOf(cfg, v), v.ttlAt);
        (e.store, Decide(cfg, v.identity.value, e.reply.n, reset))
  }

  predicate Admits(o: Outcome) {
    o.Decided? && o.admitted
  }

  /** X-RateLimit-Limit, X-RateLimit-Remaining, X-RateLimit-Reset and Retry-After. */
  datatype Headers = Headers(
    limit: Option<int>, remaining: Option<int>, reset: Option<int>, retryAfter: Option<int>)

  const NO_HEADERS := Headers(None, None, None, None)

  function HeadersFor(o: Outcome): Headers {
    if o.Decided? then
      Headers(Some(o.limit), Some(o.remaining), Some(o.reset), if o.admitted then None else Some(o.reset))
    else NO_HEADERS
  }

  /** The middleware as the program runs it: the limit, identifier and remaining count are
      variables that the branches overwrite, and the response headers are filled in as it goes. */
  class Limiter {
    const cfg: Config
    var redis: Store<Key>

    constructor (cfg: Config, redis: Store<Key>)
      requires Proper(cfg)
      ensures this.cfg == cfg && this.redis == redis
    {
      this.cfg, this.redis := cfg, redis;
    }

    /** `next` says whether the request is passed on; otherwise `status` answers it. */
    method Handle(v: Visit) returns (next: bool, status: int, headers: Headers)
      requires Proper(cfg)
      modifies this
      ensures redis == Serve(cfg, old(redis), v).0
      ensures
        var outcome := Serve(cfg, old(redis), v).1;
        && (next <==> Admits(outcome))
        && headers == HeadersFor(outcome)
        && (!next ==> status == if outcome.Decided? then 429 else 500)
    {
      next, status, headers := false, 500, NO_HEADERS;
      if v.identity.None? {
        return;
      }
      var id := v.identity.value;
      var limit := cfg.jwtLimit;
      var subject := User(id.user);
      if id.apiKey.Some? {
        subject := ApiKey(id.apiKey.value);
        if id.rate.Some? {
          limit := id.rate.value;
        }
      }
      if v.fault == ScriptNotRun {
        return;
      }
      var key := Window(subject, v.endpoint, UnixStart(cfg, v.stamp));
      var e := Exec(redis, v.exec, IncrExpire(key, ExpireAfter(cfg)));
      redis := e.store;
      if v.fault == ScriptReplyLost || !e.reply.Number? || v.fault == TtlFailed {
        return;
      }
      var current := e.reply.n;
      var reset := TtlSeconds(cfg, redis, key, v.ttlAt);
      var remaining := limit - current;
      if remaining < 0 {
        remaining := 0;
      }
      headers := Headers(Some(limit), Some(remaining), Some(reset), None);
      if current > limit {
        headers := headers.(retryAfter := Some(reset));
        status := 429;
        return;
      }
      next := true;
    }
  }
}
