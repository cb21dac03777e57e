/** The middleware stacks that the router builds. */
module AuthStacks {
  import opened Text
  import opened RedisKeys
  import opened Redis
  import opened KeyTable
  import KeyRepo
  import opened Identities
  import opened WindowArithmetic
  import RateLimit
  import opened Auth

  type ProperConfig = c: Config | Proper(c) witness Config(60, 1, 0, 60)

  /** The limiter writes only counters, so the key cache stays coherent. */
  lemma LimiterKeepsCoherence(cfg: ProperConfig, s: KeyRepo.State, v: RateLimit.Visit)
    requires KeyRepo.Coherent(s)
    ensures KeyRepo.Coherent(s.(redis := RateLimit.Serve(cfg, s.redis, v).0))
  {
    var t := s.(redis := RateLimit.Serve(cfg, s.redis, v).0);
    forall k | k in t.redis && k.ByHash? && t.now < t.redis[k].expiry
      ensures t.redis[k].value.Json? && KeyRepo.Truthful(t, k) && KeyRepo.Dominated(t, k)
    {
      assert KeyRepo.Truthful(s, k) && KeyRepo.Dominated(s, k);
    }
  }

  function LimitDecision(
      cfg: ProperConfig, endpoint: string, fault: RateLimit.Fault, w: World, r: Request): Verdict
  {
    var now := w.repo.now;
    var v := RateLimit.Visit(r.identity, endpoint, now, now, now, fault);
    var (s, o) := RateLimit.Serve(cfg, w.repo.redis, v);
    var w1 := World(w.repo.(redis := s), w.users);
    match o
    case NoIdentity => Stop(w1, Response(500, "identity not found in context"))
    case ScriptError => Stop(w1, Response(500, "rate limit check failed"))
    case TtlError => Stop(w1, Response(500, "rate limit ttl failed"))
    case Decided(_, _, _, _, admitted) =>
      if admitted then Pass(w1, r) else Stop(w1, Response(429, "rate limit exceeded"))
  }

  function Limiter(cfg: ProperConfig, endpoint: string, fault: RateLimit.Fault): Middleware {
    Gate((w: World, r: Request) => LimitDecision(cfg, endpoint, fault, w, r))
  }

  lemma LimiterApplies(
      cfg: ProperConfig, endpoint: string, fault: RateLimit.Fault, next: Handler, w: World, r: Request)
    ensures Limiter(cfg, endpoint, fault)(next)(w, r) == Resolve(LimitDecision(cfg, endpoint, fault, w, r), next)
    ensures LimitDecision(cfg, endpoint, fault, w, r).Pass? ==>
              r.identity.Some? && LimitDecision(cfg, endpoint, fault, w, r).request == r
  {
    GateApplies((w: World, r: Request) => LimitDecision(cfg, endpoint, fault, w, r), next, w, r);
  }

  /** Behind the limiter the JWT middleware always finds an identity and steps aside. */
  lemma JwtBehindLimiter(env: Env, cfg: ProperConfig, endpoint: string, fault: RateLimit.Fault,
      h: Handler, w: World, r: Request)
    ensures Limiter(cfg, endpoint, fault)(JwtAuth(env)(h))(w, r) == Limiter(cfg, endpoint, fault)(h)(w, r)
  {
    LimiterApplies(cfg, endpoint, fault, JwtAuth(env)(h), w, r);
    LimiterApplies(cfg, endpoint, fault, h, w, r);
    var v := LimitDecision(cfg, endpoint, fault, w, r);
    if v.Pass? {
      AuthApplies(env, h, v.world, v.request);
    }
  }

  /** `/inference/predict` runs the JWT middleware a second time behind the limiter; it never does
      anything. */
  lemma SecondJwtIsNoOp(env: Env, cfg: ProperConfig, endpoint: string, fault: RateLimit.Fault, h: Handler)
    ensures Same(Compose([AuthEither(env), Limiter(cfg, endpoint, fault), JwtAuth(env)], h),
                 Compose([AuthEither(env), Limiter(cfg, endpoint, fault)], h))
  {
    var lim := Limiter(cfg, endpoint, fault);
    ComposeThree(AuthEither(env), lim, JwtAuth(env), h);
    ComposeTwo(AuthEither(env), lim, h);
    forall w: World, r: Request
      ensures AuthEither(env)(lim(JwtAuth(env)(h)))(w, r) == AuthEither(env)(lim(h))(w, r)
    {
      AuthEitherDecides(env, lim(JwtAuth(env)(h)), w, r);
      AuthEitherDecides(env, lim(h), w, r);
      var v := AuthVerdict(env, w, r);
      if v.Pass? {
        JwtBehindLimiter(env, cfg, endpoint, fault, h, v.world, v.request);
      }
    }
  }

  // ---- the limiter inside the stacks ----

  /** How often the counter has been charged in its present life. */
  function CountIn(s: Store<Key>, k: Key, now: int): int {
    if k in s && now < s[k].expiry && s[k].value.Count? then s[k].value.n else 0
  }

  /** The counter of the caller in the present window. */
  function CallersCounter(cfg: ProperConfig, id: Identity, endpoint: string, now: int): Key {
    Window(if id.apiKey.Some? then ApiKey(id.apiKey.value) else Subject.User(id.user), endpoint, UnixStart(cfg, now))
  }

  /** Under counter names there are only counters. */
  ghost predicate OnlyCounters(s: Store<Key>) {
    forall k | k in s && k.Window? :: s[k].value.Count?
  }

  /** The limiter passes a request on exactly if the caller has been charged less than the limit: the
      key's own rate for a key with a rate, else the limit for bearer tokens. Else it is the limiter
      that answers, with 429. */
  lemma LimitVerdict(cfg: ProperConfig, endpoint: string, w: World, r: Request)
    requires r.identity.Some? && OnlyCounters(w.repo.redis)
    ensures
      var v, id, now := LimitDecision(cfg, endpoint, RateLimit.NoFault, w, r), r.identity.value, w.repo.now;
      var count := CountIn(w.repo.redis, CallersCounter(cfg, id, endpoint, now), now);
      var limit := if id.apiKey.Some? && id.rate.Some? then id.rate.value else cfg.jwtLimit;
      && (v.Pass? <==> count < limit)
      && (v.Pass? ==> v.request == r)
      && (v.Stop? ==> v.response == Response(429, "rate limit exceeded"))
      && v.world.users == w.users && v.world.repo.table == w.repo.table && v.world.repo.now == now
      && Charged(cfg, w, v.world, CallersCounter(cfg, id, endpoint, now))
  {
  }

  /** The request has been counted, admitted or not, and nothing else in Redis has changed. */
  ghost predicate Charged(cfg: ProperConfig, w: World, w': World, k: Key) {
    && w'.repo.now == w.repo.now
    && (cfg.window >= cfg.perSecond ==>
          CountIn(w'.repo.redis, k, w.repo.now) == CountIn(w.repo.redis, k, w.repo.now) + 1)
    && (forall j | j != k :: (j in w'.repo.redis <==> j in w.repo.redis)
                             && (j in w.repo.redis ==> w'.repo.redis[j] == w.repo.redis[j]))
  }

  /** A failing Redis, or no identity, is answered 500 and nothing is passed on. */
  lemma LimitFaults(cfg: ProperConfig, endpoint: string, fault: RateLimit.Fault, w: World, r: Request)
    requires r.identity.None? || fault != RateLimit.NoFault
    ensures
      var v := LimitDecision(cfg, endpoint, fault, w, r);
      v.Stop? && v.response.status == 500
  {
  }

  /** `/inference`: behind the auth stack and the limiter the handler is reached exactly if the auth
      verdict passes and the caller is below the limit, and then with the attached identity; at or
      beyond the limit the answer is 429, for every handler. */
  lemma InferenceReachedIff(env: Env, cfg: ProperConfig, endpoint: string, h: Handler, w: World, r: Request)
    requires r.identity.None? && OnlyCounters(AuthVerdict(env, w, r).world.repo.redis)
    ensures
      var v, stack := AuthVerdict(env, w, r), Compose([AuthEither(env), Limiter(cfg, endpoint, RateLimit.NoFault)], h);
      match v
      case Stop(w1, response) => stack(w, r) == (w1, response)
      case Pass(w1, r1) =>
        && r1.identity.Some? && r1 == r.(identity := r1.identity)
        && var id, now := r1.identity.value, w1.repo.now;
           var count := CountIn(w1.repo.redis, CallersCounter(cfg, id, endpoint, now), now);
           var limit := if id.apiKey.Some? && id.rate.Some? then id.rate.value else cfg.jwtLimit;
           var counter := CallersCounter(cfg, id, endpoint, now);
           if count < limit then exists w2: World :: stack(w, r) == h(w2, r1) && Charged(cfg, w1, w2, counter)
           else stack(w, r).1 == Response(429, "rate limit exceeded") && Charged(cfg, w1, stack(w, r).0, counter)
  {
    var lim := Limiter(cfg, endpoint, RateLimit.NoFault);
    ComposeTwo(AuthEither(env), lim, h);
    AuthEitherDecides(env, lim(h), w, r);
    var v := AuthVerdict(env, w, r);
    if v.Pass? {
      AuthVerdictRules(env, w, r);
      LimiterApplies(cfg, endpoint, RateLimit.NoFault, h, v.world, v.request);
      LimitVerdict(cfg, endpoint, v.world, v.request);
    }
  }

  // ---- what the final check is for, on the router's own stacks ----

  lemma MiddlewaresAreExtensional(env: Env, cfg: ProperConfig, endpoint: string, fault: RateLimit.Fault)
    ensures Extensional(ApiKeyAuth(env)) && Extensional(JwtAuth(env)) && Extensional(FinalAuthCheck())
    ensures Extensional(Limiter(cfg, endpoint, fault))
  {
    GatesAreExtensional((w: World, r: Request) => ApiKeyDecision(env, w, r));
    GatesAreExtensional((w: World, r: Request) => JwtDecision(env, w, r));
    GatesAreExtensional((w: World, r: Request) => FinalDecision(w, r));
    GatesAreExtensional((w: World, r: Request) => LimitDecision(cfg, endpoint, fault, w, r));
  }

  /** On `/vendor` and `/inference` no handler is ever reached without an identity. */
  lemma AuthEitherGuards(env: Env, cfg: ProperConfig, endpoint: string, fault: RateLimit.Fault,
      f: Handler, g: Handler)
    requires forall w: World, r: Request | r.identity.Some? :: f(w, r) == g(w, r)
    ensures Same(AuthEither(env)(f), AuthEither(env)(g))
    ensures Same(Compose([AuthEither(env), Limiter(cfg, endpoint, fault)], f),
                 Compose([AuthEither(env), Limiter(cfg, endpoint, fault)], g))
  {
    var lim := Limiter(cfg, endpoint, fault);
    AuthEitherGuarded(env, cfg, endpoint, fault, f, g);
    ComposeTwo(AuthEither(env), lim, f);
    ComposeTwo(AuthEither(env), lim, g);
    forall w: World, r: Request | r.identity.Some? ensures lim(f)(w, r) == lim(g)(w, r) {
      LimiterApplies(cfg, endpoint, fault, f, w, r);
      LimiterApplies(cfg, endpoint, fault, g, w, r);
    }
    AuthEitherGuarded(env, cfg, endpoint, fault, lim(f), lim(g));
  }

  lemma AuthEitherGuarded(env: Env, cfg: ProperConfig, endpoint: string, fault: RateLimit.Fault,
      f: Handler, g: Handler)
    requires forall w: World, r: Request | r.identity.Some? :: f(w, r) == g(w, r)
    ensures Same(AuthEither(env)(f), AuthEither(env)(g))
  {
    MiddlewaresAreExtensional(env, cfg, endpoint, fault);
    var ms := [ApiKeyAuth(env), JwtAuth(env)];
    FinalCheckGuards(ms, f, g);
    assert ms + [FinalAuthCheck()] == [ApiKeyAuth(env), JwtAuth(env), FinalAuthCheck()];
    assert AuthEither(env)(f) == Compose(ms + [FinalAuthCheck()], f);
    assert AuthEither(env)(g) == Compose(ms + [FinalAuthCheck()], g);
  }

  // ---- /fraud ----

  function FraudStack(env: Env, cfg: ProperConfig, endpoint: string, fault: RateLimit.Fault): seq<Middleware> {
    [ApiKeyAuth(env), Limiter(cfg, endpoint, fault)]
  }

  function FraudVerdict(env: Env, cfg: ProperConfig, endpoint: string, fault: RateLimit.Fault,
                        w: World, r: Request): Verdict
  {
    match ApiKeyDecision(env, w, r)
    case Stop(w1, response) => Stop(w1, response)
    case Pass(w1, r1) => LimitDecision(cfg, endpoint, fault, w1, r1)
  }

  lemma FraudDecides(env: Env, cfg: ProperConfig, endpoint: string, fault: RateLimit.Fault,
      h: Handler, w: World, r: Request)
    ensures Compose(FraudStack(env, cfg, endpoint, fault), h)(w, r)
            == Resolve(FraudVerdict(env, cfg, endpoint, fault, w, r), h)
  {
    var lim := Limiter(cfg, endpoint, fault);
    ComposeTwo(ApiKeyAuth(env), lim, h);
    AuthApplies(env, lim(h), w, r);
    var v := ApiKeyDecision(env, w, r);
    if v.Pass? {
      LimiterApplies(cfg, endpoint, fault, h, v.world, v.request);
    }
  }

  /** `/fraud` has no final check: a request without an API key is stopped by the limiter, with
      status 500 and not 401, and never reaches the handler, whatever bearer token it carries. */
  lemma FraudWithoutKey(env: Env, cfg: ProperConfig, endpoint: string, fault: RateLimit.Fault,
      h: Handler, w: World, r: Request)
    requires r.apiKey == "" && r.identity.None?
    ensures Compose(FraudStack(env, cfg, endpoint, fault), h)(w, r).1
            == Response(500, "identity not found in context")
  {
    FraudDecides(env, cfg, endpoint, fault, h, w, r);
  }

  /** Who reaches the handler on `/fraud`: only a request whose API key the repository backs, with
      the identity of that key. What a handler does with any other request makes no difference. */
  lemma FraudGuards(env: Env, cfg: ProperConfig, endpoint: string, fault: RateLimit.Fault,
      f: Handler, g: Handler, w: World, r: Request)
    requires r.identity.None?
    requires forall w': World, r': Request
               | r'.identity.Some? && KeyBacked(env, w, r.apiKey, r'.identity.value) :: f(w', r') == g(w', r')
    ensures Compose(FraudStack(env, cfg, endpoint, fault), f)(w, r)
            == Compose(FraudStack(env, cfg, endpoint, fault), g)(w, r)
  {
    FraudDecides(env, cfg, endpoint, fault, f, w, r);
    FraudDecides(env, cfg, endpoint, fault, g, w, r);
    var v := FraudVerdict(env, cfg, endpoint, fault, w, r);
    if v.Pass? {
      FraudPassed(env, cfg, endpoint, fault, w, r);
    }
  }

  lemma FraudPassed(env: Env, cfg: ProperConfig, endpoint: string, fault: RateLimit.Fault, w: World, r: Request)
    requires r.identity.None? && FraudVerdict(env, cfg, endpoint, fault, w, r).Pass?
    ensures
      var passed := FraudVerdict(env, cfg, endpoint, fault, w, r).request;
      && passed.identity.Some? && passed == r.(identity := passed.identity)
      && r.apiKey != "" && KeyBacked(env, w, r.apiKey, passed.identity.value)
      && (KeyRepo.Coherent(w.repo) ==> FromKey(env, w, r.apiKey, passed.identity.value))
  {
    var id := FraudVerdict(env, cfg, endpoint, fault, w, r).request.identity.value;
    if KeyRepo.Coherent(w.repo) {
      CoherentBacked(env, w, r.apiKey, id);
    }
  }

  /** An active row has the hash of the key. */
  ghost predicate HasActiveRow(env: Env, w: World, apiKey: string) {
    exists k | k in w.repo.table.rows ::
      w.repo.table.rows[k].hash == env.hash(apiKey) && w.repo.table.rows[k].active
  }

  /** Short of database errors, `/fraud` answers 401 exactly to a non-empty key that the repository
      does not know or holds inactive; while the cache is coherent, exactly to a non-empty key
      without an active row. */
  lemma FraudStatus(env: Env, cfg: ProperConfig, endpoint: string, fault: RateLimit.Fault, w: World, r: Request)
    requires r.identity.None? && !env.lookupFault && !env.userFault
    ensures
      var v, f := FraudVerdict(env, cfg, endpoint, fault, w, r), Served(env, w, env.hash(r.apiKey));
      var refused := v.Stop? && v.response.status == 401;
      && (refused <==> r.apiKey != "" && !(f.Some? && f.value.active))
      && (KeyRepo.Coherent(w.repo) ==> (refused <==> r.apiKey != "" && !HasActiveRow(env, w, r.apiKey)))
  {
    if KeyRepo.Coherent(w.repo) {
      var l := Looked(env, w, r.apiKey);
    }
  }

  /** `/fraud`: behind the key middleware and the limiter the handler is reached exactly if the
      repository backs the key and the key is below its rate; at or beyond it the answer is 429, for
      every handler. */
  lemma FraudReachedIff(env: Env, cfg: ProperConfig, endpoint: string, h: Handler, w: World, r: Request)
    requires r.identity.None? && OnlyCounters(ApiKeyDecision(env, w, r).world.repo.redis)
    ensures
      var v, stack := ApiKeyDecision(env, w, r), Compose(FraudStack(env, cfg, endpoint, RateLimit.NoFault), h);
      match v
      case Stop(w1, response) => stack(w, r) == (w1, response)
      case Pass(w1, r1) =>
        if r1.identity.None? then stack(w, r).1.status == 500
        else
          && KeyBacked(env, w, r.apiKey, r1.identity.value)
          && r1.identity.value.apiKey.Some? && r1.identity.value.rate.Some?
          && var id, now := r1.identity.value, w1.repo.now;
             var count := CountIn(w1.repo.redis, CallersCounter(cfg, id, endpoint, now), now);
             var counter := CallersCounter(cfg, id, endpoint, now);
             if count < id.rate.value then
               exists w2: World :: stack(w, r) == h(w2, r1) && Charged(cfg, w1, w2, counter)
             else
               stack(w, r).1 == Response(429, "rate limit exceeded") && Charged(cfg, w1, stack(w, r).0, counter)
  {
    FraudDecides(env, cfg, endpoint, RateLimit.NoFault, h, w, r);
    var v := ApiKeyDecision(env, w, r);
    if v.Pass? && v.request.identity.Some? {
      LimitVerdict(cfg, endpoint, v.world, v.request);
    }
  }
}
