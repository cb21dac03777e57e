/** The authentication middlewares and the stacks the router builds from them. */
module Auth {
  import opened Text
  import opened RedisKeys
  import opened Redis
  import opened KeyTable
  import KeyRepo
  import opened Identities
  import opened Float64

  datatype User = User(id: int, plan: string)

  type Users = m: map<int, User> | forall u | u in m :: m[u].id == u

  datatype AnyWorld = World(repo: KeyRepo.State, users: Users)

  /** Everything a handler can see or change: the key repository and the users. The cache may hold
      anything, in particular entries of deleted keys. */
  type World = w: AnyWorld | WellFormed(w.repo.table)
    witness World(KeyRepo.State(EMPTY, map[], 0), map[])

  /** The X-API-Key and Authorization headers, empty when absent, and the context's identity. */
  datatype Request = Request(apiKey: string, authorization: string, identity: Option<Identity>)
  datatype Response = Response(status: int, message: string)

  type Handler = (World, Request) -> (World, Response)
  type Middleware = Handler -> Handler

  // ---- Chain ----

  /** The first middleware is outermost. */
  function Compose(ms: seq<Middleware>, next: Handler): Handler {
    if ms == [] then next else ms[0](Compose(ms[1..], next))
  }

  method Chain(ms: seq<Middleware>, next: Handler) returns (h: Handler)
    ensures h == Compose(ms, next)
  {
    h := next;
    var i := |ms|;
    while i > 0
      invariant 0 <= i <= |ms|
      invariant h == Compose(ms[i..], next)
    {
      i := i - 1;
      h := ms[i](h);
      assert ms[i..][1..] == ms[i + 1..];
    }
    assert ms[0..] == ms;
  }

  lemma {:induction false} ChainOfChains(xs: seq<Middleware>, ys: seq<Middleware>, next: Handler)
    ensures Compose(xs + ys, next) == Compose(xs, Compose(ys, next))
  {
    if xs == [] {
      assert xs + ys == ys;
    } else {
      ChainOfChains(xs[1..], ys, next);
      assert (xs + ys)[1..] == xs[1..] + ys;
    }
  }

  lemma ComposeTwo(a: Middleware, b: Middleware, h: Handler)
    ensures Compose([a, b], h) == a(b(h))
  {
    assert [a, b][1..] == [b] && [b][1..] == [];
    assert Compose([b], h) == b(h);
  }

  lemma ComposeThree(a: Middleware, b: Middleware, c: Middleware, h: Handler)
    ensures Compose([a, b, c], h) == a(b(c(h)))
  {
    assert [a, b, c][1..] == [b, c];
    ComposeTwo(b, c, h);
  }

  // ---- the middlewares ----

  /** Every middleware of the service either passes one request on or answers itself. */
  datatype Verdict = Pass(world: World, request: Request) | Stop(world: World, response: Response)

  type Decision = (World, Request) -> Verdict

  function Resolve(v: Verdict, next: Handler): (World, Response) {
    match v
    case Pass(w: World, r: Request) => next(w, r)
    case Stop(w, response) => (w, response)
  }

  function Gated(d: Decision, next: Handler): Handler {
    (w: World, r: Request) => Resolve(d(w, r), next)
  }

  function Gate(d: Decision): Middleware {
    (next: Handler) => Gated(d, next)
  }

  lemma GateApplies(d: Decision, next: Handler, w: World, r: Request)
    ensures Gate(d)(next)(w, r) == Resolve(d(w, r), next)
  {
    assert Gate(d)(next) == Gated(d, next);
  }

  datatype Json = Num(x: real) | NotANumber
  datatype Claims = Claims(userId: Json)

  type Positive = x: int | x > 0 witness 1

  /** What the middlewares are built over. `parse` is the JWT library with the secret; the faults
      are database errors. */
  datatype Env = Env(
    ttl: Positive,
    cached: bool,
    hash: string -> Hash,
    parse: (string, int) -> Option<Claims>,
    pause: KeyRepo.Pause,
    lookupFault: bool,
    userFault: bool,
    touchFault: bool)

  /** What the repository serves for a hash: the live cache entry if there is one, else the row. */
  function Served(env: Env, w: World, h: Hash): Option<Found> {
    if env.cached && KeyRepo.IsHit(w.repo, h, w.repo.now + env.pause.a)
    then Some(FoundCached(w.repo.redis[HashKey(h)].value.row, h))
    else SelectByHash(w.repo.table, h)
  }

  function Looked(env: Env, w: World, apiKey: string): (r: (World, Option<Found>))
    ensures r.0.users == w.users && r.0.repo.table == w.repo.table
    ensures r.1 == Served(env, w, env.hash(apiKey))
    ensures KeyRepo.Coherent(w.repo) ==>
              KeyRepo.Coherent(r.0.repo) && r.1 == SelectByHash(w.repo.table, env.hash(apiKey))
  {
    var (s, f) := KeyRepo.Lookup(w.repo, env.cached, env.ttl, env.hash(apiKey), env.pause);
    LookupServes(env, w, env.hash(apiKey), s, f);
    (World(s, w.users), f)
  }

  lemma LookupServes(env: Env, w: World, h: Hash, s: KeyRepo.State, f: Option<Found>)
    requires (s, f) == KeyRepo.Lookup(w.repo, env.cached, env.ttl, h, env.pause)
    ensures s.table == w.repo.table && f == Served(env, w, h)
    ensures KeyRepo.Coherent(w.repo) ==> KeyRepo.Coherent(s) && f == SelectByHash(s.table, h)
  {
    if env.cached {
      KeyRepo.LookupSplits(w.repo, env.ttl, h, env.pause);
      if KeyRepo.Coherent(w.repo) {
        KeyRepo.LookupIsSelect(w.repo, env.ttl, h, env.pause, s, f);
      }
    } else if KeyRepo.Coherent(w.repo) {
      KeyRepo.WaitingKeepsCoherence(w.repo, env.pause.b);
    }
  }

  function Touched(env: Env, w: World, id: int): (r: World)
    ensures r.users == w.users && r.repo.redis == w.repo.redis && r.repo.table.rows == w.repo.table.rows
  {
    if env.touchFault then w
    else World(w.repo.(table := Touch(w.repo.table, id, w.repo.now)), w.users)
  }

  // ---- who a key or a token stands for ----

  datatype Ruling = Allow(identity: Identity) | Deny(response: Response)

  /** The identity of a key's owner calling with that key. */
  function KeyIdentity(f: Found, plan: string): Identity {
    Identity(f.user, plan, Some(f.id), Some(f.rate))
  }

  /** What follows from the answer of the lookup. */
  function JudgeKey(users: Users, userFault: bool, f: Option<Found>): (r: Ruling)
    ensures r.Allow? ==> f.Some? && f.value.active && f.value.user in users
                         && r.identity == KeyIdentity(f.value, users[f.value.user].plan)
  {
    if f.None? then Deny(Response(401, "invalid API key"))
    else if !f.value.active then Deny(Response(401, "API key is not active"))
    else if userFault || f.value.user !in users then Deny(Response(500, "could not retrieve user"))
    else
      var u := users[f.value.user];
      Allow(Identity(u.id, u.plan, Some(f.value.id), Some(f.value.rate)))
  }

  /** What follows from the answer of the JWT library. */
  function JudgeToken(users: Users, userFault: bool, claims: Option<Claims>): (r: Ruling)
    ensures r.Allow? ==> r.identity.user in users && r.identity.apiKey.None? && r.identity.rate.None?
  {
    if claims.None? then Deny(Response(401, "invalid token"))
    else if !claims.value.userId.Num? then Deny(Response(401, "invalid token claims"))
    else
      var uid := ToInt64(claims.value.userId.x);
      if userFault || uid !in users then Deny(Response(500, "could not retrieve user"))
      else Allow(Identity(users[uid].id, users[uid].plan, None, None))
  }

  function ApiKeyDecision(env: Env, w: World, r: Request): Verdict {
    if r.apiKey == "" then Pass(w, r)
    else if env.lookupFault then Stop(w, Response(500, "could not retrieve API key"))
    else
      var (w1, f) := Looked(env, w, r.apiKey);
      match JudgeKey(w.users, env.userFault, f)
      case Deny(response) => Stop(w1, response)
      case Allow(id) => Pass(Touched(env, w1, f.value.id), r.(identity := Some(id)))
  }

  /** The token of a well-formed bearer header. */
  function BearerToken(header: string): Option<string> {
    var parts := Split(header, ' ');
    if |parts| == 2 && Lower(parts[0]) == "bearer" then Some(parts[1]) else None
  }

  function JwtDecision(env: Env, w: World, r: Request): Verdict {
    if r.identity.Some? || r.authorization == "" || BearerToken(r.authorization).None? then Pass(w, r)
    else
      match JudgeToken(w.users, env.userFault, env.parse(BearerToken(r.authorization).value, w.repo.now))
      case Deny(response) => Stop(w, response)
      case Allow(id) => Pass(w, r.(identity := Some(id)))
  }

  function FinalDecision(w: World, r: Request): Verdict {
    if r.identity.None? then Stop(w, Response(401, "unauthorized")) else Pass(w, r)
  }

  function ApiKeyAuth(env: Env): Middleware {
    Gate((w: World, r: Request) => ApiKeyDecision(env, w, r))
  }

  function JwtAuth(env: Env): Middleware {
    Gate((w: World, r: Request) => JwtDecision(env, w, r))
  }

  function FinalAuthCheck(): Middleware {
    Gate((w: World, r: Request) => FinalDecision(w, r))
  }

  function AuthEither(env: Env): Middleware {
    (next: Handler) => Compose([ApiKeyAuth(env), JwtAuth(env), FinalAuthCheck()], next)
  }

  lemma AuthApplies(env: Env, next: Handler, w: World, r: Request)
    ensures ApiKeyAuth(env)(next)(w, r) == Resolve(ApiKeyDecision(env, w, r), next)
    ensures JwtAuth(env)(next)(w, r) == Resolve(JwtDecision(env, w, r), next)
    ensures FinalAuthCheck()(next)(w, r) == Resolve(FinalDecision(w, r), next)
  {
    GateApplies((w: World, r: Request) => ApiKeyDecision(env, w, r), next, w, r);
    GateApplies((w: World, r: Request) => JwtDecision(env, w, r), next, w, r);
    GateApplies((w: World, r: Request) => FinalDecision(w, r), next, w, r);
  }

  // ---- safety of any chain that ends in the final check ----

  ghost predicate Same(f: Handler, g: Handler) {
    forall w: World, r: Request :: f(w, r) == g(w, r)
  }

  /** A middleware that treats its successor as a black box. */
  ghost predicate Extensional(m: Middleware) {
    forall f: Handler, g: Handler | Same(f, g) :: Same(m(f), m(g))
  }

  lemma GatesAreExtensional(d: Decision)
    ensures Extensional(Gate(d))
  {
    forall f: Handler, g: Handler | Same(f, g) ensures Same(Gate(d)(f), Gate(d)(g)) {
      forall w: World, r: Request ensures Gate(d)(f)(w, r) == Gate(d)(g)(w, r) {
        GateApplies(d, f, w, r);
        GateApplies(d, g, w, r);
      }
    }
  }

  lemma {:induction false} ComposeExtensional(ms: seq<Middleware>, f: Handler, g: Handler)
    requires forall m | m in ms :: Extensional(m)
    requires Same(f, g)
    ensures Same(Compose(ms, f), Compose(ms, g))
  {
    if ms != [] {
      ComposeExtensional(ms[1..], f, g);
      assert Extensional(ms[0]);
    }
  }

  /** Behind `finalAuthCheck` a handler is reached only with an identity: what it would do without
      one makes no difference to any chain, whatever middlewares come before. */
  lemma FinalCheckGuards(ms: seq<Middleware>, f: Handler, g: Handler)
    requires forall m | m in ms :: Extensional(m)
    requires forall w: World, r: Request | r.identity.Some? :: f(w, r) == g(w, r)
    ensures Same(Compose(ms + [FinalAuthCheck()], f), Compose(ms + [FinalAuthCheck()], g))
  {
    var last := [FinalAuthCheck()];
    ChainOfChains(ms, last, f);
    ChainOfChains(ms, last, g);
    assert last[1..] == [];
    assert Compose(last, f) == FinalAuthCheck()(f) && Compose(last, g) == FinalAuthCheck()(g);
    forall w: World, r: Request ensures FinalAuthCheck()(f)(w, r) == FinalAuthCheck()(g)(w, r) {
      GateApplies((w: World, r: Request) => FinalDecision(w, r), f, w, r);
      GateApplies((w: World, r: Request) => FinalDecision(w, r), g, w, r);
    }
    ComposeExtensional(ms, Compose(last, f), Compose(last, g));
  }

  // ---- AuthEither ----

  function AuthVerdict(env: Env, w: World, r: Request): Verdict {
    match ApiKeyDecision(env, w, r)
    case Stop(w1, response) => Stop(w1, response)
    case Pass(w1, r1) =>
      match JwtDecision(env, w1, r1)
      case Stop(w2, response) => Stop(w2, response)
      case Pass(w2, r2) => FinalDecision(w2, r2)
  }

  /** The whole stack decides before and independently of the handler behind it. */
  lemma AuthEitherDecides(env: Env, h: Handler, w: World, r: Request)
    ensures AuthEither(env)(h)(w, r) == Resolve(AuthVerdict(env, w, r), h)
  {
    ComposeThree(ApiKeyAuth(env), JwtAuth(env), FinalAuthCheck(), h);
    var inner := FinalAuthCheck()(h);
    var middle := JwtAuth(env)(inner);
    assert AuthEither(env)(h) == ApiKeyAuth(env)(middle);
    AuthApplies(env, middle, w, r);
    var v := ApiKeyDecision(env, w, r);
    if v.Pass? {
      AuthApplies(env, inner, v.world, v.request);
      var v' := JwtDecision(env, v.world, v.request);
      if v'.Pass? {
        AuthApplies(env, h, v'.world, v'.request);
      }
    }
  }

  // ---- tokens ----

  /** The claims that matter, as they stand in the token's JSON. */
  datatype Payload = Payload(userId: string, exp: int)

  function Issue(user: int, now: int, timeout: int): Payload {
    Payload(Decimal(user), now + timeout)
  }

  /** The library decodes JSON numbers as float64. */
  function Decode(p: Payload): Claims {
    Claims(Num(Nearest(IntValueNat(p.userId)) as real))
  }

  /** `p` is what the service signs for user `n`; ids are positive and fit an int64. */
  predicate IssuedTo(p: Payload, n: nat) {
    1 <= n < TWO_63 && p.userId == Decimal(n)
  }

  /** `token` is the signed form of a payload issued to `n` that has not expired. */
  predicate Carries(sign: Payload -> string, token: string, now: int, p: Payload, n: nat) {
    IssuedTo(p, n) && token == sign(p) && now < p.exp
  }

  /** Verification accepts exactly the unexpired tokens that the service signed, and returns the
      claims in them. A token has its payload in it, so no two payloads share one, and no spaces. */
  ghost predicate Sound(sign: Payload -> string, parse: (string, int) -> Option<Claims>) {
    && (forall token: string, now: int, p: Payload, n: nat | Carries(sign, token, now, p, n) ::
          parse(token, now) == Some(Decode(p)))
    && (forall token: string, now: int | parse(token, now).Some? ::
          exists p: Payload, n: nat :: Carries(sign, token, now, p, n))
    && (forall p: Payload, q: Payload | sign(p) == sign(q) :: p == q)
    && (forall p: Payload :: ' ' !in sign(p))
  }

  // Such a scheme exists: the payload itself, in letters without spaces.

  function Spell(s: string): string {
    if s == "" then "" else Decimal(s[0] as int) + [','] + Spell(s[1..])
  }

  lemma {:induction false} SpellHasNoSpace(s: string)
    ensures ' ' !in Spell(s)
  {
    if s != "" {
      DecimalNatRoundTrip(s[0] as int);
      SpellHasNoSpace(s[1..]);
    }
  }

  lemma {:induction false} SpellInjective(s: string, t: string)
    requires Spell(s) == Spell(t)
    ensures s == t
  {
    if s != "" && t != "" {
      DecimalNatRoundTrip(s[0] as int);
      DecimalNatRoundTrip(t[0] as int);
      FirstDelimiter(Decimal(s[0] as int), Spell(s[1..]), Decimal(t[0] as int), Spell(t[1..]), ',');
      SpellInjective(s[1..], t[1..]);
      assert s == [s[0]] + s[1..] && t == [t[0]] + t[1..];
    }
  }

  function SpellPayload(p: Payload): string {
    Decimal(p.exp) + [':'] + Spell(p.userId)
  }

  lemma SpellPayloadInjective(p: Payload, q: Payload)
    requires SpellPayload(p) == SpellPayload(q)
    ensures p == q
  {
    DecimalRoundTrip(p.exp);
    DecimalRoundTrip(q.exp);
    FirstDelimiter(Decimal(p.exp), Spell(p.userId), Decimal(q.exp), Spell(q.userId), ':');
    SpellInjective(p.userId, q.userId);
  }

  lemma SpellPayloadHasNoSpace(p: Payload)
    ensures ' ' !in SpellPayload(p)
  {
    DecimalNatRoundTrip(if p.exp < 0 then -p.exp else p.exp);
    SpellHasNoSpace(p.userId);
  }

  ghost function ParseSpelled(token: string, now: int): Option<Claims> {
    if p: Payload, n: nat :| Carries(SpellPayload, token, now, p, n) then Some(Decode(p)) else None
  }

  lemma SoundIsPossible()
    ensures exists sign: Payload -> string, parse: (string, int) -> Option<Claims> :: Sound(sign, parse)
  {
    var sign: Payload -> string := SpellPayload;
    var parse: (string, int) -> Option<Claims> := (token: string, now: int) => ParseSpelled(token, now);
    forall p: Payload, q: Payload | sign(p) == sign(q) ensures p == q {
      SpellPayloadInjective(p, q);
    }
    forall p: Payload ensures ' ' !in sign(p) {
      SpellPayloadHasNoSpace(p);
    }
    assert Sound(sign, parse);
  }

  /** The claim of a token issued to `n`, as the middleware reads it. */
  lemma ClaimOf(p: Payload, n: nat)
    requires IssuedTo(p, n)
    ensures Decode(p).userId.Num? && ToInt64(Decode(p).userId.x) == Survivor(n)
  {
  }

  // ---- AuthEither: who gets past ----

  /** An identity as the repository supports it at the moment: an active key, cached or in the table,
      and its owner. */
  ghost predicate KeyBacked(env: Env, w: World, apiKey: string, id: Identity) {
    var f := Served(env, w, env.hash(apiKey));
    && f.Some? && f.value.active && f.value.user in w.users
    && id == KeyIdentity(f.value, w.users[f.value.user].plan)
  }

  /** An identity as the table supports it: an active row with the key's hash, and its owner. */
  ghost predicate FromKey(env: Env, w: World, apiKey: string, id: Identity) {
    exists k | k in w.repo.table.rows ::
      var row := w.repo.table.rows[k];
      && row.hash == env.hash(apiKey) && row.active && row.user in w.users
      && id == Identity(row.user, w.users[row.user].plan, Some(k), Some(row.rate))
  }

  /** An identity as a bearer header supports it: the user that is left of `n` when a token issued
      to `n`, signed and unexpired, has been read. */
  ghost predicate FromToken(sign: Payload -> string, w: World, header: string, id: Identity) {
    exists p: Payload, n: nat ::
      && BearerToken(header).Some? && Carries(sign, BearerToken(header).value, w.repo.now, p, n)
      && Survivor(n) in w.users
      && id == Identity(Survivor(n), w.users[Survivor(n)].plan, None, None)
  }

  /** While the cache is coherent, what it serves is what the table holds. */
  lemma CoherentBacked(env: Env, w: World, apiKey: string, id: Identity)
    requires KeyRepo.Coherent(w.repo)
    ensures KeyBacked(env, w, apiKey, id) <==> FromKey(env, w, apiKey, id)
  {
    var r := Looked(env, w, apiKey);
    var f := SelectByHash(w.repo.table, env.hash(apiKey));
    if FromKey(env, w, apiKey, id) {
      var k :| k in w.repo.table.rows && w.repo.table.rows[k].hash == env.hash(apiKey);
      assert f.Some? && f.value.id == k;
    }
  }

  /** The stack rules on nothing but the answer of the lookup or of the JWT library. */
  lemma AuthVerdictRules(env: Env, w: World, r: Request)
    requires r.identity.None?
    ensures
      var v := AuthVerdict(env, w, r);
      if r.apiKey != "" then
        if env.lookupFault then v == Stop(w, Response(500, "could not retrieve API key"))
        else
          match JudgeKey(w.users, env.userFault, Served(env, w, env.hash(r.apiKey)))
          case Deny(response) => v.Stop? && v.response == response
          case Allow(id) => v.Pass? && v.request == r.(identity := Some(id))
      else if BearerToken(r.authorization).None? then v == Stop(w, Response(401, "unauthorized"))
      else
        match JudgeToken(w.users, env.userFault, env.parse(BearerToken(r.authorization).value, w.repo.now))
        case Deny(response) => v == Stop(w, response)
        case Allow(id) => v == Pass(w, r.(identity := Some(id)))
  {
    NoTokenInEmptyHeader();
  }

  /** What is answered to a request with a key: by fault, unknown key, inactive key and missing owner,
      in this order. */
  lemma KeyAnswers(env: Env, w: World, r: Request)
    requires r.identity.None? && r.apiKey != ""
    ensures
      var v, f := AuthVerdict(env, w, r), Served(env, w, env.hash(r.apiKey));
      if env.lookupFault then v.Stop? && v.response == Response(500, "could not retrieve API key")
      else if f.None? then v.Stop? && v.response == Response(401, "invalid API key")
      else if !f.value.active then v.Stop? && v.response == Response(401, "API key is not active")
      else if env.userFault || f.value.user !in w.users then
        v.Stop? && v.response == Response(500, "could not retrieve user")
      else
        v.Pass? && v.request == r.(identity := Some(
          Identity(f.value.user, w.users[f.value.user].plan, Some(f.value.id), Some(f.value.rate))))
  {
    AuthVerdictRules(env, w, r);
  }

  /** And to one without: by missing or malformed header, invalid token, claims without a number, and
      missing user. */
  lemma TokenAnswers(env: Env, w: World, r: Request)
    requires r.identity.None? && r.apiKey == ""
    ensures
      var v, token := AuthVerdict(env, w, r), BearerToken(r.authorization);
      if token.None? then v == Stop(w, Response(401, "unauthorized"))
      else
        var claims := env.parse(token.value, w.repo.now);
        if claims.None? then v == Stop(w, Response(401, "invalid token"))
        else if claims.value.userId.NotANumber? then v == Stop(w, Response(401, "invalid token claims"))
        else
          var uid := ToInt64(claims.value.userId.x);
          if env.userFault || uid !in w.users then v == Stop(w, Response(500, "could not retrieve user"))
          else v == Pass(w, r.(identity := Some(Identity(uid, w.users[uid].plan, None, None))))
  {
    AuthVerdictRules(env, w, r);
  }

  lemma NoTokenInEmptyHeader()
    ensures BearerToken("").None?
  {
  }

  /** Nobody gets past `AuthEither` without an identity, and it is not made up, in any state of cache
      and table. */
  lemma AuthEitherSafe(env: Env, sign: Payload -> string, w: World, r: Request)
    requires Sound(sign, env.parse) && r.identity.None? && AuthVerdict(env, w, r).Pass?
    ensures
      var passed := AuthVerdict(env, w, r).request;
      && passed.identity.Some? && passed == r.(identity := passed.identity)
      && (if r.apiKey != "" then
            && KeyBacked(env, w, r.apiKey, passed.identity.value)
            && (KeyRepo.Coherent(w.repo) ==> FromKey(env, w, r.apiKey, passed.identity.value))
          else FromToken(sign, w, r.authorization, passed.identity.value))
  {
    AuthVerdictRules(env, w, r);
    var id := AuthVerdict(env, w, r).request.identity.value;
    if r.apiKey != "" {
      if KeyRepo.Coherent(w.repo) {
        CoherentBacked(env, w, r.apiKey, id);
      }
    } else {
      var token := BearerToken(r.authorization).value;
      var p, n :| Carries(sign, token, w.repo.now, p, n);
      ClaimOf(p, n);
    }
  }

  /** Short of database errors, exactly those get past whose key or token supports an identity. */
  lemma AuthEitherExact(env: Env, sign: Payload -> string, w: World, r: Request)
    requires Sound(sign, env.parse) && r.identity.None? && !env.lookupFault && !env.userFault
    ensures AuthVerdict(env, w, r).Pass? <==>
              if r.apiKey != "" then exists id: Identity :: KeyBacked(env, w, r.apiKey, id)
              else exists id: Identity :: FromToken(sign, w, r.authorization, id)
  {
    AuthVerdictRules(env, w, r);
    if AuthVerdict(env, w, r).Pass? {
      AuthEitherSafe(env, sign, w, r);
    }
  }

  /** Without an API key, a bearer token is turned away as invalid exactly if it is not the signed
      form of an unexpired payload; so whatever is expired or was never signed gets 401. */
  lemma InvalidTokenIff(env: Env, sign: Payload -> string, w: World, r: Request)
    requires Sound(sign, env.parse) && r.identity.None? && r.apiKey == "" && BearerToken(r.authorization).Some?
    ensures AuthVerdict(env, w, r) == Stop(w, Response(401, "invalid token")) <==>
              !exists p: Payload, n: nat ::
                Carries(sign, BearerToken(r.authorization).value, w.repo.now, p, n)
  {
    AuthVerdictRules(env, w, r);
    var token := BearerToken(r.authorization).value;
    if p: Payload, n: nat :| Carries(sign, token, w.repo.now, p, n) {
      ClaimOf(p, n);
    }
  }

  /** In particular a token that has expired, whoever it was issued to. */
  lemma ExpiredTokenRefused(env: Env, sign: Payload -> string, w: World, p: Payload)
    requires Sound(sign, env.parse) && p.exp <= w.repo.now
    ensures AuthVerdict(env, w, Request("", "Bearer " + sign(p), None)) == Stop(w, Response(401, "invalid token"))
  {
    BearerTokenOf(sign(p));
    InvalidTokenIff(env, sign, w, Request("", "Bearer " + sign(p), None));
  }

  /** A successful use of a key is recorded on the very key of the identity; nothing else changes in
      the table, and a request that is turned away changes nothing. */
  lemma KeyUseIsRecorded(env: Env, w: World, r: Request)
    requires r.identity.None?
    ensures
      var v := AuthVerdict(env, w, r);
      && v.world.users == w.users
      && (v.Pass? && r.apiKey != "" ==> v.request.identity.Some? && v.request.identity.value.apiKey.Some?)
      && v.world.repo.table ==
           if v.Pass? && r.apiKey != "" && !env.touchFault
           then Touch(w.repo.table, v.request.identity.value.apiKey.value, v.world.repo.now)
           else w.repo.table
  {
    KeyDecisionRecords(env, w, r, ApiKeyDecision(env, w, r));
  }

  lemma KeyDecisionRecords(env: Env, w: World, r: Request, v: Verdict)
    requires r.identity.None? && v == ApiKeyDecision(env, w, r)
    ensures v.world.users == w.users
    ensures v.Pass? && r.apiKey != "" ==> v.request.identity.Some? && v.request.identity.value.apiKey.Some?
    ensures v.world.repo.table ==
              if v.Pass? && r.apiKey != "" && !env.touchFault
              then Touch(w.repo.table, v.request.identity.value.apiKey.value, v.world.repo.now)
              else w.repo.table
  {
  }

  /** With an API key in the request the Authorization header decides nothing. */
  lemma AuthorizationIgnored(env: Env, w: World, r: Request, other: string)
    requires r.apiKey != ""
    ensures
      var v, v' := AuthVerdict(env, w, r), AuthVerdict(env, w, r.(authorization := other));
      match v
      case Stop(_, _) => v' == v
      case Pass(_, passed) => v' == v.(request := passed.(authorization := other))
  {
  }

  lemma BearerTokenOf(token: string)
    requires ' ' !in token
    ensures BearerToken("Bearer " + token) == Some(token)
  {
    assert "Bearer " + token == "Bearer" + [' '] + token;
    SplitOnce("Bearer", token, ' ');
    var l := Lower("Bearer");
    assert l[0] == 'b' && l[1] == 'e' && l[2] == 'a' && l[3] == 'r' && l[4] == 'e' && l[5] == 'r';
    assert l == "bearer";
  }

  /** A token is refused from the moment it was issued plus the timeout, and not before. */
  lemma TokenExpires(env: Env, sign: Payload -> string, w: World, n: nat, issuedAt: int, timeout: int)
    requires Sound(sign, env.parse) && 1 <= n < TWO_63
    ensures
      var r := Request("", "Bearer " + sign(Issue(n, issuedAt, timeout)), None);
      AuthVerdict(env, w, r) == Stop(w, Response(401, "invalid token")) <==> issuedAt + timeout <= w.repo.now
  {
    var p := Issue(n, issuedAt, timeout);
    var r := Request("", "Bearer " + sign(p), None);
    BearerTokenOf(sign(p));
    InvalidTokenIff(env, sign, w, r);
    if w.repo.now < issuedAt + timeout {
      assert Carries(sign, sign(p), w.repo.now, p, n);
    }
  }

  /** The scheme is "bearer" in any mixture of cases. */
  predicate IsBearer(scheme: string) {
    && |scheme| == 6
    && scheme[0] in "bB" && scheme[1] in "eE" && scheme[2] in "aA"
    && scheme[3] in "rR" && scheme[4] in "eE" && scheme[5] in "rR"
  }

  lemma LowerIsBearerIff(scheme: string)
    ensures Lower(scheme) == "bearer" <==> IsBearer(scheme)
  {
    var l := Lower(scheme);
    if |scheme| == 6 {
      assert l == "bearer" <==> l[0] == 'b' && l[1] == 'e' && l[2] == 'a' && l[3] == 'r' && l[4] == 'e' && l[5] == 'r';
    }
  }

  /** A header carries a token exactly if it is the scheme "bearer", in any case, one space, and the
      token; any other scheme, or another number of parts, carries none. */
  lemma BearerTokenIff(header: string, token: string)
    ensures BearerToken(header) == Some(token) <==>
              ' ' !in token && exists scheme: string :: ' ' !in scheme && IsBearer(scheme)
                                                        && header == scheme + [' '] + token
  {
    var parts := Split(header, ' ');
    SplitParts(header, ' ');
    if BearerToken(header) == Some(token) {
      LowerIsBearerIff(parts[0]);
      assert header == parts[0] + [' '] + parts[1] by {
        JoinTwo(parts, ' ');
      }
    }
    if scheme: string :| ' ' !in token && ' ' !in scheme && IsBearer(scheme) && header == scheme + [' '] + token {
      SplitOnce(scheme, token, ' ');
      LowerIsBearerIff(scheme);
    }
  }

  /** A token issued to user `n` and sent back in time authenticates exactly user `n` if and only
      if `n` is a float64, so for every id up to 2^53. */
  lemma TokenRoundTrip(env: Env, sign: Payload -> string, w: World, n: nat, issuedAt: int, timeout: int)
    requires Sound(sign, env.parse) && !env.userFault
    requires 1 <= n < TWO_63 && n in w.users && w.repo.now < issuedAt + timeout
    ensures
      var r := Request("", "Bearer " + sign(Issue(n, issuedAt, timeout)), None);
      var v := JwtDecision(env, w, r);
      && (v == Pass(w, r.(identity := Some(Identity(n, w.users[n].plan, None, None)))) <==> IsFloat64(n))
      && (n <= TWO_53 ==> IsFloat64(n))
  {
    var p := Issue(n, issuedAt, timeout);
    BearerTokenOf(sign(p));
    SurvivesIff(n);
    assert Carries(sign, sign(p), w.repo.now, p, n);
    ClaimOf(p, n);
  }

  // ---- the API-key middleware on the live repository ----

  datatype Outcome = Continue(request: Request) | Reject(response: Response)

  /** The middleware as it runs: the lookup may fill the cache, then the row's last use is set. */
  method AuthenticateByKey(env: Env, repo: KeyRepo.Repository, users: Users, r: Request)
    returns (out: Outcome)
    requires repo.Valid() && repo.ttl == env.ttl && repo.cached == env.cached
    modifies repo
    ensures repo.Valid()
    ensures
      var v := ApiKeyDecision(env, World(old(repo.Abs()), users), r);
      && v.world.repo == repo.Abs()
      && out == if v.Pass? then Continue(v.request) else Reject(v.response)
  {
    ghost var w: World := World(repo.Abs(), users);
    if r.apiKey == "" {
      return Continue(r);
    }
    if env.lookupFault {
      return Reject(Response(500, "could not retrieve API key"));
    }
    var f := repo.GetAPIKeyByHash(env.hash(r.apiKey), env.pause);
    if f.None? {
      return Reject(Response(401, "invalid API key"));
    }
    if !f.value.active {
      return Reject(Response(401, "API key is not active"));
    }
    if env.userFault || f.value.user !in users {
      return Reject(Response(500, "could not retrieve user"));
    }
    var user := users[f.value.user];
    if !env.touchFault {
      repo.UpdateAPIKeyLastUsed(f.value.id, repo.now);
    }
    var id := Identity(user.id, user.plan, Some(f.value.id), Some(f.value.rate));
    out := Continue(r.(identity := Some(id)));
  }
}
