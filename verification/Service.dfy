/** The service as a whole: key management, authentication, limiter and prediction handler in one run.
    What the other modules take as premises about each other holds here by construction. */
module Service {
  import opened Text
  import opened RedisKeys
  import opened Redis
  import opened KeyTable
  import opened KeyService
  import opened CacheProtocol
  import opened Identities
  import opened WindowArithmetic
  import opened RateLimit
  import opened RateLimitRuns
  import opened RateLimitUsers
  import opened EndToEnd
  import Auth
  import Predict

  const PREDICT := "/v1/inference/predict"
  const FRAUD := "/v1/fraud/predict"

  /** The repository's run so far, the accepted create requests, the users, and the requests that
      reached a limiter, each with what the handler would get. */
  datatype Site = Site(
    run: seq<State>,
    actions: seq<Action>,
    asked: map<nat, KeyRequest>,
    users: Auth.Users,
    log: seq<Visit>,
    inputs: seq<Predict.Input>)

  const START := Site([INITIAL], [], map[], map[], [], [])

  datatype Event =
    | Repository(action: Action)
    | CreateKey(call: nat, user: int, hash: Hash, request: KeyRequest)
    | UsersChange(users: Auth.Users)
    | WithKey(call: nat, apiKey: string, userFault: bool, visit: Visit, input: Predict.Input)
    | WithToken(claims: Option<Auth.Claims>, userFault: bool, visit: Visit, input: Predict.Input)

  function Now(s: Site): State
    requires s.run != []
  {
    s.run[|s.run| - 1]
  }

  /** Creates begin in the handler only. A request with a key waits for its own lookup, however that
      is interleaved, and is let through on its answer; `/fraud` knows no tokens. */
  ghost predicate Possible(s: Site, hash: string -> Hash, e: Event)
    requires s.run != []
  {
    match e
    case Repository(a) => Enabled(Now(s), a) && !(a.Begin? && a.request.Create?)
    case CreateKey(c, user, h, q) => Acceptable(q) && Enabled(Now(s), Begin(c, Create(ParamsFor(user, h, q))))
    case UsersChange(_) => true
    case WithKey(c, apiKey, userFault, v, i) =>
      && Answered(Now(s), c) && Now(s).requests[c] == Lookup(hash(apiKey))
      && v.identity.Some? && i.identity == v.identity
      && Auth.JudgeKey(s.users, userFault, AnswerOf(Now(s), c)) == Auth.Allow(v.identity.value)
    case WithToken(claims, userFault, v, i) =>
      && v.identity.Some? && i.identity == v.identity && v.endpoint != FRAUD
      && Auth.JudgeToken(s.users, userFault, claims) == Auth.Allow(v.identity.value)
  }

  ghost function Acted(s: Site, ttl: int, a: Action): Site
    requires s.run != [] && Enabled(Now(s), a)
  {
    s.(run := s.run + [Next(Now(s), ttl, a)], actions := s.actions + [a])
  }

  ghost function Happens(s: Site, ttl: int, hash: string -> Hash, e: Event): Site
    requires s.run != [] && Possible(s, hash, e)
  {
    match e
    case Repository(a) => Acted(s, ttl, a)
    case CreateKey(c, user, h, q) =>
      Acted(s.(asked := s.asked[c := q]), ttl, Begin(c, Create(ParamsFor(user, h, q))))
    case UsersChange(users) => s.(users := users)
    case WithKey(_, _, _, v, i) => s.(log := s.log + [v], inputs := s.inputs + [i])
    case WithToken(_, _, v, i) => s.(log := s.log + [v], inputs := s.inputs + [i])
  }

  /** Whoever calls `/fraud` calls with a key. */
  ghost predicate KeysOnFraud(log: seq<Visit>) {
    forall v | v in log && v.endpoint == FRAUD && v.identity.Some? :: v.identity.value.apiKey.Some?
  }

  /** The premises of the end-to-end results. */
  ghost predicate Sane(s: Site, ttl: int) {
    && IsRun(s.run, s.actions, ttl)
    && CreatedByHandler(s.actions, s.asked) && s.asked.Keys <= Now(s).requests.Keys
    && AllAuthenticated(s.run, s.log)
    && SameRequests(s.log, s.inputs)
    && KeysOnFraud(s.log)
  }

  lemma RunGrows(run: seq<State>, actions: seq<Action>, ttl: int, a: Action)
    requires IsRun(run, actions, ttl) && Enabled(run[|run| - 1], a)
    ensures IsRun(run + [Next(run[|run| - 1], ttl, a)], actions + [a], ttl)
  {
  }

  /** What was allowed stays allowed while the run goes on. */
  lemma AllowedOnward(run: seq<State>, more: seq<State>, log: seq<Visit>)
    requires AllAuthenticated(run, log)
    ensures AllAuthenticated(run + more, log)
  {
    forall v | v in log && v.identity.Some? && AllowedByKey(run, v.identity.value)
      ensures AllowedByKey(run + more, v.identity.value)
    {
      var id := v.identity.value;
      var n: nat, c: nat, users: Auth.Users, userFault: bool :| n < |run| && Answered(run[n], c)
        && Auth.JudgeKey(users, userFault, AnswerOf(run[n], c)) == Auth.Allow(id);
      assert (run + more)[n] == run[n];
    }
  }

  lemma ActedIsSane(s: Site, ttl: int, a: Action, asked: map<nat, KeyRequest>, t: Site)
    requires ttl > 0 && Sane(s, ttl) && Enabled(Now(s), a) && t == Acted(s.(asked := asked), ttl, a)
    requires CreatedByHandler(s.actions + [a], asked)
    requires asked.Keys <= s.asked.Keys + (if a.Begin? then {a.call} else {})
    ensures Sane(t, ttl)
  {
    RunGrows(s.run, s.actions, ttl, a);
    AllowedOnward(s.run, [Next(Now(s), ttl, a)], s.log);
    RunKeepsInv(s.run, s.actions, ttl, |s.run| - 1);
    NextRemembers(Now(s), ttl, a);
  }

  lemma CreateIsSane(s: Site, ttl: int, c: nat, user: int, h: Hash, q: KeyRequest, t: Site)
    requires ttl > 0 && Sane(s, ttl) && Acceptable(q) && Enabled(Now(s), Begin(c, Create(ParamsFor(user, h, q))))
    requires t == Acted(s.(asked := s.asked[c := q]), ttl, Begin(c, Create(ParamsFor(user, h, q))))
    ensures Sane(t, ttl)
  {
    RunKeepsInv(s.run, s.actions, ttl, |s.run| - 1);
    assert c !in s.asked;
    ActedIsSane(s, ttl, Begin(c, Create(ParamsFor(user, h, q))), s.asked[c := q], t);
  }

  lemma VisitIsSane(s: Site, ttl: int, v: Visit, i: Predict.Input, t: Site)
    requires Sane(s, ttl) && v.identity.Some? && i.identity == v.identity
    requires AllowedByKey(s.run, v.identity.value) || AllowedByToken(v.identity.value)
    requires v.endpoint == FRAUD ==> v.identity.value.apiKey.Some?
    requires t == s.(log := s.log + [v], inputs := s.inputs + [i])
    ensures Sane(t, ttl)
  {
  }

  lemma EventIsSane(s: Site, ttl: int, hash: string -> Hash, e: Event, t: Site)
    requires ttl > 0 && Sane(s, ttl) && Possible(s, hash, e) && t == Happens(s, ttl, hash, e)
    ensures Sane(t, ttl)
  {
    match e
    case Repository(a) => ActedIsSane(s, ttl, a, s.asked, t);
    case CreateKey(c, user, h, q) => CreateIsSane(s, ttl, c, user, h, q, t);
    case UsersChange(_) =>
    case WithKey(c, _, userFault, v, i) =>
      var n := |s.run| - 1;
      assert s.run[n] == Now(s) && Answered(s.run[n], c);
      VisitIsSane(s, ttl, v, i, t);
    case WithToken(_, _, v, i) => VisitIsSane(s, ttl, v, i, t);
  }

  ghost predicate IsServiceRun(sites: seq<Site>, events: seq<Event>, ttl: int, hash: string -> Hash) {
    && |sites| == |events| + 1 && sites[0] == START
    && (forall i | 0 <= i < |events| ::
          sites[i].run != [] && Possible(sites[i], hash, events[i])
          && sites[i + 1] == Happens(sites[i], ttl, hash, events[i]))
  }

  /** In every run of the service the repository's run is a run, every key was created by an accepted
      request, and every identity was attached by the middleware on the answer of a lookup of that
      run, however it was interleaved, or on a token. */
  lemma {:induction false} ServiceIsSane(sites: seq<Site>, events: seq<Event>, ttl: int, hash: string -> Hash, n: nat)
    requires ttl > 0 && IsServiceRun(sites, events, ttl, hash) && n < |sites|
    ensures Sane(sites[n], ttl)
  {
    if n > 0 {
      ServiceIsSane(sites, events, ttl, hash, n - 1);
      EventIsSane(sites[n - 1], ttl, hash, events[n - 1], sites[n]);
    }
  }

  /** Both prediction endpoints together: in one window a user causes at most the JWT limit plus, for
      each endpoint, the accepted rates of the keys used there; `/fraud` adds no JWT limit. */
  lemma PredictionTrafficBound(sites: seq<Site>, events: seq<Event>, ttl: int, hash: string -> Hash, n: nat,
      cfg: Config, s0: Store<Key>, user: int, window: int)
    requires ttl > 0 && IsServiceRun(sites, events, ttl, hash) && n < |sites|
    requires Proper(cfg) && WholeSeconds(cfg) && Clean(s0) && Prompt(cfg, sites[n].log)
    ensures
      var s := sites[n];
      && IsRun(s.run, s.actions, ttl) && CreatedByHandler(s.actions, s.asked) && SameRequests(s.log, s.inputs)
      && var keys := Facts(s.run, s.actions, ttl, s.asked);
      var onPredict := KeysUsed(cfg, s.log, user, PREDICT, window);
      var onFraud := KeysUsed(cfg, s.log, user, FRAUD, window);
      && onPredict <= keys.Keys && onFraud <= keys.Keys
      && (forall k | k in onPredict + onFraud :: keys[k].owner == user)
      && VendorCallsForUser(cfg, s0, s.log, s.inputs, user, PREDICT, window)
         + VendorCallsForUser(cfg, s0, s.log, s.inputs, user, FRAUD, window)
         <= AtLeastZero(cfg.jwtLimit) + RateSum(onPredict, keys) + RateSum(onFraud, keys)
  {
    var s := sites[n];
    ServiceIsSane(sites, events, ttl, hash, n);
    VendorTrafficBound(s.run, s.actions, ttl, s.asked, cfg, s0, s.log, s.inputs, user, PREDICT, window);
    AuthenticatedIsConsistent(s.run, s.actions, ttl, s.asked, s.log);
    UserKeysBound(cfg, s0, s.log, Facts(s.run, s.actions, ttl, s.asked), user, FRAUD, window);
    CallsAtMostAdmitted(cfg, s0, s.log, s.inputs, user, FRAUD, window);
  }

  /** The limit enforced on any API-key request of any run is the rate accepted for its key. */
  lemma ServiceEnforcesAcceptedRates(sites: seq<Site>, events: seq<Event>, ttl: int, hash: string -> Hash, n: nat,
      v: Visit, jwtLimit: int)
    requires ttl > 0 && IsServiceRun(sites, events, ttl, hash) && n < |sites|
    requires v in sites[n].log && v.identity.Some? && v.identity.value.apiKey.Some?
    ensures
      var s, key := sites[n], v.identity.value.apiKey.value;
      && s.run != [] && key in Now(s).origin && Now(s).origin[key] in s.asked
      && Acceptable(s.asked[Now(s).origin[key]])
      && var asked := s.asked[Now(s).origin[key]].rate;
      && v.identity.value.rate == Some(if asked != 0 then asked else 100)
      && LimitOf(jwtLimit, v.identity.value) == if asked != 0 then asked else 100
  {
    var s, id := sites[n], v.identity.value;
    ServiceIsSane(sites, events, ttl, hash, n);
    AllowedIsKnown(s.run, s.actions, ttl, id);
    HistoryHasAcceptedRates(s.run, s.actions, ttl, s.asked, |s.run| - 1, id.apiKey.value);
    RunKeepsInv(s.run, s.actions, ttl, |s.run| - 1);
    assert Traced(Now(s), id.apiKey.value);
    RequestsWereBegun(s.run, s.actions, ttl, |s.run| - 1, Now(s).origin[id.apiKey.value]);
  }
}
