/** From the request that creates a key to the traffic its owner can cause at the vendor. */
module EndToEnd {
  import opened Text
  import opened RedisKeys
  import opened Redis
  import opened KeyTable
  import opened KeyService
  import opened CacheProtocol
  import opened Identities
  import opened WindowArithmetic
  import opened RateLimit
  import opened RateLimitRuns
  import opened RateLimitUsers
  import Auth
  import SoloCalls
  import KeyRepo
  import Predict

  /** Every create call of the run was made by the handler for an accepted request. */
  ghost predicate CreatedByHandler(actions: seq<Action>, asked: map<nat, KeyRequest>) {
    forall a | a in actions && a.Begin? && a.request.Create? ::
      var p := a.request.params;
      && a.call in asked && Acceptable(asked[a.call])
      && p == ParamsFor(p.user, p.hash, asked[a.call])
  }

  /** A step asks for nothing but what its own `Begin` says. */
  lemma StepBegins(s: State, ttl: int, a: Action, c: nat)
    requires HistoryOk(s) && Enabled(s, a) && c in Next(s, ttl, a).requests
    ensures
      var q := Next(s, ttl, a).requests[c];
      a == Begin(c, q) || (c in s.requests && s.requests[c] == q)
  {
    if a.Advance? {
      AdvancedRemembers(s, Next(s, ttl, a), ttl, a.call, a.fate);
    }
  }

  lemma {:induction false} RequestsWereBegun(run: seq<State>, actions: seq<Action>, ttl: int, n: nat, c: nat)
    requires IsRun(run, actions, ttl) && ttl > 0 && n < |run| && c in run[n].requests
    ensures Begin(c, run[n].requests[c]) in actions
  {
    if n > 0 {
      RunKeepsInv(run, actions, ttl, n - 1);
      StepBegins(run[n - 1], ttl, actions[n - 1], c);
      if actions[n - 1] != Begin(c, run[n].requests[c]) {
        RequestsWereBegun(run, actions, ttl, n - 1, c);
      }
    }
  }

  /** The rate that was asked for when key `id` was created; 100 if none was. */
  ghost function AcceptedRate(s: State, asked: map<nat, KeyRequest>, id: int): int
    requires id in s.origin && s.origin[id] in asked
  {
    if asked[s.origin[id]].rate != 0 then asked[s.origin[id]].rate else 100
  }

  lemma HistoryHasAcceptedRates(run: seq<State>, actions: seq<Action>, ttl: int, asked: map<nat, KeyRequest>,
      n: nat, id: int)
    requires IsRun(run, actions, ttl) && ttl > 0 && CreatedByHandler(actions, asked) && n < |run|
    requires id in run[n].history
    ensures id in run[n].origin && run[n].origin[id] in asked
    ensures run[n].history[id].rate == AcceptedRate(run[n], asked, id)
    ensures 1 <= AcceptedRate(run[n], asked, id) <= 10000
  {
    var s := run[n];
    RunKeepsInv(run, actions, ttl, n);
    assert Traced(s, id);
    var c := s.origin[id];
    RequestsWereBegun(run, actions, ttl, n, c);
    var p := s.requests[c].params;
    AcceptedRateIsStored(p.user, p.hash, asked[c]);
  }

  // ---- from a lookup of the run to an identity ----

  /** Call `c` was a lookup and has its answer. */
  ghost predicate Answered(s: State, c: nat) {
    && c in s.calls && c in s.requests && s.requests[c].Lookup?
    && s.calls[c].Returned? && (s.calls[c].result.Match? || s.calls[c].result.NoRows?)
  }

  ghost function AnswerOf(s: State, c: nat): Option<Found>
    requires Answered(s, c)
  {
    if s.calls[c].result.Match? then Some(s.calls[c].result.found) else None
  }

  /** The API-key middleware allowed `id` on the answer of a lookup of the run. */
  ghost predicate AllowedByKey(run: seq<State>, id: Identity) {
    exists n: nat, c: nat, users: Auth.Users, userFault: bool ::
      && n < |run| && Answered(run[n], c)
      && Auth.JudgeKey(users, userFault, AnswerOf(run[n], c)) == Auth.Allow(id)
  }

  /** The JWT middleware allowed `id` on some claims. */
  ghost predicate AllowedByToken(id: Identity) {
    exists users: Auth.Users, userFault: bool, claims: Option<Auth.Claims> ::
      Auth.JudgeToken(users, userFault, claims) == Auth.Allow(id)
  }

  /** Every identity at the limiter was attached by one of the two middlewares. */
  ghost predicate AllAuthenticated(run: seq<State>, log: seq<Visit>) {
    forall v | v in log && v.identity.Some? ::
      AllowedByKey(run, v.identity.value) || AllowedByToken(v.identity.value)
  }

  /** What the auth stack attaches is what `AllAuthenticated` speaks of: over the protocol state in
      which its lookup begins, a request with a key passes exactly with the identity that the
      middleware allows on the answer of that lookup. */
  lemma StackUsesTheLookup(s: State, c: nat, env: Auth.Env, users: Auth.Users, r: Auth.Request)
    requires WellFormed(s.table) && env.cached && !env.lookupFault && r.apiKey != "" && r.identity.None?
    requires c in s.calls && c in s.requests && s.requests[c] == Lookup(env.hash(r.apiKey))
    requires s.calls[c] == Start(s.requests[c])
    ensures
      var p := env.pause;
      var t := SoloCalls.Solo(s, env.ttl, c, [p.a] + ([p.b] + ([p.c] + [p.d])));
      var v := Auth.AuthVerdict(env, Auth.World(SoloCalls.View(s), users), r);
      && c in t.calls && t.calls[c].Returned? && (t.calls[c].result.Match? || t.calls[c].result.NoRows?)
      && var answer := if t.calls[c].result.Match? then Some(t.calls[c].result.found) else None;
         match Auth.JudgeKey(users, env.userFault, answer)
         case Allow(id) => v.Pass? && v.request == r.(identity := Some(id))
         case Deny(response) => v.Stop? && v.response == response
  {
    var w: Auth.World := Auth.World(SoloCalls.View(s), users);
    var h := env.hash(r.apiKey);
    var (after, f) := KeyRepo.Lookup(w.repo, true, env.ttl, h, env.pause);
    SoloCalls.SoloLookup(s, env.ttl, c, h, env.pause, after, f);
    Auth.LookupServes(env, w, h, after, f);
    Auth.AuthVerdictRules(env, w, r);
  }

  /** Without a key, the stack attaches what the JWT middleware allows. */
  lemma StackUsesTheToken(env: Auth.Env, w: Auth.World, r: Auth.Request)
    requires r.apiKey == "" && r.identity.None? && Auth.AuthVerdict(env, w, r).Pass?
    ensures
      var v := Auth.AuthVerdict(env, w, r);
      v.request.identity.Some? && AllowedByToken(v.request.identity.value)
  {
    Auth.AuthVerdictRules(env, w, r);
  }

  /** The limit enforced on a request that the API-key middleware let through is the rate accepted
      when the key was created, whether the row came from the cache or the table and whatever ran or
      failed in between; and the identity is that of the key's owner. */
  lemma EnforcedLimitIsAcceptedRate(run: seq<State>, actions: seq<Action>, ttl: int, asked: map<nat, KeyRequest>,
      n: nat, c: nat, users: Auth.Users, userFault: bool, id: Identity, jwtLimit: int)
    requires IsRun(run, actions, ttl) && ttl > 0 && CreatedByHandler(actions, asked) && n < |run|
    requires Answered(run[n], c)
    requires Auth.JudgeKey(users, userFault, AnswerOf(run[n], c)) == Auth.Allow(id)
    ensures
      var s := run[n];
      && id.apiKey.Some? && var key := id.apiKey.value;
      && key in s.origin && s.origin[key] in asked
      && var rate := if asked[s.origin[key]].rate != 0 then asked[s.origin[key]].rate else 100;
      && LimitOf(jwtLimit, id) == rate && id.rate == Some(rate) && 1 <= rate <= 10000
      && s.origin[key] in s.requests && s.requests[s.origin[key]].Create?
      && s.requests[s.origin[key]].params.hash == s.requests[c].hash
      && s.requests[s.origin[key]].params.user == id.user
  {
    LookupProvenance(run, actions, ttl, n, c, run[n].requests[c].hash);
    HistoryHasAcceptedRates(run, actions, ttl, asked, n, id.apiKey.value);
  }

  /** Owner and accepted rate of every key of the run. */
  ghost function Facts(
      run: seq<State>, actions: seq<Action>, ttl: int, asked: map<nat, KeyRequest>): (m: map<int, KeyFacts>)
    requires IsRun(run, actions, ttl) && ttl > 0 && CreatedByHandler(actions, asked)
    ensures m.Keys == run[|run| - 1].history.Keys
    ensures forall id | id in m ::
              && m[id].owner == run[|run| - 1].history[id].user
              && m[id].rate == run[|run| - 1].history[id].rate
              && 1 <= m[id].rate <= 10000
              && id in run[|run| - 1].origin && run[|run| - 1].origin[id] in asked
              && m[id].rate == AcceptedRate(run[|run| - 1], asked, id)
  {
    var last := run[|run| - 1];
    assert forall id | id in last.history ::
        && id in last.origin && last.origin[id] in asked
        && last.history[id].rate == AcceptedRate(last, asked, id)
        && 1 <= last.history[id].rate <= 10000 by {
      forall id | id in last.history
        ensures id in last.origin && last.origin[id] in asked
        ensures last.history[id].rate == AcceptedRate(last, asked, id)
        ensures 1 <= last.history[id].rate <= 10000
      {
        HistoryHasAcceptedRates(run, actions, ttl, asked, |run| - 1, id);
      }
    }
    map id | id in last.history :: KeyFacts(last.history[id].user, last.history[id].rate)
  }

  lemma AuthenticatedIsConsistent(run: seq<State>, actions: seq<Action>, ttl: int, asked: map<nat, KeyRequest>,
      log: seq<Visit>)
    requires IsRun(run, actions, ttl) && ttl > 0 && CreatedByHandler(actions, asked)
    requires AllAuthenticated(run, log)
    ensures Consistent(log, Facts(run, actions, ttl, asked))
  {
    var last := |run| - 1;
    forall v | v in log && v.identity.Some? && v.identity.value.apiKey.Some?
      ensures
        var id, m := v.identity.value, Facts(run, actions, ttl, asked);
        && id.apiKey.value in m && m[id.apiKey.value].owner == id.user
        && id.rate == Some(m[id.apiKey.value].rate)
    {
      AllowedIsKnown(run, actions, ttl, v.identity.value);
    }
  }

  /** An identity with a key agrees with the row that was inserted for the key. */
  lemma AllowedIsKnown(run: seq<State>, actions: seq<Action>, ttl: int, id: Identity)
    requires IsRun(run, actions, ttl) && ttl > 0 && id.apiKey.Some?
    requires AllowedByKey(run, id) || AllowedByToken(id)
    ensures
      var history := run[|run| - 1].history;
      && id.apiKey.value in history && history[id.apiKey.value].user == id.user
      && id.rate == Some(history[id.apiKey.value].rate)
  {
    assert AllowedByKey(run, id);
    var n: nat, c: nat, users: Auth.Users, userFault: bool :| n < |run| && Answered(run[n], c)
      && Auth.JudgeKey(users, userFault, AnswerOf(run[n], c)) == Auth.Allow(id);
    RunKeepsInv(run, actions, ttl, n);
    assert CallKnown(run[n], c);
    RunRemembers(run, actions, ttl, n, |run| - 1);
  }

  // ---- vendor traffic ----

  /** Each visit at the limiter and the request that reaches the handler if it is admitted: they have
      the same identity. */
  ghost predicate SameRequests(log: seq<Visit>, inputs: seq<Predict.Input>) {
    |inputs| == |log| && forall i | 0 <= i < |log| :: inputs[i].identity == log[i].identity
  }

  /** Vendor calls caused by the user's requests: each admitted request reaches the prediction
      handler once, with what `inputs` says about its body. */
  ghost function VendorCallsForUser(cfg: Config, s0: Store<Key>, log: seq<Visit>, inputs: seq<Predict.Input>,
                              user: int, endpoint: string, window: int): nat
    requires Proper(cfg) && SameRequests(log, inputs)
  {
    if log == [] then 0
    else
      var last := |log| - 1;
      var before, v := log[..last], log[last];
      VendorCallsForUser(cfg, s0, before, inputs[..last], user, endpoint, window)
      + if ByUser(cfg, v, user, endpoint, window) && Admits(Serve(cfg, After(cfg, s0, before), v).1)
        then |Predict.CallsOf(inputs[last])| else 0
  }

  lemma {:induction false} CallsAtMostAdmitted(
      cfg: Config, s0: Store<Key>, log: seq<Visit>, inputs: seq<Predict.Input>,
      user: int, endpoint: string, window: int)
    requires Proper(cfg) && SameRequests(log, inputs)
    ensures VendorCallsForUser(cfg, s0, log, inputs, user, endpoint, window)
            <= AdmittedForUser(cfg, s0, log, user, endpoint, window)
  {
    if log != [] {
      CallsAtMostAdmitted(cfg, s0, log[..|log| - 1], inputs[..|log| - 1], user, endpoint, window);
    }
  }

  /** If every request is valid, these are as many: no admitted request is dropped on the way. */
  lemma {:induction false} CallsAreAdmitted(
      cfg: Config, s0: Store<Key>, log: seq<Visit>, inputs: seq<Predict.Input>,
      user: int, endpoint: string, window: int)
    requires Proper(cfg) && SameRequests(log, inputs) && forall i | i in inputs && i.identity.Some? :: Predict.Valid(i)
    ensures VendorCallsForUser(cfg, s0, log, inputs, user, endpoint, window)
            == AdmittedForUser(cfg, s0, log, user, endpoint, window)
  {
    if log != [] {
      var last := |log| - 1;
      CallsAreAdmitted(cfg, s0, log[..last], inputs[..last], user, endpoint, window);
      assert inputs[last] in inputs;
      Predict.CallTells(inputs[last]);
    }
  }

  /** In one window a user causes at most the JWT limit plus the accepted rates of the used keys in
      vendor calls on an endpoint, across every interleaving of key creation, deletion, caching and
      authentication. */
  lemma VendorTrafficBound(run: seq<State>, actions: seq<Action>, ttl: int, asked: map<nat, KeyRequest>,
      cfg: Config, s0: Store<Key>, log: seq<Visit>, inputs: seq<Predict.Input>,
      user: int, endpoint: string, window: int)
    requires IsRun(run, actions, ttl) && ttl > 0 && CreatedByHandler(actions, asked)
    requires Proper(cfg) && WholeSeconds(cfg) && Clean(s0) && Prompt(cfg, log)
    requires AllAuthenticated(run, log) && SameRequests(log, inputs)
    ensures
      var used := KeysUsed(cfg, log, user, endpoint, window);
      var keys := Facts(run, actions, ttl, asked);
      && used <= keys.Keys
      && (forall k | k in used :: keys[k].owner == user)
      && VendorCallsForUser(cfg, s0, log, inputs, user, endpoint, window)
         <= AtLeastZero(cfg.jwtLimit) + RateSum(used, keys)
  {
    AuthenticatedIsConsistent(run, actions, ttl, asked, log);
    UserTotalBound(cfg, s0, log, Facts(run, actions, ttl, asked), user, endpoint, window);
    CallsAtMostAdmitted(cfg, s0, log, inputs, user, endpoint, window);
  }
}
