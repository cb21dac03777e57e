/** The limiter seen per user: one user may call with a bearer token and with several API keys. */
module RateLimitUsers {
  import opened Text
  import opened Sets
  import opened RedisKeys
  import opened Redis
  import opened Identities
  import opened WindowArithmetic
  import opened RateLimit
  import opened RateLimitRuns

  /** Each API key has one owner and one rate. */
  datatype KeyFacts = KeyFacts(owner: int, rate: int)

  ghost predicate Consistent(log: seq<Visit>, keys: map<int, KeyFacts>) {
    forall v | v in log && v.identity.Some? && v.identity.value.apiKey.Some? ::
      var id := v.identity.value;
      && id.apiKey.value in keys
      && keys[id.apiKey.value].owner == id.user
      && id.rate == Some(keys[id.apiKey.value].rate)
  }

  // ---- the total of one user ----

  predicate ByUser(cfg: Config, v: Visit, user: int, endpoint: string, window: int)
    requires Proper(cfg)
  {
    && v.identity.Some? && v.identity.value.user == user && v.endpoint == endpoint
    && Index(cfg, v.stamp) == window
  }

  function AdmittedForUser(cfg: Config, s0: Store<Key>, log: seq<Visit>,
                           user: int, endpoint: string, window: int): nat
    requires Proper(cfg)
  {
    if log == [] then 0
    else
      var before, v := log[..|log| - 1], log[|log| - 1];
      AdmittedForUser(cfg, s0, before, user, endpoint, window)
      + if ByUser(cfg, v, user, endpoint, window) && Admits(Serve(cfg, After(cfg, s0, before), v).1) then 1 else 0
  }

  /** The API keys with which the user called the endpoint in that window. */
  function KeysUsed(cfg: Config, log: seq<Visit>, user: int, endpoint: string, window: int): set<int>
    requires Proper(cfg)
  {
    set v | v in log && ByUser(cfg, v, user, endpoint, window) && v.identity.value.apiKey.Some? ::
      v.identity.value.apiKey.value
  }

  ghost function RateSum(ids: set<int>, keys: map<int, KeyFacts>): nat
    requires ids <= keys.Keys
  {
    if ids == {} then 0
    else
      var k := Pick(ids);
      AtLeastZero(keys[k].rate) + RateSum(ids - {k}, keys)
  }

  /** The sum does not depend on the order in which the set is taken apart. */
  lemma {:induction false} RateSumTakes(ids: set<int>, keys: map<int, KeyFacts>, k: int)
    requires ids <= keys.Keys && k in ids
    ensures RateSum(ids, keys) == AtLeastZero(keys[k].rate) + RateSum(ids - {k}, keys)
    decreases |ids|
  {
    var j := Pick(ids);
    if j != k {
      RateSumTakes(ids - {j}, keys, k);
      RateSumTakes(ids - {k}, keys, j);
      assert ids - {j} - {k} == ids - {k} - {j};
    }
  }

  lemma {:induction false} RateSumMonotone(ids: set<int>, more: set<int>, keys: map<int, KeyFacts>)
    requires ids <= more <= keys.Keys
    ensures RateSum(ids, keys) <= RateSum(more, keys)
    decreases |more|
  {
    if more != {} {
      var k := Pick(more);
      RateSumTakes(more, keys, k);
      if k in ids {
        RateSumTakes(ids, keys, k);
        RateSumMonotone(ids - {k}, more - {k}, keys);
      } else {
        RateSumMonotone(ids, more - {k}, keys);
      }
    }
  }

  function KeyCounters(cfg: Config, ids: set<int>, endpoint: string, window: int): set<Key>
    requires cfg.perSecond != 0
  {
    set k | k in ids :: Window(ApiKey(k), endpoint, Begin(cfg, window) / cfg.perSecond)
  }

  function UserCounters(cfg: Config, user: int, ids: set<int>, endpoint: string, window: int): set<Key>
    requires cfg.perSecond != 0
  {
    KeyCounters(cfg, ids, endpoint, window) + {Window(User(user), endpoint, Begin(cfg, window) / cfg.perSecond)}
  }

  lemma {:induction false} CountersCoverUser(cfg: Config, s0: Store<Key>, log: seq<Visit>,
      user: int, endpoint: string, window: int, ids: set<int>)
    requires Proper(cfg) && KeysUsed(cfg, log, user, endpoint, window) <= ids
    ensures AdmittedForUser(cfg, s0, log, user, endpoint, window)
            <= Admitted(cfg, s0, log, UserCounters(cfg, user, ids, endpoint, window))
  {
    if log != [] {
      var before, v := log[..|log| - 1], log[|log| - 1];
      assert forall x | x in before :: x in log;
      CountersCoverUser(cfg, s0, before, user, endpoint, window, ids);
      if ByUser(cfg, v, user, endpoint, window) {
        assert v in log;
        var id := v.identity.value;
        assert id.apiKey.Some? ==> id.apiKey.value in KeysUsed(cfg, log, user, endpoint, window);
        assert KeyOf(cfg, v) in UserCounters(cfg, user, ids, endpoint, window);
      }
    }
  }

  lemma {:induction false} KeyCountersAdmitRates(cfg: Config, s0: Store<Key>, log: seq<Visit>,
      keys: map<int, KeyFacts>, ids: set<int>, endpoint: string, window: int)
    requires Proper(cfg) && WholeSeconds(cfg) && Clean(s0) && Prompt(cfg, log)
    requires Consistent(log, keys) && ids <= keys.Keys
    ensures Admitted(cfg, s0, log, KeyCounters(cfg, ids, endpoint, window)) <= RateSum(ids, keys)
    decreases |ids|
  {
    var ks := KeyCounters(cfg, ids, endpoint, window);
    if ids == {} {
      assert ks == {};
      AdmittedNowhere(cfg, s0, log);
    } else {
      var k := Pick(ids);
      var counter := Window(ApiKey(k), endpoint, Begin(cfg, window) / cfg.perSecond);
      RateSumTakes(ids, keys, k);
      assert counter in ks && ks - {counter} == KeyCounters(cfg, ids - {k}, endpoint, window);
      AdmittedSplits(cfg, s0, log, ks, counter);
      KeyCountersAdmitRates(cfg, s0, log, keys, ids - {k}, endpoint, window);
      WindowAdmitsLimit(cfg, s0, log, counter, keys[k].rate);
    }
  }

  /** One user, one endpoint, one window: whatever mix of bearer tokens and API keys is used, at
      most the JWT limit plus the rates of the user's keys that were used. */
  lemma UserTotalBound(cfg: Config, s0: Store<Key>, log: seq<Visit>, keys: map<int, KeyFacts>,
      user: int, endpoint: string, window: int)
    requires Proper(cfg) && WholeSeconds(cfg) && Clean(s0) && Prompt(cfg, log) && Consistent(log, keys)
    ensures
      var used := KeysUsed(cfg, log, user, endpoint, window);
      && (forall k | k in used :: k in keys && keys[k].owner == user)
      && AdmittedForUser(cfg, s0, log, user, endpoint, window)
         <= AtLeastZero(cfg.jwtLimit) + RateSum(used, keys)
  {
    var used := KeysUsed(cfg, log, user, endpoint, window);
    var ks := UserCounters(cfg, user, used, endpoint, window);
    var bearer := Window(User(user), endpoint, Begin(cfg, window) / cfg.perSecond);
    CountersCoverUser(cfg, s0, log, user, endpoint, window, used);
    AdmittedSplits(cfg, s0, log, ks, bearer);
    assert ks - {bearer} == KeyCounters(cfg, used, endpoint, window);
    KeyCountersAdmitRates(cfg, s0, log, keys, used, endpoint, window);
    WindowAdmitsLimit(cfg, s0, log, bearer, cfg.jwtLimit);
  }

  /** Every request of the user on the endpoint in that window came with a key. */
  ghost predicate KeysOnly(cfg: Config, log: seq<Visit>, user: int, endpoint: string, window: int)
    requires Proper(cfg)
  {
    forall v | v in log && ByUser(cfg, v, user, endpoint, window) :: v.identity.value.apiKey.Some?
  }

  lemma {:induction false} KeyCountersCoverUser(cfg: Config, s0: Store<Key>, log: seq<Visit>,
      user: int, endpoint: string, window: int, ids: set<int>)
    requires Proper(cfg) && KeysUsed(cfg, log, user, endpoint, window) <= ids
    requires KeysOnly(cfg, log, user, endpoint, window)
    ensures AdmittedForUser(cfg, s0, log, user, endpoint, window)
            <= Admitted(cfg, s0, log, KeyCounters(cfg, ids, endpoint, window))
  {
    if log != [] {
      var before, v := log[..|log| - 1], log[|log| - 1];
      assert forall x | x in before :: x in log;
      KeyCountersCoverUser(cfg, s0, before, user, endpoint, window, ids);
      if ByUser(cfg, v, user, endpoint, window) {
        assert v in log;
        assert v.identity.value.apiKey.value in KeysUsed(cfg, log, user, endpoint, window);
        assert KeyOf(cfg, v) in KeyCounters(cfg, ids, endpoint, window);
      }
    }
  }

  /** Where only keys are accepted, the JWT limit adds nothing. */
  lemma UserKeysBound(cfg: Config, s0: Store<Key>, log: seq<Visit>, keys: map<int, KeyFacts>,
      user: int, endpoint: string, window: int)
    requires Proper(cfg) && WholeSeconds(cfg) && Clean(s0) && Prompt(cfg, log) && Consistent(log, keys)
    requires KeysOnly(cfg, log, user, endpoint, window)
    ensures
      var used := KeysUsed(cfg, log, user, endpoint, window);
      && (forall k | k in used :: k in keys && keys[k].owner == user)
      && AdmittedForUser(cfg, s0, log, user, endpoint, window) <= RateSum(used, keys)
  {
    var used := KeysUsed(cfg, log, user, endpoint, window);
    KeyCountersCoverUser(cfg, s0, log, user, endpoint, window, used);
    KeyCountersAdmitRates(cfg, s0, log, keys, used, endpoint, window);
  }

  // ---- users do not disturb each other ----

  predicate Of(v: Visit, user: int) {
    v.identity.Some? && v.identity.value.user == user
  }

  function OnlyUser(log: seq<Visit>, user: int): seq<Visit> {
    if log == [] then []
    else OnlyUser(log[..|log| - 1], user) + if Of(log[|log| - 1], user) then [log[|log| - 1]] else []
  }

  /** The answers the user's requests get within the whole log. */
  function AnswersTo(cfg: Config, s0: Store<Key>, log: seq<Visit>, user: int): seq<Outcome>
    requires Proper(cfg)
  {
    if log == [] then []
    else
      var before, v := log[..|log| - 1], log[|log| - 1];
      AnswersTo(cfg, s0, before, user)
      + if Of(v, user) then [Serve(cfg, After(cfg, s0, before), v).1] else []
  }

  ghost predicate BelongsTo(k: Key, user: int, keys: map<int, KeyFacts>) {
    && k.Window?
    && match k.subject
       case User(u) => u == user
       case ApiKey(id) => id in keys && keys[id].owner == user
  }

  ghost predicate Agree(s: Store<Key>, t: Store<Key>, user: int, keys: map<int, KeyFacts>) {
    forall k | BelongsTo(k, user, keys) :: (k in s <==> k in t) && (k in s ==> s[k] == t[k])
  }

  lemma ServeAgrees(cfg: Config, s: Store<Key>, t: Store<Key>, v: Visit, user: int, keys: map<int, KeyFacts>)
    requires Proper(cfg) && Agree(s, t, user, keys) && Consistent([v], keys)
    ensures Of(v, user) ==>
              && Agree(Serve(cfg, s, v).0, Serve(cfg, t, v).0, user, keys)
              && Serve(cfg, s, v).1 == Serve(cfg, t, v).1
    ensures !Of(v, user) ==> Agree(Serve(cfg, s, v).0, t, user, keys)
  {
    assert v in [v];
    if v.identity.Some? {
      assert BelongsTo(KeyOf(cfg, v), v.identity.value.user, keys);
    }
  }

  /** Exactly the user's own requests, and an answer to each. */
  lemma {:induction false} OwnRequests(cfg: Config, s0: Store<Key>, log: seq<Visit>, user: int)
    requires Proper(cfg)
    ensures forall v :: v in OnlyUser(log, user) <==> v in log && Of(v, user)
    ensures |AnswersTo(cfg, s0, log, user)| == |OnlyUser(log, user)|
  {
    if log != [] {
      OwnRequests(cfg, s0, log[..|log| - 1], user);
      assert log == log[..|log| - 1] + [log[|log| - 1]];
    }
  }

  lemma {:induction false} OthersDoNotMatter(
      cfg: Config, s0: Store<Key>, log: seq<Visit>, user: int, keys: map<int, KeyFacts>)
    requires Proper(cfg) && Consistent(log, keys)
    ensures AnswersTo(cfg, s0, log, user) == AnswersTo(cfg, s0, OnlyUser(log, user), user)
    ensures Agree(After(cfg, s0, log), After(cfg, s0, OnlyUser(log, user)), user, keys)
  {
    if log != [] {
      var before, v := log[..|log| - 1], log[|log| - 1];
      OthersDoNotMatter(cfg, s0, before, user, keys);
      assert v in log;
      var mine := OnlyUser(before, user);
      ServeAgrees(cfg, After(cfg, s0, before), After(cfg, s0, mine), v, user, keys);
      if Of(v, user) {
        var all := OnlyUser(log, user);
        assert all == mine + [v];
        assert all[..|all| - 1] == mine && all[|all| - 1] == v;
      } else {
        assert OnlyUser(log, user) == mine;
      }
    }
  }
}
