/** The bound on one user's requests is reached: bearer token and keys can all be used up in one
    window. */
module RateLimitUserMaximum {
  import opened Text
  import opened Sets
  import opened RedisKeys
  import opened Redis
  import opened Identities
  import opened WindowArithmetic
  import opened RateLimit
  import opened RateLimitRuns
  import opened RateLimitUsers
  import opened RateLimitExtremes

  lemma OneMoreForUser(cfg: Config, s0: Store<Key>, log: seq<Visit>, id: Identity, endpoint: string, t: int)
    requires Proper(cfg) && WholeSeconds(cfg) && Clean(s0) && Prompt(cfg, log)
    requires Charged(cfg, log, KeyOf(cfg, Instant(id, endpoint, t))) < LimitOf(cfg.jwtLimit, id)
    ensures AdmittedForUser(cfg, s0, log + [Instant(id, endpoint, t)], id.user, endpoint, Index(cfg, t))
            == AdmittedForUser(cfg, s0, log, id.user, endpoint, Index(cfg, t)) + 1
  {
    var v := Instant(id, endpoint, t);
    var k := KeyOf(cfg, v);
    assert (log + [v])[..|log|] == log;
    CounterIsChargeCount(cfg, s0, log, k);
    ServeKeepsCounter(cfg, After(cfg, s0, log), v, k, Charged(cfg, log, k));
  }

  lemma {:induction false} BurstForUser(cfg: Config, s0: Store<Key>, log: seq<Visit>, id: Identity,
      endpoint: string, t: int, n: nat)
    requires Proper(cfg) && WholeSeconds(cfg) && Clean(s0) && Prompt(cfg, log)
    requires Charged(cfg, log, KeyOf(cfg, Instant(id, endpoint, t))) == 0
    requires n <= AtLeastZero(LimitOf(cfg.jwtLimit, id))
    ensures AdmittedForUser(cfg, s0, log + Burst(n, Instant(id, endpoint, t)), id.user, endpoint, Index(cfg, t))
            == AdmittedForUser(cfg, s0, log, id.user, endpoint, Index(cfg, t)) + n
  {
    var v := Instant(id, endpoint, t);
    if n == 0 {
      assert log + Burst(0, v) == log;
    } else {
      BurstForUser(cfg, s0, log, id, endpoint, t, n - 1);
      BurstIsPrompt(cfg, log, v, n - 1);
      BurstCharged(cfg, log, v, n - 1, KeyOf(cfg, v));
      BurstGrows(log, v, n);
      OneMoreForUser(cfg, s0, log + Burst(n - 1, v), id, endpoint, t);
    }
  }

  function KeyCaller(user: int, plan: string, keys: map<int, KeyFacts>, k: int): Identity
    requires k in keys
  {
    Identity(user, plan, Some(k), Some(keys[k].rate))
  }

  /** Every request of the log was made at `t` with one of the keys. */
  ghost predicate WithKeys(log: seq<Visit>, user: int, plan: string, keys: map<int, KeyFacts>, ids: set<int>,
      endpoint: string, t: int)
    requires ids <= keys.Keys
  {
    forall v | v in log :: exists k | k in ids :: v == Instant(KeyCaller(user, plan, keys, k), endpoint, t)
  }

  lemma FreshKeyUncharged(cfg: Config, log: seq<Visit>, user: int, plan: string, keys: map<int, KeyFacts>,
      ids: set<int>, endpoint: string, t: int, id: Identity)
    requires Proper(cfg) && ids <= keys.Keys && WithKeys(log, user, plan, keys, ids, endpoint, t)
    requires id.apiKey.Some? ==> id.apiKey.value !in ids
    ensures Charged(cfg, log, KeyOf(cfg, Instant(id, endpoint, t))) == 0
  {
    Uncharged(cfg, log, KeyOf(cfg, Instant(id, endpoint, t)));
  }

  /** Each of the keys used up to its rate. */
  lemma {:induction false} KeysUsedUp(cfg: Config, s0: Store<Key>, user: int, plan: string,
      keys: map<int, KeyFacts>, ids: set<int>, endpoint: string, t: int) returns (log: seq<Visit>)
    requires Proper(cfg) && WholeSeconds(cfg) && Clean(s0) && ids <= keys.Keys
    ensures Prompt(cfg, log) && WithKeys(log, user, plan, keys, ids, endpoint, t)
    ensures forall k | k in ids && keys[k].rate >= 1 ::
              Instant(KeyCaller(user, plan, keys, k), endpoint, t) in log
    ensures AdmittedForUser(cfg, s0, log, user, endpoint, Index(cfg, t)) == RateSum(ids, keys)
    decreases |ids|
  {
    if ids == {} {
      log := [];
    } else {
      var k := Pick(ids);
      var id, n := KeyCaller(user, plan, keys, k), AtLeastZero(keys[k].rate);
      var before := KeysUsedUp(cfg, s0, user, plan, keys, ids - {k}, endpoint, t);
      FreshKeyUncharged(cfg, before, user, plan, keys, ids - {k}, endpoint, t, id);
      BurstForUser(cfg, s0, before, id, endpoint, t, n);
      BurstIsPrompt(cfg, before, Instant(id, endpoint, t), n);
      log := before + Burst(n, Instant(id, endpoint, t));
      forall v | v in log ensures exists j | j in ids :: v == Instant(KeyCaller(user, plan, keys, j), endpoint, t) {
        assert v in before || v in Burst(n, Instant(id, endpoint, t));
      }
      BurstHasIt(n, Instant(id, endpoint, t));
    }
  }

  lemma BurstHasIt(n: nat, v: Visit)
    ensures n >= 1 ==> v in Burst(n, v)
  {
  }

  /** The bound of `UserTotalBound` is exact: for every user, any keys of the user, endpoint and moment
      there is a run in one instant that uses up the JWT limit and every key. */
  lemma UserTotalReached(cfg: Config, s0: Store<Key>, user: int, plan: string, keys: map<int, KeyFacts>,
      ids: set<int>, endpoint: string, t: int) returns (log: seq<Visit>)
    requires Proper(cfg) && WholeSeconds(cfg) && Clean(s0) && ids <= keys.Keys
    requires forall k | k in ids :: keys[k].owner == user && keys[k].rate >= 1
    ensures Prompt(cfg, log) && Consistent(log, keys)
    ensures KeysUsed(cfg, log, user, endpoint, Index(cfg, t)) == ids
    ensures AdmittedForUser(cfg, s0, log, user, endpoint, Index(cfg, t))
            == AtLeastZero(cfg.jwtLimit) + RateSum(ids, keys)
  {
    var id, n := Identity(user, plan, None, None), AtLeastZero(cfg.jwtLimit);
    var before := KeysUsedUp(cfg, s0, user, plan, keys, ids, endpoint, t);
    var v := Instant(id, endpoint, t);
    FreshKeyUncharged(cfg, before, user, plan, keys, ids, endpoint, t, id);
    BurstForUser(cfg, s0, before, id, endpoint, t, n);
    BurstIsPrompt(cfg, before, v, n);
    log := before + Burst(n, v);
    UsedUpWith(cfg, before, user, plan, keys, ids, endpoint, t, n);
  }

  lemma UsedUpWith(cfg: Config, before: seq<Visit>, user: int, plan: string, keys: map<int, KeyFacts>,
      ids: set<int>, endpoint: string, t: int, n: nat)
    requires Proper(cfg) && ids <= keys.Keys && WithKeys(before, user, plan, keys, ids, endpoint, t)
    requires forall k | k in ids :: keys[k].owner == user && keys[k].rate >= 1
                                    && Instant(KeyCaller(user, plan, keys, k), endpoint, t) in before
    ensures
      var log := before + Burst(n, Instant(Identity(user, plan, None, None), endpoint, t));
      Consistent(log, keys) && KeysUsed(cfg, log, user, endpoint, Index(cfg, t)) == ids
  {
    var bearer := Instant(Identity(user, plan, None, None), endpoint, t);
    var log := before + Burst(n, bearer);
    forall v | v in log ensures v == bearer || exists k | k in ids ::
      v == Instant(KeyCaller(user, plan, keys, k), endpoint, t) {
      assert v in before || v in Burst(n, bearer);
    }
    forall k | k in ids ensures k in KeysUsed(cfg, log, user, endpoint, Index(cfg, t)) {
      var v := Instant(KeyCaller(user, plan, keys, k), endpoint, t);
      assert v in before && v in log && ByUser(cfg, v, user, endpoint, Index(cfg, t));
    }
  }
}
