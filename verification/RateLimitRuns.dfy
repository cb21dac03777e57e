/** Whole runs of the limiter: what the counters hold, who is admitted, and how many. */
module RateLimitRuns {
  import opened Text
  import opened RedisKeys
  import opened Redis
  import opened Identities
  import opened Arithmetic
  import opened WindowArithmetic
  import opened RateLimit

  /** Whatever else Redis holds at the start, it holds no counters. */
  ghost predicate Clean(s: Store<Key>) {
    forall k | k in s :: !k.Window?
  }

  function After(cfg: Config, s0: Store<Key>, log: seq<Visit>): Store<Key>
    requires Proper(cfg)
  {
    if log == [] then s0 else Serve(cfg, After(cfg, s0, log[..|log| - 1]), log[|log| - 1]).0
  }

  function OutcomeAt(cfg: Config, s0: Store<Key>, log: seq<Visit>, i: nat): Outcome
    requires Proper(cfg) && i < |log|
  {
    Serve(cfg, After(cfg, s0, log[..i]), log[i]).1
  }

  predicate Charges(cfg: Config, v: Visit, k: Key)
    requires Proper(cfg)
  {
    Ran(v) && KeyOf(cfg, v) == k
  }

  /** How many requests of the log have been charged to counter `k`. */
  function Charged(cfg: Config, log: seq<Visit>, k: Key): nat
    requires Proper(cfg)
  {
    if log == [] then 0
    else Charged(cfg, log[..|log| - 1], k) + if Charges(cfg, log[|log| - 1], k) then 1 else 0
  }

  predicate AdmittedOn(cfg: Config, s: Store<Key>, v: Visit, ks: set<Key>)
    requires Proper(cfg)
  {
    v.identity.Some? && KeyOf(cfg, v) in ks && Admits(Serve(cfg, s, v).1)
  }

  /** How many requests charged to counters in `ks` have been let through. */
  function Admitted(cfg: Config, s0: Store<Key>, log: seq<Visit>, ks: set<Key>): nat
    requires Proper(cfg)
  {
    if log == [] then 0
    else
      var before := log[..|log| - 1];
      Admitted(cfg, s0, before, ks)
      + if AdmittedOn(cfg, After(cfg, s0, before), log[|log| - 1], ks) then 1 else 0
  }

  /** Each script call runs inside the window its key names. */
  ghost predicate Prompt(cfg: Config, log: seq<Visit>)
    requires Proper(cfg)
  {
    forall v | v in log :: Index(cfg, v.exec) == Index(cfg, v.stamp)
  }

  // ---- the counters ----

  ghost predicate CounterHolds(cfg: Config, s: Store<Key>, k: Key, n: nat)
    requires Proper(cfg) && k.Window?
  {
    if n == 0 then k !in s
    else
      && k in s && s[k].value == Count(n)
      && k.start * cfg.perSecond + cfg.window <= s[k].expiry < k.start * cfg.perSecond + 2 * cfg.window
  }

  lemma ServeKeepsCounter(cfg: Config, s: Store<Key>, v: Visit, k: Key, n: nat)
    requires Proper(cfg) && WholeSeconds(cfg) && k.Window? && CounterHolds(cfg, s, k, n)
    requires Index(cfg, v.exec) == Index(cfg, v.stamp)
    ensures CounterHolds(cfg, Serve(cfg, s, v).0, k, if Charges(cfg, v, k) then n + 1 else n)
    ensures Charges(cfg, v, k) ==>
              Exec(s, v.exec, IncrExpire(k, ExpireAfter(cfg))).reply == Number(n + 1)
  {
    WholeWindow(cfg, v.stamp);
    IndexBounds(cfg, v.exec);
  }

  /** Expiry never resets a counter before its window ends: the counter is exactly the number of
      requests charged to it. */
  lemma {:induction false} CounterIsChargeCount(cfg: Config, s0: Store<Key>, log: seq<Visit>, k: Key)
    requires Proper(cfg) && WholeSeconds(cfg) && Clean(s0) && Prompt(cfg, log) && k.Window?
    ensures CounterHolds(cfg, After(cfg, s0, log), k, Charged(cfg, log, k))
  {
    if log != [] {
      var before := log[..|log| - 1];
      CounterIsChargeCount(cfg, s0, before, k);
      ServeKeepsCounter(cfg, After(cfg, s0, before), log[|log| - 1], k, Charged(cfg, before, k));
    }
  }

  function AtLeastZero(n: int): nat {
    if n < 0 then 0 else n
  }

  // ---- who shares a counter ----

  /** Both came with the same API key, or both without one and from the same user. */
  predicate SameCaller(a: Identity, b: Identity) {
    if a.apiKey.Some? then b.apiKey == a.apiKey else b.apiKey.None? && b.user == a.user
  }

  predicate SharesWindow(cfg: Config, v: Visit, w: Visit)
    requires Proper(cfg) && v.identity.Some? && w.identity.Some?
  {
    && SameCaller(v.identity.value, w.identity.value)
    && v.endpoint == w.endpoint && Index(cfg, v.stamp) == Index(cfg, w.stamp)
  }

  /** Two requests share a counter exactly if caller, endpoint and window are the same. */
  lemma SharedCounterIff(cfg: Config, v: Visit, w: Visit)
    requires Proper(cfg) && WholeSeconds(cfg) && v.identity.Some? && w.identity.Some?
    ensures KeyOf(cfg, v) == KeyOf(cfg, w) <==> SharesWindow(cfg, v, w)
  {
    if UnixStart(cfg, v.stamp) == UnixStart(cfg, w.stamp) {
      StartDeterminesIndex(cfg, v.stamp, w.stamp);
    }
  }

  /** How many requests of the log ran the script for the caller, endpoint and window of `v`. */
  function Earlier(cfg: Config, log: seq<Visit>, v: Visit): nat
    requires Proper(cfg) && v.identity.Some?
  {
    if log == [] then 0
    else
      var w := log[|log| - 1];
      Earlier(cfg, log[..|log| - 1], v)
      + if w.identity.Some? && w.fault != ScriptNotRun && SharesWindow(cfg, v, w) then 1 else 0
  }

  lemma {:induction false} ChargedIsEarlier(cfg: Config, log: seq<Visit>, v: Visit)
    requires Proper(cfg) && WholeSeconds(cfg) && v.identity.Some?
    ensures Charged(cfg, log, KeyOf(cfg, v)) == Earlier(cfg, log, v)
  {
    if log != [] {
      var w := log[|log| - 1];
      ChargedIsEarlier(cfg, log[..|log| - 1], v);
      if w.identity.Some? {
        SharedCounterIff(cfg, v, w);
      }
    }
  }

  /** The n-th request of a caller on an endpoint in a window is answered with count n. The limit is
      the key's own rate for a request with a key and a rate, else the limit for bearer tokens; the
      request is admitted exactly if n is within it, and is told how many are left. */
  lemma RankDecides(cfg: Config, s0: Store<Key>, log: seq<Visit>, i: nat)
    requires Proper(cfg) && WholeSeconds(cfg) && Clean(s0) && Prompt(cfg, log) && i < |log|
    requires log[i].identity.Some? && log[i].fault == NoFault
    ensures
      var o, id, n := OutcomeAt(cfg, s0, log, i), log[i].identity.value, Earlier(cfg, log[..i], log[i]) + 1;
      && o.Decided? && o.count == n
      && (id.apiKey.None? ==>
            && o.limit == cfg.jwtLimit && (o.admitted <==> n <= cfg.jwtLimit)
            && o.remaining == if n <= cfg.jwtLimit then cfg.jwtLimit - n else 0)
      && (id.apiKey.Some? && id.rate.Some? ==>
            && o.limit == id.rate.value && (o.admitted <==> n <= id.rate.value)
            && o.remaining == if n <= id.rate.value then id.rate.value - n else 0)
      && (id.apiKey.Some? && id.rate.None? ==> o.limit == cfg.jwtLimit && (o.admitted <==> n <= cfg.jwtLimit))
  {
    var k := KeyOf(cfg, log[i]);
    ChargedIsEarlier(cfg, log[..i], log[i]);
    CounterIsChargeCount(cfg, s0, log[..i], k);
    ServeKeepsCounter(cfg, After(cfg, s0, log[..i]), log[i], k, Charged(cfg, log[..i], k));
  }

  /** What a caller without an identity, or behind a failing Redis, gets: no admission, and no count
      unless the script ran. */
  lemma FaultsAdmitNobody(cfg: Config, s: Store<Key>, v: Visit)
    requires Proper(cfg) && (v.identity.None? || v.fault != NoFault)
    ensures !Admits(Serve(cfg, s, v).1) && !Serve(cfg, s, v).1.Decided?
    ensures v.identity.None? || v.fault == ScriptNotRun ==> Serve(cfg, s, v).0 == s
  {
  }

  /** The expiry of a charged counter lies in the next window, and the reset is the whole seconds
      until then. */
  lemma ExpiryInNextWindow(cfg: Config, s0: Store<Key>, log: seq<Visit>, i: nat) returns (e: int)
    requires Proper(cfg) && WholeSeconds(cfg) && Clean(s0) && Prompt(cfg, log) && i < |log|
    ensures
      var v, o := log[i], OutcomeAt(cfg, s0, log, i);
      o.Decided? && v.ttlAt == v.exec ==>
        Index(cfg, e) == Index(cfg, v.exec) + 1 && o.reset == (e - v.exec) / cfg.perSecond
  {
    var v, s := log[i], After(cfg, s0, log[..i]);
    e := 0;
    if Serve(cfg, s, v).1.Decided? && v.ttlAt == v.exec {
      var k := KeyOf(cfg, v);
      CounterIsChargeCount(cfg, s0, log[..i], k);
      ServeKeepsCounter(cfg, s, v, k, Charged(cfg, log[..i], k));
      WholeWindow(cfg, v.stamp);
      IndexBounds(cfg, v.exec);
      e := Serve(cfg, s, v).0[k].expiry;
      var next := Index(cfg, v.exec) + 1;
      BeginMonotone(cfg, next - 1, next);
      assert Begin(cfg, next) == Begin(cfg, next - 1) + cfg.window by {
        MulNext(next - 1, cfg.window);
      }
      IndexUnique(cfg, e, next);
    }
  }

  /** On a clock of whole seconds every decided request, admitted or not, is told a reset that lies in
      the window right after this one. */
  lemma ResetInNextWindow(cfg: Config, s0: Store<Key>, log: seq<Visit>, i: nat)
    requires Proper(cfg) && cfg.perSecond == 1 && Clean(s0) && Prompt(cfg, log) && i < |log|
    requires log[i].ttlAt == log[i].exec && OutcomeAt(cfg, s0, log, i).Decided?
    ensures Index(cfg, log[i].exec + OutcomeAt(cfg, s0, log, i).reset) == Index(cfg, log[i].exec) + 1
  {
    var e := ExpiryInNextWindow(cfg, s0, log, i);
  }

  /** In general the reset is that moment, in whole seconds rounded down. */
  lemma ResetInWholeSeconds(cfg: Config, s0: Store<Key>, log: seq<Visit>, i: nat)
    requires Proper(cfg) && WholeSeconds(cfg) && Clean(s0) && Prompt(cfg, log) && i < |log|
    ensures
      var v, o := log[i], OutcomeAt(cfg, s0, log, i);
      o.Decided? && v.ttlAt == v.exec ==>
        exists e: int :: Index(cfg, e) == Index(cfg, v.exec) + 1
                         && v.exec + o.reset * cfg.perSecond <= e < v.exec + (o.reset + 1) * cfg.perSecond
  {
    var e := ExpiryInNextWindow(cfg, s0, log, i);
    var reset := (e - log[i].exec) / cfg.perSecond;
    DivBounds(e - log[i].exec, cfg.perSecond);
    MulNext(reset, cfg.perSecond);
  }

  /** A counter that has run out before its TTL is read is reported as zero seconds. */
  lemma ResetOfGoneCounter(cfg: Config, s: Store<Key>, v: Visit)
    requires Proper(cfg) && Serve(cfg, s, v).1.Decided?
    requires !Live(Serve(cfg, s, v).0, KeyOf(cfg, v), v.ttlAt)
    ensures Serve(cfg, s, v).1.reset == 0
  {
  }

  /** Rejections, and only they, carry Retry-After; it tells the client to come back in the window right
      after this one. */
  lemma RetryAfterNextWindow(cfg: Config, s0: Store<Key>, log: seq<Visit>, i: nat)
    requires Proper(cfg) && cfg.perSecond == 1 && Clean(s0) && Prompt(cfg, log) && i < |log|
    requires log[i].ttlAt == log[i].exec && OutcomeAt(cfg, s0, log, i).Decided?
    ensures
      var o, h := OutcomeAt(cfg, s0, log, i), HeadersFor(OutcomeAt(cfg, s0, log, i));
      && (h.retryAfter.Some? <==> !o.admitted)
      && (h.retryAfter.Some? ==>
            Index(cfg, log[i].exec + h.retryAfter.value) == Index(cfg, log[i].exec) + 1)
  {
    ResetInNextWindow(cfg, s0, log, i);
  }

  /** Which header carries which number, for the n-th request of its caller: limit and what is left of
      it, the reset in the next window, and Retry-After exactly beyond the limit. */
  lemma HeadersTell(cfg: Config, s0: Store<Key>, log: seq<Visit>, i: nat)
    requires Proper(cfg) && cfg.perSecond == 1 && Clean(s0) && Prompt(cfg, log) && i < |log|
    requires log[i].identity.Some? && log[i].fault == NoFault && log[i].ttlAt == log[i].exec
    ensures
      var h, id := HeadersFor(OutcomeAt(cfg, s0, log, i)), log[i].identity.value;
      var n, limit := Earlier(cfg, log[..i], log[i]) + 1,
                      if id.apiKey.Some? && id.rate.Some? then id.rate.value else cfg.jwtLimit;
      && h.limit == Some(limit)
      && h.remaining == Some(if n <= limit then limit - n else 0)
      && h.reset.Some? && Index(cfg, log[i].exec + h.reset.value) == Index(cfg, log[i].exec) + 1
      && h.retryAfter == if n <= limit then None else h.reset
  {
    RankDecides(cfg, s0, log, i);
    ResetInNextWindow(cfg, s0, log, i);
  }

  // ---- how many are admitted ----

  ghost predicate LimitsAtMost(cfg: Config, log: seq<Visit>, k: Key, limit: int)
    requires Proper(cfg)
  {
    forall v | v in log && v.identity.Some? && KeyOf(cfg, v) == k ::
      LimitOf(cfg.jwtLimit, v.identity.value) <= limit
  }

  lemma {:induction false} WindowAdmitsLimit(cfg: Config, s0: Store<Key>, log: seq<Visit>, k: Key, limit: int)
    requires Proper(cfg) && WholeSeconds(cfg) && Clean(s0) && Prompt(cfg, log) && k.Window?
    requires LimitsAtMost(cfg, log, k, limit)
    ensures Admitted(cfg, s0, log, {k}) <= AtLeastZero(limit)
    ensures Admitted(cfg, s0, log, {k}) <= Charged(cfg, log, k)
  {
    if log != [] {
      var before, v := log[..|log| - 1], log[|log| - 1];
      WindowAdmitsLimit(cfg, s0, before, k, limit);
      CounterIsChargeCount(cfg, s0, before, k);
      ServeKeepsCounter(cfg, After(cfg, s0, before), v, k, Charged(cfg, before, k));
      assert v in log;
    }
  }

  lemma {:induction false} AdmittedSplits(cfg: Config, s0: Store<Key>, log: seq<Visit>, ks: set<Key>, k: Key)
    requires Proper(cfg) && k in ks
    ensures Admitted(cfg, s0, log, ks)
            == Admitted(cfg, s0, log, ks - {k}) + Admitted(cfg, s0, log, {k})
  {
    if log != [] {
      AdmittedSplits(cfg, s0, log[..|log| - 1], ks, k);
    }
  }

  lemma {:induction false} AdmittedNowhere(cfg: Config, s0: Store<Key>, log: seq<Visit>)
    requires Proper(cfg)
    ensures Admitted(cfg, s0, log, {}) == 0
  {
    if log != [] {
      AdmittedNowhere(cfg, s0, log[..|log| - 1]);
    }
  }

  /** Several windows together admit at most the limit times their number. */
  lemma {:induction false} WindowsAdmitProduct(
      cfg: Config, s0: Store<Key>, log: seq<Visit>, ks: set<Key>, limit: int)
    requires Proper(cfg) && WholeSeconds(cfg) && Clean(s0) && Prompt(cfg, log)
    requires forall k | k in ks :: k.Window? && LimitsAtMost(cfg, log, k, limit)
    ensures Admitted(cfg, s0, log, ks) <= |ks| * AtLeastZero(limit)
    decreases |ks|
  {
    if ks == {} {
      AdmittedNowhere(cfg, s0, log);
    } else {
      var k :| k in ks;
      AdmittedSplits(cfg, s0, log, ks, k);
      WindowAdmitsLimit(cfg, s0, log, k, limit);
      WindowsAdmitProduct(cfg, s0, log, ks - {k}, limit);
      assert |ks| == |ks - {k}| + 1;
      assert |ks| * AtLeastZero(limit) == |ks - {k}| * AtLeastZero(limit) + AtLeastZero(limit);
    }
  }
}
