/** Bounds on the limiter that span windows, lifetimes of one counter, and identities of one user. */
module RateLimitBounds {
  import opened Text
  import opened RedisKeys
  import opened Redis
  import opened Identities
  import opened Arithmetic
  import opened WindowArithmetic
  import opened RateLimit
  import opened RateLimitRuns

  // ---- any interval of time ----

  predicate Within(v: Visit, who: Subject, endpoint: string, from: int, to: int) {
    && v.identity.Some? && SubjectOf(v.identity.value) == who && v.endpoint == endpoint
    && from <= v.exec < to
  }

  function AdmittedBetween(cfg: Config, s0: Store<Key>, log: seq<Visit>,
                           who: Subject, endpoint: string, from: int, to: int): nat
    requires Proper(cfg)
  {
    if log == [] then 0
    else
      var before, v := log[..|log| - 1], log[|log| - 1];
      AdmittedBetween(cfg, s0, before, who, endpoint, from, to)
      + if Within(v, who, endpoint, from, to) && Admits(Serve(cfg, After(cfg, s0, before), v).1) then 1 else 0
  }

  /** The counters of windows `a` to `b`. */
  function SpanKeys(cfg: Config, who: Subject, endpoint: string, a: int, b: int): (ks: set<Key>)
    requires Proper(cfg)
    ensures |ks| <= if a <= b then b - a + 1 else 0
    ensures forall k | k in ks :: k.Window? && k.subject == who && k.endpoint == endpoint
    ensures forall i | a <= i <= b :: Window(who, endpoint, Begin(cfg, i) / cfg.perSecond) in ks
    decreases b - a
  {
    if a > b then {}
    else SpanKeys(cfg, who, endpoint, a, b - 1) + {Window(who, endpoint, Begin(cfg, b) / cfg.perSecond)}
  }

  lemma {:induction false} SpanCoversInterval(cfg: Config, s0: Store<Key>, log: seq<Visit>,
      who: Subject, endpoint: string, from: int, to: int, a: int, b: int)
    requires Proper(cfg) && Prompt(cfg, log)
    requires forall t | from <= t < to :: a <= Index(cfg, t) <= b
    ensures AdmittedBetween(cfg, s0, log, who, endpoint, from, to)
            <= Admitted(cfg, s0, log, SpanKeys(cfg, who, endpoint, a, b))
  {
    if log != [] {
      var v := log[|log| - 1];
      SpanCoversInterval(cfg, s0, log[..|log| - 1], who, endpoint, from, to, a, b);
      assert v in log;
      if Within(v, who, endpoint, from, to) {
        assert a <= Index(cfg, v.stamp) <= b;
        assert KeyOf(cfg, v) == Window(who, endpoint, Begin(cfg, Index(cfg, v.stamp)) / cfg.perSecond);
      }
    }
  }

  ghost predicate SubjectLimit(cfg: Config, log: seq<Visit>, who: Subject, endpoint: string, limit: int) {
    forall v | v in log && v.identity.Some? && SubjectOf(v.identity.value) == who && v.endpoint == endpoint ::
      LimitOf(cfg.jwtLimit, v.identity.value) <= limit
  }

  lemma SpanLimits(cfg: Config, log: seq<Visit>, who: Subject, endpoint: string, limit: int, ks: set<Key>)
    requires Proper(cfg) && SubjectLimit(cfg, log, who, endpoint, limit)
    requires forall k | k in ks :: k.Window? && k.subject == who && k.endpoint == endpoint
    ensures forall k | k in ks :: LimitsAtMost(cfg, log, k, limit)
  {
  }

  /** How many windows the interval of `length` ticks from `from` meets. */
  function WindowsIn(cfg: Config, from: int, length: int): (m: nat)
    requires Proper(cfg) && length >= 1
    ensures 1 <= m <= CeilDiv(length, cfg.window) + 1
  {
    WindowsMet(cfg, from, length);
    Index(cfg, from + length - 1) - Index(cfg, from) + 1
  }

  /** An interval admits at most the limit for each window it meets. */
  lemma IntervalBound(cfg: Config, s0: Store<Key>, log: seq<Visit>,
      who: Subject, endpoint: string, limit: int, from: int, length: int)
    requires Proper(cfg) && WholeSeconds(cfg) && Clean(s0) && Prompt(cfg, log) && length >= 1
    requires SubjectLimit(cfg, log, who, endpoint, limit)
    ensures AdmittedBetween(cfg, s0, log, who, endpoint, from, from + length)
            <= WindowsIn(cfg, from, length) * AtLeastZero(limit)
  {
    var a, b := Index(cfg, from), Index(cfg, from + length - 1);
    IndexRange(cfg, from, from + length);
    var ks := SpanKeys(cfg, who, endpoint, a, b);
    SpanCoversInterval(cfg, s0, log, who, endpoint, from, from + length, a, b);
    SpanLimits(cfg, log, who, endpoint, limit, ks);
    WindowsAdmitProduct(cfg, s0, log, ks, limit);
    MulMonotone(|ks|, WindowsIn(cfg, from, length), AtLeastZero(limit));
  }

  /** The fixed windows as a sliding bound: in any interval of `length` ticks at most
      (ceil(length / window) + 1) times the limit, hence at most twice the limit per window length. */
  lemma SlidingBound(cfg: Config, s0: Store<Key>, log: seq<Visit>,
      who: Subject, endpoint: string, limit: int, from: int, length: int)
    requires Proper(cfg) && WholeSeconds(cfg) && Clean(s0) && Prompt(cfg, log) && length >= 1
    requires SubjectLimit(cfg, log, who, endpoint, limit)
    ensures AdmittedBetween(cfg, s0, log, who, endpoint, from, from + length)
            <= (CeilDiv(length, cfg.window) + 1) * AtLeastZero(limit)
    ensures length <= cfg.window ==>
              AdmittedBetween(cfg, s0, log, who, endpoint, from, from + length) <= 2 * AtLeastZero(limit)
  {
    IntervalBound(cfg, s0, log, who, endpoint, limit, from, length);
    MulMonotone(WindowsIn(cfg, from, length), CeilDiv(length, cfg.window) + 1, AtLeastZero(limit));
    if length <= cfg.window {
      CeilDivOfShort(length, cfg.window);
    }
  }

  // ---- a script that runs late ----

  ghost predicate DelayedBy(log: seq<Visit>, delay: nat) {
    forall v | v in log :: v.stamp <= v.exec <= v.stamp + delay
  }

  predicate Restarts(cfg: Config, s: Store<Key>, v: Visit, k: Key)
    requires Proper(cfg)
  {
    Charges(cfg, v, k) && !Live(s, k, v.exec)
  }

  /** How many times counter `k` has been started from one. */
  function Lifetimes(cfg: Config, s0: Store<Key>, log: seq<Visit>, k: Key): nat
    requires Proper(cfg)
  {
    if log == [] then 0
    else
      var before := log[..|log| - 1];
      Lifetimes(cfg, s0, before, k)
      + if Restarts(cfg, After(cfg, s0, before), log[|log| - 1], k) then 1 else 0
  }

  function Min(a: int, b: int): int {
    if a < b then a else b
  }

  /** The current lifetime began at `expiry - window`, every earlier one at least a window before
      the next; each has admitted at most the limit. */
  ghost predicate LifetimesHold(cfg: Config, s: Store<Key>, k: Key, m: nat, admitted: nat, limit: nat, delay: nat)
    requires Proper(cfg) && k.Window?
  {
    var start := k.start * cfg.perSecond;
    if m == 0 then k !in s && admitted == 0
    else
      && k in s && s[k].value.Count? && s[k].value.n >= 1
      && start + m * cfg.window <= s[k].expiry < start + 2 * cfg.window + delay
      && admitted <= (m - 1) * limit + Min(s[k].value.n, limit)
  }

  lemma ServeKeepsLifetimes(cfg: Config, s: Store<Key>, v: Visit, k: Key, m: nat, admitted: nat,
      limit: nat, delay: nat)
    requires Proper(cfg) && WholeSeconds(cfg) && k.Window?
    requires LifetimesHold(cfg, s, k, m, admitted, limit, delay)
    requires v.stamp <= v.exec <= v.stamp + delay
    requires v.identity.Some? && KeyOf(cfg, v) == k ==> LimitOf(cfg.jwtLimit, v.identity.value) <= limit
    ensures LifetimesHold(cfg, Serve(cfg, s, v).0, k,
                          m + if Restarts(cfg, s, v, k) then 1 else 0,
                          admitted + if AdmittedOn(cfg, s, v, {k}) then 1 else 0, limit, delay)
  {
    WholeWindow(cfg, v.stamp);
    IndexBounds(cfg, v.stamp);
    assert (m + 1) * cfg.window == m * cfg.window + cfg.window;
    assert m * limit == (m - 1) * limit + limit;
  }

  lemma {:induction false} LifetimesAlwaysHold(
      cfg: Config, s0: Store<Key>, log: seq<Visit>, k: Key, limit: nat, delay: nat)
    requires Proper(cfg) && WholeSeconds(cfg) && Clean(s0) && k.Window? && DelayedBy(log, delay)
    requires LimitsAtMost(cfg, log, k, limit)
    ensures LifetimesHold(cfg, After(cfg, s0, log), k, Lifetimes(cfg, s0, log, k),
                          Admitted(cfg, s0, log, {k}), limit, delay)
  {
    if log != [] {
      var before, v := log[..|log| - 1], log[|log| - 1];
      assert v in log;
      LifetimesAlwaysHold(cfg, s0, before, k, limit, delay);
      ServeKeepsLifetimes(cfg, After(cfg, s0, before), v, k, Lifetimes(cfg, s0, before, k),
                          Admitted(cfg, s0, before, {k}), limit, delay);
    }
  }

  lemma LifetimesFit(m: nat, w: int, delay: nat)
    requires w >= 1 && m * w < 2 * w + delay
    ensures m <= CeilDiv(delay, w) + 1
  {
    DivBounds(delay + w - 1, w);
    var c := CeilDiv(delay, w);
    assert (c + 2) * w == c * w + 2 * w;
    if m >= c + 2 {
      MulMonotone(c + 2, m, w);
      assert false;
    }
  }

  /** If the script may run up to `delay` after the window start was computed, one counter lives at
      most ceil(delay / window) + 1 times and admits at most that many times the limit. */
  lemma LateScriptBound(cfg: Config, s0: Store<Key>, log: seq<Visit>, k: Key, limit: nat, delay: nat)
    requires Proper(cfg) && WholeSeconds(cfg) && Clean(s0) && k.Window? && DelayedBy(log, delay)
    requires LimitsAtMost(cfg, log, k, limit)
    ensures Lifetimes(cfg, s0, log, k) <= CeilDiv(delay, cfg.window) + 1
    ensures Admitted(cfg, s0, log, {k}) <= (CeilDiv(delay, cfg.window) + 1) * limit
  {
    LifetimesAlwaysHold(cfg, s0, log, k, limit, delay);
    var m := Lifetimes(cfg, s0, log, k);
    LifetimesFit(m, cfg.window, delay);
    assert m > 0 ==> m * limit == (m - 1) * limit + limit;
    MulMonotone(m, CeilDiv(delay, cfg.window) + 1, limit);
  }

  // ---- windows that are not whole seconds ----

  /** What the limiter is for: no window admits more than the limit, for any identity and log. */
  ghost predicate Enforces(cfg: Config)
    requires Proper(cfg)
  {
    forall log: seq<Visit>, k: Key, limit: int
      | Prompt(cfg, log) && k.Window? && LimitsAtMost(cfg, log, k, limit) ::
      Admitted(cfg, map[], log, {k}) <= AtLeastZero(limit)
  }

  /** A counter that expires before its window ends admits one request too many. */
  lemma FractionalWindowLeaks(cfg: Config) returns (log: seq<Visit>, k: Key)
    requires Proper(cfg) && !WholeSeconds(cfg)
    ensures Prompt(cfg, log) && k.Window? && LimitsAtMost(cfg, log, k, 1)
    ensures Admitted(cfg, map[], log, {k}) == 2
  {
    var id := Identity(1, "free", Some(1), Some(1));
    var t, u := cfg.offset, cfg.offset + ExpireAfter(cfg);
    assert cfg.window == cfg.window / cfg.perSecond * cfg.perSecond + cfg.window % cfg.perSecond;
    assert ExpireAfter(cfg) >= 0 by {
      DivMonotone(0, cfg.window, cfg.perSecond);
    }
    IndexUnique(cfg, t, 0);
    IndexUnique(cfg, u, 0);
    var first := Visit(Some(id), "/v1/fraud/predict", t, t, t, NoFault);
    var second := Visit(Some(id), "/v1/fraud/predict", u, u, u, NoFault);
    k := KeyOf(cfg, first);
    assert KeyOf(cfg, second) == k;
    log := [first, second];
    assert log[..1] == [first] && [first][..0] == [];
    assert After(cfg, map[], []) == map[];
    assert Admitted(cfg, map[], [first], {k}) == 1;
    assert After(cfg, map[], [first]) == map[k := Entry(Count(1), u)];
  }

  /** The window has to be a whole number of seconds, and that is all it has to be. */
  lemma EnforcesIffWholeSeconds(cfg: Config)
    requires Proper(cfg)
    ensures Enforces(cfg) <==> WholeSeconds(cfg)
  {
    if WholeSeconds(cfg) {
      forall log: seq<Visit>, k: Key, limit: int
        | Prompt(cfg, log) && k.Window? && LimitsAtMost(cfg, log, k, limit)
        ensures Admitted(cfg, map[], log, {k}) <= AtLeastZero(limit)
      {
        WindowAdmitsLimit(cfg, map[], log, k, limit);
      }
    } else {
      var log, k := FractionalWindowLeaks(cfg);
      assert Admitted(cfg, map[], log, {k}) > AtLeastZero(1);
    }
  }
}
