/** The limiter's bounds are reached, and with them the exact reach of its promises: runs that admit
    as much as any run can. */
module RateLimitExtremes {
  import opened Text
  import opened RedisKeys
  import opened Redis
  import opened Identities
  import opened Arithmetic
  import opened WindowArithmetic
  import opened RateLimit
  import opened RateLimitRuns
  import opened RateLimitBounds

  // ---- bursts ----

  function Burst(n: nat, v: Visit): (b: seq<Visit>)
    ensures |b| == n && forall x | x in b :: x == v
  {
    if n == 0 then [] else Burst(n - 1, v) + [v]
  }

  lemma BurstGrows(log: seq<Visit>, v: Visit, n: nat)
    requires n > 0
    ensures log + Burst(n, v) == (log + Burst(n - 1, v)) + [v]
  {
  }

  ghost predicate Unhurried(cfg: Config, v: Visit, from: int, to: int) {
    && Proper(cfg) && WholeSeconds(cfg)
    && v.identity.Some? && v.fault == NoFault && v.stamp == v.exec && from <= v.exec < to
  }

  /** One more request below its limit is one more request admitted. */
  lemma OneMoreAdmitted(cfg: Config, s0: Store<Key>, log: seq<Visit>, v: Visit, from: int, to: int)
    requires Unhurried(cfg, v, from, to) && Clean(s0) && Prompt(cfg, log)
    requires Charged(cfg, log, KeyOf(cfg, v)) < LimitOf(cfg.jwtLimit, v.identity.value)
    ensures
      var who := SubjectOf(v.identity.value);
      AdmittedBetween(cfg, s0, log + [v], who, v.endpoint, from, to)
      == AdmittedBetween(cfg, s0, log, who, v.endpoint, from, to) + 1
  {
    var k := KeyOf(cfg, v);
    assert (log + [v])[..|log|] == log;
    CounterIsChargeCount(cfg, s0, log, k);
    ServeKeepsCounter(cfg, After(cfg, s0, log), v, k, Charged(cfg, log, k));
  }

  lemma OneMoreCharged(cfg: Config, log: seq<Visit>, v: Visit, k: Key)
    requires Proper(cfg)
    ensures Charged(cfg, log + [v], k) == Charged(cfg, log, k) + if Charges(cfg, v, k) then 1 else 0
  {
    assert (log + [v])[..|log|] == log;
  }

  lemma {:induction false} BurstCharged(cfg: Config, log: seq<Visit>, v: Visit, n: nat, k: Key)
    requires Proper(cfg) && Ran(v)
    ensures Charged(cfg, log + Burst(n, v), k)
            == Charged(cfg, log, k) + if KeyOf(cfg, v) == k then n else 0
  {
    if n == 0 {
      assert log + Burst(0, v) == log;
    } else {
      BurstGrows(log, v, n);
      BurstCharged(cfg, log, v, n - 1, k);
      OneMoreCharged(cfg, log + Burst(n - 1, v), v, k);
    }
  }

  lemma BurstIsPrompt(cfg: Config, log: seq<Visit>, v: Visit, n: nat)
    requires Proper(cfg) && Prompt(cfg, log) && v.stamp == v.exec
    ensures Prompt(cfg, log + Burst(n, v))
  {
    forall x | x in log + Burst(n, v) ensures Index(cfg, x.exec) == Index(cfg, x.stamp) {
      assert x in log || x in Burst(n, v);
    }
  }

  lemma {:induction false} BurstAdmitted(cfg: Config, s0: Store<Key>, log: seq<Visit>, v: Visit, n: nat,
      from: int, to: int)
    requires Unhurried(cfg, v, from, to) && Clean(s0) && Prompt(cfg, log)
    requires Charged(cfg, log, KeyOf(cfg, v)) == 0
    requires n <= AtLeastZero(LimitOf(cfg.jwtLimit, v.identity.value))
    ensures
      var who := SubjectOf(v.identity.value);
      AdmittedBetween(cfg, s0, log + Burst(n, v), who, v.endpoint, from, to)
      == AdmittedBetween(cfg, s0, log, who, v.endpoint, from, to) + n
  {
    var whole := log + Burst(n, v);
    if n == 0 {
      assert whole == log;
    } else {
      var before := log + Burst(n - 1, v);
      assert whole == before + [v];
      assert AdmittedBetween(cfg, s0, before + [v], SubjectOf(v.identity.value), v.endpoint, from, to)
          == AdmittedBetween(cfg, s0, log, SubjectOf(v.identity.value), v.endpoint, from, to) + n by {
        BurstAdmitted(cfg, s0, log, v, n - 1, from, to);
        BurstIsPrompt(cfg, log, v, n - 1);
        BurstCharged(cfg, log, v, n - 1, KeyOf(cfg, v));
        OneMoreAdmitted(cfg, s0, before, v, from, to);
      }
    }
  }

  // ---- the most an interval can admit ----

  function Instant(id: Identity, endpoint: string, t: int): Visit {
    Visit(Some(id), endpoint, t, t, t, NoFault)
  }

  ghost predicate OnlyInstants(cfg: Config, log: seq<Visit>, id: Identity, endpoint: string, b: int)
    requires Proper(cfg)
  {
    forall v | v in log :: v == Instant(id, endpoint, v.stamp) && Index(cfg, v.stamp) <= b
  }

  lemma {:induction false} Uncharged(cfg: Config, log: seq<Visit>, k: Key)
    requires Proper(cfg) && forall v | v in log && v.identity.Some? :: KeyOf(cfg, v) != k
    ensures Charged(cfg, log, k) == 0
  {
    if log != [] {
      assert log[|log| - 1] in log;
      Uncharged(cfg, log[..|log| - 1], k);
    }
  }

  lemma LaterWindowUncharged(cfg: Config, log: seq<Visit>, id: Identity, endpoint: string, b: int, t: int)
    requires Proper(cfg) && WholeSeconds(cfg) && OnlyInstants(cfg, log, id, endpoint, b) && Index(cfg, t) > b
    ensures Charged(cfg, log, KeyOf(cfg, Instant(id, endpoint, t))) == 0
  {
    var k := KeyOf(cfg, Instant(id, endpoint, t));
    forall v | v in log && v.identity.Some? ensures KeyOf(cfg, v) != k {
      if KeyOf(cfg, v) == k {
        StartDeterminesIndex(cfg, v.stamp, t);
        assert false;
      }
    }
    Uncharged(cfg, log, k);
  }

  /** The first instant of window `b` that is not before `from`. */
  lemma FirstInstant(cfg: Config, from: int, to: int, b: int) returns (t: int)
    requires Proper(cfg) && from < to && Index(cfg, from) <= b <= Index(cfg, to - 1)
    ensures from <= t < to && Index(cfg, t) == b
  {
    if b == Index(cfg, from) {
      t := from;
    } else {
      t := Begin(cfg, b);
      IndexBounds(cfg, from);
      IndexBounds(cfg, to - 1);
      BeginMonotone(cfg, Index(cfg, from), b);
      if b < Index(cfg, to - 1) {
        BeginMonotone(cfg, b, Index(cfg, to - 1));
      }
      IndexUnique(cfg, t, b);
    }
  }

  /** A full burst in a window that no earlier request was charged to. */
  lemma BurstInWindow(cfg: Config, s0: Store<Key>, before: seq<Visit>, id: Identity, endpoint: string,
      from: int, to: int, t: int) returns (log: seq<Visit>)
    requires Proper(cfg) && WholeSeconds(cfg) && Clean(s0) && from <= t < to && Prompt(cfg, before)
    requires OnlyInstants(cfg, before, id, endpoint, Index(cfg, t) - 1)
    ensures OnlyInstants(cfg, log, id, endpoint, Index(cfg, t)) && Prompt(cfg, log)
    ensures AdmittedBetween(cfg, s0, log, SubjectOf(id), endpoint, from, to)
            == AdmittedBetween(cfg, s0, before, SubjectOf(id), endpoint, from, to)
               + AtLeastZero(LimitOf(cfg.jwtLimit, id))
  {
    var n, v := AtLeastZero(LimitOf(cfg.jwtLimit, id)), Instant(id, endpoint, t);
    LaterWindowUncharged(cfg, before, id, endpoint, Index(cfg, t) - 1, t);
    BurstAdmitted(cfg, s0, before, v, n, from, to);
    BurstIsPrompt(cfg, before, v, n);
    log := before + Burst(n, v);
    forall x | x in log ensures x == Instant(id, endpoint, x.stamp) && Index(cfg, x.stamp) <= Index(cfg, t) {
      assert x in before || x in Burst(n, v);
    }
  }

  /** A full burst in each of the first `m` windows that the interval meets. */
  lemma {:induction false} FullBursts(cfg: Config, s0: Store<Key>, id: Identity, endpoint: string,
      from: int, to: int, a: int, m: nat) returns (log: seq<Visit>)
    requires Proper(cfg) && WholeSeconds(cfg) && Clean(s0) && from < to
    requires a == Index(cfg, from) && a + m - 1 <= Index(cfg, to - 1)
    ensures OnlyInstants(cfg, log, id, endpoint, a + m - 1) && Prompt(cfg, log)
    ensures AdmittedBetween(cfg, s0, log, SubjectOf(id), endpoint, from, to)
            == Times(m, AtLeastZero(LimitOf(cfg.jwtLimit, id)))
  {
    if m == 0 {
      log := [];
    } else {
      var before := FullBursts(cfg, s0, id, endpoint, from, to, a, m - 1);
      var t := FirstInstant(cfg, from, to, a + m - 1);
      log := BurstInWindow(cfg, s0, before, id, endpoint, from, to, t);
      TimesStep(m, AtLeastZero(LimitOf(cfg.jwtLimit, id)));
    }
  }

  function Times(m: nat, n: nat): nat {
    m * n
  }

  lemma TimesStep(m: nat, n: nat)
    requires m > 0
    ensures Times(m, n) == Times(m - 1, n) + n
  {
    assert (m - 1) * n == m * n - n;
  }

  /** No run admits more in an interval than the limit for each window met, and some run does. */
  lemma SlidingMaximum(cfg: Config, s0: Store<Key>, id: Identity, endpoint: string, from: int, length: int)
    returns (log: seq<Visit>)
    requires Proper(cfg) && WholeSeconds(cfg) && Clean(s0) && length >= 1
    ensures Prompt(cfg, log) && SubjectLimit(cfg, log, SubjectOf(id), endpoint, LimitOf(cfg.jwtLimit, id))
    ensures AdmittedBetween(cfg, s0, log, SubjectOf(id), endpoint, from, from + length)
            == WindowsIn(cfg, from, length) * AtLeastZero(LimitOf(cfg.jwtLimit, id))
  {
    WindowsMet(cfg, from, length);
    log := FullBursts(cfg, s0, id, endpoint, from, from + length, Index(cfg, from),
                      WindowsIn(cfg, from, length));
  }

  /** In one instant a bearer user is let through exactly as often as the JWT limit says, and a key as
      often as its rate. */
  lemma FullAllowance(cfg: Config, s0: Store<Key>, user: int, plan: string, key: Option<(int, int)>,
      endpoint: string, t: int) returns (log: seq<Visit>)
    requires Proper(cfg) && WholeSeconds(cfg) && Clean(s0)
    requires if key.Some? then key.value.1 >= 0 else cfg.jwtLimit >= 0
    ensures Prompt(cfg, log) && forall v | v in log ::
              v.identity == Some(Identity(user, plan, if key.Some? then Some(key.value.0) else None,
                                          if key.Some? then Some(key.value.1) else None))
    ensures
      var who := if key.Some? then ApiKey(key.value.0) else User(user);
      AdmittedBetween(cfg, s0, log, who, endpoint, t, t + 1)
      == if key.Some? then key.value.1 else cfg.jwtLimit
  {
    var id := Identity(user, plan, if key.Some? then Some(key.value.0) else None,
                       if key.Some? then Some(key.value.1) else None);
    log := FullBursts(cfg, s0, id, endpoint, t, t + 1, Index(cfg, t), 1);
  }

  // ---- when the limiter slides ----

  /** What a sliding window promises of one interval: no run admits more than the limit in it. */
  ghost predicate SlidingPromise(
      cfg: Config, s0: Store<Key>, id: Identity, endpoint: string, from: int, length: int)
    requires Proper(cfg)
  {
    var limit := LimitOf(cfg.jwtLimit, id);
    forall log: seq<Visit> | Prompt(cfg, log) && SubjectLimit(cfg, log, SubjectOf(id), endpoint, limit) ::
      AdmittedBetween(cfg, s0, log, SubjectOf(id), endpoint, from, from + length) <= AtLeastZero(limit)
  }

  /** The promise holds of an interval exactly if it lies within one window, or nothing is ever
      admitted. */
  lemma SlidingPromiseIff(cfg: Config, s0: Store<Key>, id: Identity, endpoint: string, from: int, length: int)
    requires Proper(cfg) && WholeSeconds(cfg) && Clean(s0) && length >= 1
    ensures SlidingPromise(cfg, s0, id, endpoint, from, length) <==>
              LimitOf(cfg.jwtLimit, id) <= 0 || Index(cfg, from) == Index(cfg, from + length - 1)
  {
    var who, limit := SubjectOf(id), LimitOf(cfg.jwtLimit, id);
    var m := WindowsIn(cfg, from, length);
    if limit <= 0 || m == 1 {
      forall log: seq<Visit> | Prompt(cfg, log) && SubjectLimit(cfg, log, who, endpoint, limit)
        ensures AdmittedBetween(cfg, s0, log, who, endpoint, from, from + length) <= AtLeastZero(limit)
      {
        IntervalBound(cfg, s0, log, who, endpoint, limit, from, length);
      }
    } else {
      var log := SlidingMaximum(cfg, s0, id, endpoint, from, length);
      MulMonotone(2, m, limit);
      assert AdmittedBetween(cfg, s0, log, who, endpoint, from, from + length) > AtLeastZero(limit);
    }
  }

  /** The limiter is a sliding window, for every interval of a window's length, only where windows
      are a single tick or nothing is ever admitted. */
  lemma SlidingWindowIff(cfg: Config, s0: Store<Key>, id: Identity, endpoint: string)
    requires Proper(cfg) && WholeSeconds(cfg) && Clean(s0)
    ensures (forall from: int :: SlidingPromise(cfg, s0, id, endpoint, from, cfg.window)) <==>
              LimitOf(cfg.jwtLimit, id) <= 0 || cfg.window == 1
  {
    if LimitOf(cfg.jwtLimit, id) <= 0 || cfg.window == 1 {
      forall from: int ensures SlidingPromise(cfg, s0, id, endpoint, from, cfg.window) {
        SlidingPromiseIff(cfg, s0, id, endpoint, from, cfg.window);
      }
    } else {
      var from := Begin(cfg, 1) - 1;
      IndexUnique(cfg, from, 0);
      IndexUnique(cfg, from + cfg.window - 1, 1);
      SlidingPromiseIff(cfg, s0, id, endpoint, from, cfg.window);
      assert !SlidingPromise(cfg, s0, id, endpoint, from, cfg.window);
    }
  }

  /** The factor two is real: a full burst at the last tick of one window and another at the first
      tick of the next all get through. */
  lemma TwiceTheLimitReached(cfg: Config, s0: Store<Key>, id: Identity, endpoint: string)
    returns (log: seq<Visit>, from: int)
    requires Proper(cfg) && WholeSeconds(cfg) && Clean(s0) && cfg.window >= 2
    ensures Prompt(cfg, log)
    ensures AdmittedBetween(cfg, s0, log, SubjectOf(id), endpoint, from, from + cfg.window)
            == 2 * AtLeastZero(LimitOf(cfg.jwtLimit, id))
  {
    from := Begin(cfg, 1) - 1;
    IndexUnique(cfg, from, 0);
    IndexUnique(cfg, from + cfg.window - 1, 1);
    log := SlidingMaximum(cfg, s0, id, endpoint, from, cfg.window);
  }

  // ---- the most a late script can admit ----

  /** A request for the window that starts at `start`, whose script runs `i` windows later: the clock
      was read as early as the delay allows. */
  function Straggler(cfg: Config, id: Identity, endpoint: string, start: int, delay: nat, i: nat): Visit {
    var exec := start + i * cfg.window;
    var stamp := if exec - delay < start then start else exec - delay;
    Visit(Some(id), endpoint, stamp, exec, exec, NoFault)
  }

  lemma StragglerFits(cfg: Config, id: Identity, endpoint: string, delay: nat, i: nat)
    requires Proper(cfg) && i <= CeilDiv(delay, cfg.window)
    ensures
      var v := Straggler(cfg, id, endpoint, cfg.offset, delay, i);
      Index(cfg, v.stamp) == 0 && v.stamp <= v.exec <= v.stamp + delay
  {
    var w, c := cfg.window, CeilDiv(delay, cfg.window);
    DivBounds(delay + w - 1, w);
    MulMonotone(i, c, w);
    MulMonotone(0, i, w);
    IndexUnique(cfg, Straggler(cfg, id, endpoint, cfg.offset, delay, i).stamp, 0);
  }

  lemma OneMore(cfg: Config, s0: Store<Key>, log: seq<Visit>, v: Visit, k: Key)
    requires Proper(cfg)
    ensures After(cfg, s0, log + [v]) == Serve(cfg, After(cfg, s0, log), v).0
    ensures Admitted(cfg, s0, log + [v], {k})
            == Admitted(cfg, s0, log, {k}) + if AdmittedOn(cfg, After(cfg, s0, log), v, {k}) then 1 else 0
    ensures Lifetimes(cfg, s0, log + [v], k)
            == Lifetimes(cfg, s0, log, k) + if Restarts(cfg, After(cfg, s0, log), v, k) then 1 else 0
  {
    var whole := log + [v];
    assert whole[..|whole| - 1] == log && whole[|whole| - 1] == v;
  }

  /** Counter `k` has been charged `n` times, all at `at`, since it last ran out. */
  ghost predicate StartedAt(cfg: Config, s: Store<Key>, k: Key, at: int, n: nat) {
    if n == 0 then !Live(s, k, at) else k in s && s[k] == Entry(Count(n), at + cfg.window)
  }

  lemma ServeStarted(cfg: Config, s: Store<Key>, v: Visit, k: Key, n: nat)
    requires Proper(cfg) && WholeSeconds(cfg) && v.identity.Some? && v.fault == NoFault && KeyOf(cfg, v) == k
    requires n < LimitOf(cfg.jwtLimit, v.identity.value) && StartedAt(cfg, s, k, v.exec, n)
    ensures StartedAt(cfg, Serve(cfg, s, v).0, k, v.exec, n + 1)
    ensures AdmittedOn(cfg, s, v, {k}) && (Restarts(cfg, s, v, k) <==> n == 0)
  {
    WholeWindow(cfg, v.stamp);
  }

  /** A burst on a counter that has run out starts it afresh, once, and is admitted up to the limit. */
  lemma {:induction false} FreshBurst(cfg: Config, s0: Store<Key>, log: seq<Visit>, v: Visit, n: nat, k: Key)
    requires Proper(cfg) && WholeSeconds(cfg) && v.identity.Some? && v.fault == NoFault && KeyOf(cfg, v) == k
    requires n <= LimitOf(cfg.jwtLimit, v.identity.value) && !Live(After(cfg, s0, log), k, v.exec)
    ensures
      var whole := log + Burst(n, v);
      && StartedAt(cfg, After(cfg, s0, whole), k, v.exec, n)
      && Admitted(cfg, s0, whole, {k}) == Admitted(cfg, s0, log, {k}) + n
      && Lifetimes(cfg, s0, whole, k) == Lifetimes(cfg, s0, log, k) + if n > 0 then 1 else 0
  {
    if n == 0 {
      assert log + Burst(0, v) == log;
    } else {
      var before := log + Burst(n - 1, v);
      BurstGrows(log, v, n);
      FreshBurst(cfg, s0, log, v, n - 1, k);
      ServeStarted(cfg, After(cfg, s0, before), v, k, n - 1);
      OneMore(cfg, s0, before, v, k);
    }
  }

  ghost predicate Stragglers(log: seq<Visit>, id: Identity, delay: nat) {
    forall v | v in log :: v.identity == Some(id) && v.stamp <= v.exec <= v.stamp + delay
  }

  /** `log` gave counter `k` exactly `m` lifetimes, each used up to the limit, the last one over. */
  ghost predicate Exhausts(cfg: Config, log: seq<Visit>, id: Identity, delay: nat, k: Key, m: nat)
    requires Proper(cfg)
  {
    && Stragglers(log, id, delay)
    && !Live(After(cfg, map[], log), k, cfg.offset + m * cfg.window)
    && Admitted(cfg, map[], log, {k}) == m * LimitOf(cfg.jwtLimit, id)
    && Lifetimes(cfg, map[], log, k) == m
  }

  lemma AnotherLifetime(cfg: Config, before: seq<Visit>, id: Identity, endpoint: string, delay: nat, k: Key, m: nat)
    returns (log: seq<Visit>)
    requires Proper(cfg) && WholeSeconds(cfg) && LimitOf(cfg.jwtLimit, id) >= 1
    requires m <= CeilDiv(delay, cfg.window) && Exhausts(cfg, before, id, delay, k, m)
    requires k == KeyOf(cfg, Straggler(cfg, id, endpoint, cfg.offset, delay, m))
    ensures Exhausts(cfg, log, id, delay, k, m + 1)
  {
    var n, v := LimitOf(cfg.jwtLimit, id), Straggler(cfg, id, endpoint, cfg.offset, delay, m);
    StragglerFits(cfg, id, endpoint, delay, m);
    FreshBurst(cfg, map[], before, v, n, k);
    log := before + Burst(n, v);
    forall x | x in log ensures x.identity == Some(id) && x.stamp <= x.exec <= x.stamp + delay {
      assert x in before || x in Burst(n, v);
    }
    MulNext(m, cfg.window);
    MulNext(m, n);
  }

  lemma {:induction false} FullLifetimes(cfg: Config, id: Identity, endpoint: string, delay: nat, k: Key, m: nat)
    returns (log: seq<Visit>)
    requires Proper(cfg) && WholeSeconds(cfg) && LimitOf(cfg.jwtLimit, id) >= 1
    requires m <= CeilDiv(delay, cfg.window) + 1
    requires forall i | 0 <= i < m :: KeyOf(cfg, Straggler(cfg, id, endpoint, cfg.offset, delay, i)) == k
    ensures Exhausts(cfg, log, id, delay, k, m)
  {
    if m == 0 {
      log := [];
    } else {
      var before := FullLifetimes(cfg, id, endpoint, delay, k, m - 1);
      log := AnotherLifetime(cfg, before, id, endpoint, delay, k, m - 1);
    }
  }

  /** The bound on late scripts is reached, for every delay: as many lifetimes as it allows, each
      admitting the limit. */
  lemma LateScriptBoundReached(cfg: Config, id: Identity, endpoint: string, delay: nat)
    returns (log: seq<Visit>, k: Key)
    requires Proper(cfg) && WholeSeconds(cfg) && LimitOf(cfg.jwtLimit, id) >= 1
    ensures k.Window? && DelayedBy(log, delay) && LimitsAtMost(cfg, log, k, LimitOf(cfg.jwtLimit, id))
    ensures Lifetimes(cfg, map[], log, k) == CeilDiv(delay, cfg.window) + 1
    ensures Admitted(cfg, map[], log, {k})
            == (CeilDiv(delay, cfg.window) + 1) * LimitOf(cfg.jwtLimit, id)
  {
    var m := CeilDiv(delay, cfg.window) + 1;
    DivMonotone(0, delay + cfg.window - 1, cfg.window);
    k := KeyOf(cfg, Straggler(cfg, id, endpoint, cfg.offset, delay, 0));
    forall i | 0 <= i < m ensures KeyOf(cfg, Straggler(cfg, id, endpoint, cfg.offset, delay, i)) == k {
      StragglerFits(cfg, id, endpoint, delay, 0);
      StragglerFits(cfg, id, endpoint, delay, i);
    }
    log := FullLifetimes(cfg, id, endpoint, delay, k, m);
  }
}
