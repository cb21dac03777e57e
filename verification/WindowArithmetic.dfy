/** Windows of fixed length on the integer time line. */
module WindowArithmetic {
  import opened Arithmetic

  /** `perSecond` ticks make one second; `Truncate` counts windows from an instant that is a whole
      number of seconds away from the Unix epoch. */
  datatype Config = Config(window: int, perSecond: int, offset: int, jwtLimit: int)

  predicate Proper(cfg: Config) {
    cfg.window >= 1 && cfg.perSecond >= 1 && cfg.offset % cfg.perSecond == 0
  }

  predicate WholeSeconds(cfg: Config)
    requires cfg.perSecond != 0
  {
    cfg.window % cfg.perSecond == 0
  }

  function Index(cfg: Config, t: int): int
    requires Proper(cfg)
  {
    (t - cfg.offset) / cfg.window
  }

  function Begin(cfg: Config, i: int): int {
    i * cfg.window + cfg.offset
  }

  /** `now.Truncate(window).Unix()` */
  function UnixStart(cfg: Config, t: int): int
    requires Proper(cfg)
  {
    Begin(cfg, Index(cfg, t)) / cfg.perSecond
  }

  /** `int(window.Seconds())`, in ticks: the fraction of a second is cut off. */
  function ExpireAfter(cfg: Config): int
    requires Proper(cfg)
  {
    cfg.window / cfg.perSecond * cfg.perSecond
  }

  function CeilDiv(a: int, b: int): int
    requires b >= 1
  {
    (a + b - 1) / b
  }

  lemma IndexBounds(cfg: Config, t: int)
    requires Proper(cfg)
    ensures Begin(cfg, Index(cfg, t)) <= t < Begin(cfg, Index(cfg, t)) + cfg.window
  {
    DivBounds(t - cfg.offset, cfg.window);
  }

  lemma BeginMonotone(cfg: Config, i: int, j: int)
    requires Proper(cfg) && i < j
    ensures Begin(cfg, i) + cfg.window <= Begin(cfg, j)
  {
    MulMonotone(i + 1, j, cfg.window);
    MulNext(i, cfg.window);
  }

  lemma IndexUnique(cfg: Config, t: int, i: int)
    requires Proper(cfg) && Begin(cfg, i) <= t < Begin(cfg, i) + cfg.window
    ensures Index(cfg, t) == i
  {
    var w, a := cfg.window, t - cfg.offset;
    DivBounds(a, w);
    var q := a / w;
    if q < i {
      MulMonotone(q + 1, i, w);
      assert false;
    }
    if q > i {
      MulMonotone(i + 1, q, w);
      assert false;
    }
  }

  lemma SumOfMultiples(i: int, w: int, o: int, s: int)
    requires s >= 1 && w % s == 0 && o % s == 0
    ensures (i * w + o) / s * s == i * w + o
  {
    var q, p := w / s, o / s;
    assert w == q * s && o == p * s;
    var m := i * q + p;
    assert i * (q * s) == i * q * s;
    assert i * w + o == m * s;
    DivBounds(m * s, s);
    var d := m * s / s;
    if d < m {
      MulMonotone(d + 1, m, s);
      assert false;
    }
    if d > m {
      MulMonotone(m + 1, d, s);
      assert false;
    }
  }

  /** With a window of whole seconds nothing is lost in the seconds of the key and the expiry. */
  lemma WholeWindow(cfg: Config, t: int)
    requires Proper(cfg) && WholeSeconds(cfg)
    ensures UnixStart(cfg, t) * cfg.perSecond == Begin(cfg, Index(cfg, t))
    ensures ExpireAfter(cfg) == cfg.window
  {
    SumOfMultiples(Index(cfg, t), cfg.window, cfg.offset, cfg.perSecond);
    assert cfg.window == cfg.window / cfg.perSecond * cfg.perSecond + cfg.window % cfg.perSecond;
  }

  /** The same window start means the same window. */
  lemma StartDeterminesIndex(cfg: Config, t: int, u: int)
    requires Proper(cfg) && WholeSeconds(cfg) && UnixStart(cfg, t) == UnixStart(cfg, u)
    ensures Index(cfg, t) == Index(cfg, u)
  {
    WholeWindow(cfg, t);
    WholeWindow(cfg, u);
    IndexBounds(cfg, t);
    IndexUnique(cfg, Begin(cfg, Index(cfg, t)), Index(cfg, t));
    IndexUnique(cfg, Begin(cfg, Index(cfg, u)), Index(cfg, u));
  }

  /** An interval of `length` ticks meets at most `ceil(length / window) + 1` windows. */
  lemma WindowsMet(cfg: Config, from: int, length: int)
    requires Proper(cfg) && length >= 1
    ensures Index(cfg, from + length - 1) - Index(cfg, from) + 1 <= CeilDiv(length, cfg.window) + 1
    ensures Index(cfg, from) <= Index(cfg, from + length - 1)
  {
    var w := cfg.window;
    var c := CeilDiv(length, w);
    DivBounds(length + w - 1, w);
    IndexBounds(cfg, from);
    IndexBounds(cfg, from + length - 1);
    DivMonotone(from - cfg.offset, from + length - 1 - cfg.offset, w);
    var i, j := Index(cfg, from), Index(cfg, from + length - 1);
    assert (i + 1 + c) * w == i * w + w + c * w;
    if j - i >= c + 1 {
      MulMonotone(i + 1 + c, j, w);
      assert false;
    }
  }

  lemma IndexRange(cfg: Config, from: int, to: int)
    requires Proper(cfg)
    ensures forall t | from <= t < to :: Index(cfg, from) <= Index(cfg, t) <= Index(cfg, to - 1)
  {
    forall t | from <= t < to ensures Index(cfg, from) <= Index(cfg, t) <= Index(cfg, to - 1) {
      DivMonotone(from - cfg.offset, t - cfg.offset, cfg.window);
      DivMonotone(t - cfg.offset, to - 1 - cfg.offset, cfg.window);
    }
  }

  lemma CeilDivOfShort(length: int, w: int)
    requires 1 <= length <= w
    ensures CeilDiv(length, w) == 1
  {
    var q := CeilDiv(length, w);
    DivBounds(length + w - 1, w);
    if q >= 2 {
      MulMonotone(2, q, w);
      assert false;
    }
    if q <= 0 {
      MulMonotone(q + 1, 1, w);
      assert false;
    }
  }
}
