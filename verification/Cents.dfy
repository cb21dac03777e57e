/** What float64 arithmetic makes of a whole amount plus 0.01. */
module Cents {
  import opened Arithmetic
  import opened Float64

  /** 2^59: the float64 nearest to 0.01 is `CENT / SCALE`. */
  const SCALE: int := 0x800_0000_0000_0000
  const CENT: int := 5764607523034235

  /** No multiple of the ulp of `CENT` is nearer to a hundredth. */
  lemma CentIsNearest(m: int)
    ensures Ulp(CENT) == 1
    ensures Distance(100 * CENT, SCALE) <= Distance(100 * m, SCALE)
  {
  }

  /** 2^47: from here on floats are too far apart to hold cents. */
  const TWO_47: int := 0x8000_0000_0000

  function Abs(n: int): nat {
    if n < 0 then -n else n
  }

  /** An integer rounded to 53 significant bits. */
  function Rounded(n: int): int {
    if n < 0 then -Nearest(-n) else Nearest(n)
  }

  /** The float64 sum of the whole number `n` and 0.01, in units of `1 / SCALE`. */
  function ScaledSum(n: int): int {
    Rounded(n * SCALE + CENT)
  }

  function PlusCent(n: int): real {
    ScaledSum(n) as real / SCALE as real
  }

  // ---- how large the ulp is ----

  lemma {:induction false} UlpFloor(n: nat, k: nat)
    requires n >= TWO_53 * Pow2(k)
    ensures Ulp(n) >= 2 * Pow2(k)
  {
    if k > 0 {
      UlpFloor(n / 2, k - 1);
    }
  }

  lemma {:induction false} UlpCeiling(n: nat, k: nat)
    requires n < TWO_53 * Pow2(k)
    ensures Ulp(n) <= Pow2(k)
  {
    if n >= TWO_53 {
      UlpCeiling(n / 2, k - 1);
    }
  }

  lemma Pow2Of53()
    ensures Pow2(53) == TWO_53
  {
    assert Pow2(10) == 1024;
    assert Pow2(20) == 1048576;
    assert Pow2(30) == 1073741824;
    assert Pow2(40) == 1099511627776;
    assert Pow2(50) == 1125899906842624;
  }

  lemma RoundingError(n: nat)
    ensures 2 * Distance(Nearest(n), n) <= Ulp(n)
  {
    DivBounds(n, Ulp(n));
  }

  /** Below 2^106 the sum is rounded by less than a cent, so it stays off the whole numbers. */
  lemma SmallSumIsOff(m: nat)
    requires m < TWO_53 * TWO_53
    ensures Distance(Nearest(m), m) < CENT
  {
    Pow2Of53();
    UlpCeiling(m, 53);
    RoundingError(m);
  }

  /** The next whole number is a full unit away. */
  lemma NextWhole(x: int, w: int)
    requires x % SCALE == 0 && x > w * SCALE
    ensures x >= w * SCALE + SCALE
  {
    DivExact(x, SCALE);
  }

  lemma OffWhole(x: int, w: int)
    requires w * SCALE < x < w * SCALE + SCALE
    ensures x % SCALE != 0
  {
    if x % SCALE == 0 {
      NextWhole(x, w);
      assert false;
    }
  }

  lemma {:induction false} Pow2Multiple(e: nat, k: nat)
    requires k <= e
    ensures Pow2(e) % Pow2(k) == 0
  {
    if k > 0 {
      Pow2Multiple(e - 1, k - 1);
      DoubleMultiple(Pow2(e - 1), Pow2(k - 1));
    }
  }

  lemma {:induction false} Pow2Product(a: nat, b: nat)
    ensures Pow2(a) * Pow2(b) == Pow2(a + b)
  {
    if a > 0 {
      Pow2Product(a - 1, b);
      assert Pow2(a) * Pow2(b) == 2 * (Pow2(a - 1) * Pow2(b));
    }
  }

  lemma Pow2Of59()
    ensures Pow2(59) == SCALE
  {
    Pow2Of53();
  }

  /** A whole float64 stays one when scaled. */
  lemma ScaledIsFloat64(w: nat)
    requires IsFloat64(w)
    ensures IsFloat64(w * SCALE)
  {
    var m: nat, e: nat :| Holds(w, m, e);
    Pow2Product(e, 59);
    Pow2Of59();
    assert w * SCALE == m * (Pow2(e) * Pow2(59));
    assert Holds(w * SCALE, m, e + 59);
  }

  /** The binade of a number of at least 2^106 begins at a whole number. */
  lemma BinadeIsWhole(m: nat)
    requires m >= TWO_53 * TWO_53
    ensures Ulp(m) >= 2 * TWO_53 && (TWO_53 / 2 * Ulp(m)) % SCALE == 0
  {
    Pow2Of53();
    Pow2Of59();
    UlpFloor(m, 53);
    var e := UlpIsPower(m);
    assert e >= 54 by {
      if e < 54 {
        Pow2Monotone(e, 53);
        assert false;
      }
    }
    Pow2Multiple(e, 54);
    HalfTimes(e);
  }

  lemma {:induction false} Pow2Monotone(a: nat, b: nat)
    requires a <= b
    ensures Pow2(a) <= Pow2(b)
  {
    if a < b {
      Pow2Monotone(a, b - 1);
    }
  }

  lemma HalfTimes(e: nat)
    requires e >= 54
    ensures (TWO_53 / 2 * Pow2(e)) % SCALE == 0
  {
    Pow2Of53();
    Pow2Of59();
    assert Pow2(52) == TWO_53 / 2;
    Pow2Product(52, e);
    Pow2Multiple(52 + e, 59);
  }

  /** Large and positive: the cent is lost. */
  lemma LargeSumIsWhole(w: nat)
    requires IsFloat64(w) && w >= TWO_47
    ensures Nearest(w * SCALE + CENT) == w * SCALE
  {
    var x, m := w * SCALE, w * SCALE + CENT;
    ScaledIsFloat64(w);
    BinadeIsWhole(m);
    if x % Ulp(m) != 0 {
      OffGridIsBelow(m, x);
      NextWhole(TWO_53 / 2 * Ulp(m), w);
      assert false;
    }
    RoundsDown(x, CENT, Ulp(m));
  }

  lemma RoundsDown(x: nat, r: nat, u: nat)
    requires u >= 1 && x % u == 0 && 2 * r < u
    ensures RoundTo(x + r, u) == x
  {
    DivExact(x, u);
    QuotientOf(x / u, r, u);
  }

  lemma RoundsUp(x: nat, r: nat, u: nat)
    requires u >= 1 && x % u == 0 && 0 < 2 * r < u && r <= x
    ensures RoundTo(x - r, u) == x
  {
    DivExact(x, u);
    MulNext(x / u - 1, u);
    QuotientOf(x / u - 1, u - r, u);
  }

  lemma QuotientOf(q: int, r: nat, u: nat)
    requires r < u
    ensures (q * u + r) / u == q
  {
    var d := (q * u + r) / u;
    DivBounds(q * u + r, u);
    if d < q {
      MulMonotone(d + 1, q, u);
      MulNext(d, u);
    } else if d > q {
      MulMonotone(q + 1, d, u);
      MulNext(q, u);
    }
  }

  /** Large and negative: the cent is lost. */
  lemma LargeDifferenceIsWhole(w: nat)
    requires IsFloat64(w) && w > TWO_47
    ensures Nearest(w * SCALE - CENT) == w * SCALE
  {
    var x, m := w * SCALE, w * SCALE - CENT;
    ScaledIsFloat64(w);
    BinadeIsWhole(m);
    if x % Ulp(m) != 0 {
      OffGridIsBelow(m, x);
      assert false;
    }
    RoundsUp(x, CENT, Ulp(m));
  }

  /** Adding a cent to a whole float64 makes a number with a fraction exactly from -2^47 up to, but
      not including, 2^47. Outside, nothing is added. */
  lemma PlusCentIff(n: int)
    requires IsFloat64(Abs(n))
    ensures ScaledSum(n) % SCALE != 0 <==> -TWO_47 <= n < TWO_47
    ensures !(-TWO_47 <= n < TWO_47) ==> ScaledSum(n) == n * SCALE
    ensures n * SCALE <= ScaledSum(n) < n * SCALE + SCALE / 32
  {
    if n >= 0 {
      if n < TWO_47 {
        SmallSumIsOff(n * SCALE + CENT);
        OffWhole(ScaledSum(n), n);
      } else {
        LargeSumIsWhole(n);
        RemainderOf(SCALE, n, 0);
      }
    } else {
      var w := -n;
      assert -(n * SCALE + CENT) == w * SCALE - CENT;
      if n >= -TWO_47 {
        SmallSumIsOff(w * SCALE - CENT);
        OffWhole(ScaledSum(n), n);
      } else {
        LargeDifferenceIsWhole(w);
        RemainderOf(SCALE, n, 0);
      }
    }
  }
}
