/** What survives when a non-negative integer is written as a JSON number, read back as a float64
    (round to nearest, ties to even) and converted to int64. */
module Float64 {
  import opened Text
  import opened Arithmetic

  const TWO_53: int := 0x20_0000_0000_0000
  const TWO_63: int := 0x8000_0000_0000_0000

  function Pow2(e: nat): (p: nat)
    ensures p >= 1
  {
    if e == 0 then 1 else 2 * Pow2(e - 1)
  }

  /** The integers a float64 can hold: 53 significant bits and an exponent. Negative exponents add no
      integers, and below 2^64 no exponent is out of range. */
  ghost predicate IsFloat64(n: nat) {
    exists m: nat, e: nat :: Holds(n, m, e)
  }

  predicate Holds(n: nat, m: nat, e: nat) {
    m < TWO_53 && n == m * Pow2(e)
  }

  /** The distance between neighbouring floats around `n`, or 1 where they are finer than integers. */
  function Ulp(n: nat): (u: nat)
    ensures u >= 1
    ensures n < TWO_53 * u
  {
    if n < TWO_53 then 1 else 2 * Ulp(n / 2)
  }

  /** Round to a multiple of `u`, to the even one of two equally near. */
  function RoundTo(n: nat, u: nat): int
    requires u >= 1
  {
    var low := n / u * u;
    var r := n - low;
    if 2 * r < u || (2 * r == u && n / u % 2 == 0) then low else low + u
  }

  function Nearest(n: nat): int {
    RoundTo(n, Ulp(n))
  }

  function ToInt64(x: real): int {
    var t := if x >= 0.0 then x.Floor else -((-x).Floor);
    if -TWO_63 <= t < TWO_63 then t else -TWO_63
  }

  /** Conversion cuts the fraction off, toward zero. */
  lemma ToInt64Truncates(x: real)
    requires -TWO_63 as real < x < TWO_63 as real
    ensures x >= 0.0 ==> ToInt64(x) as real <= x < ToInt64(x) as real + 1.0
    ensures x <= 0.0 ==> ToInt64(x) as real - 1.0 < x <= ToInt64(x) as real
  {
  }

  function Distance(a: int, b: int): int {
    if a < b then b - a else a - b
  }

  /** No multiple of `u` is nearer. */
  lemma RoundsToNearest(n: nat, u: nat, m: int)
    requires u >= 1
    ensures RoundTo(n, u) == n / u * u || RoundTo(n, u) == (n / u + 1) * u
    ensures Distance(RoundTo(n, u), n) <= Distance(m * u, n)
  {
    var q := n / u;
    DivBounds(n, u);
    assert (q + 1) * u == q * u + u;
    if m <= q {
      MulMonotone(m, q, u);
    } else {
      MulMonotone(q + 1, m, u);
    }
  }

  ghost predicate EvenMultiple(x: int, u: nat) {
    exists q: int :: x == q * u && q % 2 == 0
  }

  /** Where a multiple of `u` can lie relative to two neighbouring ones. */
  lemma GridPlaces(m: int, q: int, u: nat)
    ensures m * u <= q * u - u || m * u == q * u || m * u == q * u + u || m * u >= q * u + 2 * u
  {
    MulNext(q, u);
    MulNext(q + 1, u);
    if m < q {
      MulMonotone(m + 1, q, u);
      MulNext(m, u);
    } else if m > q + 1 {
      MulMonotone(q + 2, m, u);
    }
  }

  /** Only the two neighbours of `n` can tie, and then `n` lies halfway. */
  lemma TieIsHalfway(n: nat, u: nat, low: int, x: int, r: int)
    requires u >= 1 && low <= n < low + u && (r == low || r == low + u)
    requires x <= low - u || x == low || x == low + u || x >= low + 2 * u
    requires Distance(r, n) <= Distance(low, n) && Distance(r, n) <= Distance(low + u, n)
    ensures x != r && Distance(x, n) == Distance(r, n) ==> 2 * (n - low) == u
  {
  }

  /** Of two multiples that are equally near the even one is taken. */
  lemma TiesToEven(n: nat, u: nat, m: int)
    requires u >= 1
    ensures m * u != RoundTo(n, u) && Distance(m * u, n) == Distance(RoundTo(n, u), n) ==>
              EvenMultiple(RoundTo(n, u), u)
  {
    var q := n / u;
    DivBounds(n, u);
    MulNext(q, u);
    GridPlaces(m, q, u);
    TieIsHalfway(n, u, q * u, m * u, RoundTo(n, u));
    if 2 * (n - q * u) == u {
      HalfwayIsEven(n, u);
    }
  }

  lemma HalfwayIsEven(n: nat, u: nat)
    requires u >= 1 && 2 * (n - n / u * u) == u
    ensures EvenMultiple(RoundTo(n, u), u)
  {
    var q := n / u;
    MulNext(q, u);
    var even := if q % 2 == 0 then q else q + 1;
    assert RoundTo(n, u) == even * u && even % 2 == 0;
  }

  /** An integer survives exactly if it is a multiple of the ulp at its size. */
  lemma RoundExactIff(n: nat, u: nat)
    requires u >= 1
    ensures RoundTo(n, u) == n <==> n % u == 0
  {
    DivBounds(n, u);
    assert n == n / u * u + n % u;
  }

  // ---- the ulp against the definition of a float64 ----

  lemma {:induction false} UlpIsPower(n: nat) returns (e: nat)
    ensures Ulp(n) == Pow2(e)
  {
    if n < TWO_53 {
      e := 0;
    } else {
      e := UlpIsPower(n / 2);
      e := e + 1;
    }
  }

  /** Above 2^53 the ulp is not larger than 53 bits require. */
  lemma {:induction false} UlpIsTight(n: nat)
    requires n >= TWO_53
    ensures n >= TWO_53 / 2 * Ulp(n) && Ulp(n) >= 2
  {
    if n / 2 >= TWO_53 {
      UlpIsTight(n / 2);
    }
  }

  lemma {:induction false} HeldIsMultiple(n: nat, m: nat, e: nat)
    requires Holds(n, m, e)
    ensures n % Ulp(n) == 0
  {
    if n >= TWO_53 {
      assert e > 0;
      assert m * Pow2(e) == 2 * (m * Pow2(e - 1));
      HeldIsMultiple(n / 2, m, e - 1);
      DoubleMultiple(n / 2, Ulp(n / 2));
    }
  }

  lemma DoubleMultiple(a: nat, u: nat)
    requires u >= 1
    ensures a % u == 0 <==> 2 * a % (2 * u) == 0
  {
    var q := a / u;
    assert a == u * q + a % u;
    assert 2 * a == 2 * u * q + 2 * (a % u);
    RemainderOf(2 * u, q, 2 * (a % u));
  }

  lemma RemainderOf(u: nat, q: int, r: nat)
    requires r < u
    ensures (u * q + r) % u == r
  {
    var x := u * q + r;
    DivBounds(x, u);
    var d := x / u;
    if d < q {
      MulMonotone(d + 1, q, u);
      assert false;
    }
    if d > q {
      MulMonotone(q + 1, d, u);
      assert false;
    }
  }

  /** The float64 integers are exactly the multiples of their own ulp. */
  lemma UlpIffFloat64(n: nat)
    ensures n % Ulp(n) == 0 <==> IsFloat64(n)
  {
    if IsFloat64(n) {
      var m, e :| Holds(n, m, e);
      HeldIsMultiple(n, m, e);
    }
    if n % Ulp(n) == 0 {
      DivExact(n, Ulp(n));
      QuotientIsSmall(n);
      GridIsFloat64(n, n / Ulp(n));
    }
  }

  lemma {:induction false} SmallIsFloat64(n: nat)
    requires n <= TWO_53
    ensures IsFloat64(n)
  {
    if n == TWO_53 {
      assert Pow2(1) == 2;
      assert Holds(n, TWO_53 / 2, 1);
    } else {
      assert Holds(n, n, 0);
    }
  }

  // ---- Nearest is the conversion to float64 ----

  lemma {:induction false} UlpDivides(n: nat, x: nat)
    requires n <= x
    ensures Ulp(x) % Ulp(n) == 0
  {
    if n >= TWO_53 {
      UlpDivides(n / 2, x / 2);
      DoubleMultiple(Ulp(x / 2), Ulp(n / 2));
    } else {
      assert Ulp(n) == 1;
    }
  }

  lemma {:induction false} SameBinade(n: nat, x: nat)
    requires x <= n && Ulp(n) >= 2 && x >= TWO_53 / 2 * Ulp(n)
    ensures Ulp(x) == Ulp(n)
  {
    if Ulp(n / 2) >= 2 {
      SameBinade(n / 2, x / 2);
    }
  }

  lemma MultipleOfMultiple(x: nat, v: nat, u: nat)
    requires v >= 1 && u >= 1 && x % v == 0 && v % u == 0
    ensures x % u == 0
  {
    var p, q := x / v, v / u;
    assert x == v * p && v == u * q;
    assert x == u * (q * p);
    RemainderOf(u, q * p, 0);
  }

  /** A float64 that is not a multiple of the ulp around `n` lies below the whole binade of `n`. */
  lemma OffGridIsBelow(n: nat, x: nat)
    requires IsFloat64(x) && x % Ulp(n) != 0
    ensures n >= TWO_53 && x < TWO_53 / 2 * Ulp(n) <= n
  {
    UlpIffFloat64(x);
    assert n < TWO_53 ==> Ulp(n) == 1;
    UlpIsTight(n);
    if x >= n {
      UlpDivides(n, x);
      MultipleOfMultiple(x, Ulp(x), Ulp(n));
      assert false;
    }
    if x >= TWO_53 / 2 * Ulp(n) {
      SameBinade(n, x);
      assert false;
    }
  }

  /** `Nearest` rounds to nearest in the sense of IEEE 754: the result is a float64, no float64 is
      nearer, and on a tie the even one is taken. */
  lemma NearestIsRoundToNearest(n: nat, x: nat)
    requires IsFloat64(x)
    ensures Distance(Nearest(n), n) <= Distance(x, n)
    ensures Distance(Nearest(n), n) == Distance(x, n) && x != Nearest(n) ==>
              EvenMultiple(Nearest(n), Ulp(n))
  {
    var u := Ulp(n);
    if x % u == 0 {
      DivExact(x, u);
      RoundsToNearest(n, u, x / u);
      TiesToEven(n, u, x / u);
    } else {
      OffGridIsBelow(n, x);
      RoundsToNearest(n, u, TWO_53 / 2);
    }
  }

  lemma NearestIsFloat64(n: nat)
    ensures Nearest(n) >= 0 && IsFloat64(Nearest(n))
  {
    var q := n / Ulp(n);
    QuotientIsSmall(n);
    RoundsToNearest(n, Ulp(n), 0);
    var up := if Nearest(n) == q * Ulp(n) then q else q + 1;
    GridIsFloat64(n, up);
  }

  lemma QuotientIsSmall(n: nat)
    ensures n / Ulp(n) < TWO_53
  {
    DivBounds(n, Ulp(n));
    if n / Ulp(n) >= TWO_53 {
      MulMonotone(TWO_53, n / Ulp(n), Ulp(n));
      assert false;
    }
  }

  /** The multiples of the ulp up to the end of the binade, which is where the next one begins. */
  lemma GridIsFloat64(n: nat, q: nat)
    requires q <= TWO_53
    ensures IsFloat64(q * Ulp(n))
  {
    var e := UlpIsPower(n);
    if q < TWO_53 {
      assert Holds(q * Ulp(n), q, e);
    } else {
      assert Pow2(e + 1) == 2 * Ulp(n);
      assert Holds(q * Ulp(n), TWO_53 / 2, e + 1);
    }
  }

  /** The value of the `user_id` claim of user `n` after the journey through the token. */
  function Survivor(n: nat): int {
    ToInt64(Nearest(IntValueNat(Decimal(n))) as real)
  }

  function IntValueNat(s: string): nat {
    if IntValue(s) < 0 then 0 else IntValue(s)
  }

  lemma SurvivesIff(n: nat)
    requires 1 <= n < TWO_63
    ensures Survivor(n) == n <==> IsFloat64(n)
    ensures n <= TWO_53 ==> IsFloat64(n)
  {
    SurvivorIsNearest(n);
    RoundExactIff(n, Ulp(n));
    UlpIffFloat64(n);
    if n <= TWO_53 {
      SmallIsFloat64(n);
    }
  }

  lemma SurvivorIsNearest(n: nat)
    ensures Survivor(n) == ToInt64(Nearest(n) as real)
  {
    DecimalRoundTrip(n);
  }

  lemma TieGoesToEven(n: nat)
    requires n == TWO_53 + 1
    ensures Nearest(n) == TWO_53
  {
    assert Ulp(n / 2) == 1;
    assert Ulp(n) == 2;
  }

  /** The first id that does not survive: user 2^53 + 1 comes back as user 2^53. */
  lemma FirstLoss(n: nat)
    requires n == TWO_53 + 1
    ensures Survivor(n) == TWO_53
  {
    SurvivorIsNearest(n);
    TieGoesToEven(n);
  }
}
