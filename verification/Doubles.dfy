/** binary64 arithmetic on non-negative amounts, over the reals: round to nearest, ties to even, with a
    53-bit significand (section 4.3.1 of IEEE 754-2019), and the decimal conversions of ECMA-262. The
    exponent range is not modelled: an amount that is not zero is far from both ends of it. */
module Doubles {
  const P52: real := 4503599627370496.0
  const P53: real := 9007199254740992.0

  /** Half a unit in the last place, relative to the value. */
  const U: real := 1.0 / 9007199254740992.0

  function RoundEven(x: real): int {
    var f := x.Floor;
    var d := x - f as real;
    if d < 0.5 then f else if d > 0.5 then f + 1 else if f % 2 == 0 then f else f + 1
  }

  function Size(x: real): nat
    requires x > 0.0
  {
    if x >= P53 then x.Floor else if x < P52 then (P52 / x).Floor else 0
  }

  lemma Halving(x: real)
    requires x >= P53
    ensures Size(x / 2.0) < Size(x)
  {
  }

  lemma Doubling(x: real)
    requires 0.0 < x < P52
    ensures Size(2.0 * x) < Size(x)
  {
    var k := P52 / x;
    assert k * x == P52;
    assert k > 1.0;
    if 2.0 * x < P52 {
      assert P52 / (2.0 * x) == k / 2.0 by {
        assert (k / 2.0) * (2.0 * x) == P52;
      }
      assert (k / 2.0).Floor < k.Floor;
    }
  }

  /** The nearest binary64 to a positive real: scaled to a 53-bit integer, rounded, scaled back. */
  function Nearest(x: real): (r: real)
    requires x > 0.0
    ensures r >= 0.0
    decreases Size(x)
  {
    if x >= P53 then
      Halving(x);
      2.0 * Nearest(x / 2.0)
    else if x < P52 then
      Doubling(x);
      Nearest(2.0 * x) / 2.0
    else RoundEven(x) as real
  }

  /** The result of an operation whose exact value is x. */
  function Fl(x: real): (r: real)
    requires x >= 0.0
    ensures r >= 0.0
  {
    if x == 0.0 then 0.0 else Nearest(x)
  }

  predicate Within(y: real, x: real, e: real) {
    x - e <= y <= x + e
  }

  lemma {:induction false} NearestIsNear(x: real)
    requires x > 0.0
    ensures Within(Nearest(x), x, x * U)
    decreases Size(x)
  {
    if x >= P53 {
      Halving(x);
      NearestIsNear(x / 2.0);
    } else if x < P52 {
      Doubling(x);
      NearestIsNear(2.0 * x);
    } else {
      assert Within(RoundEven(x) as real, x, 0.5);
      assert x * U >= 0.5;
    }
  }

  /** The one fact about rounding that the prices rest on. */
  lemma HalfUlp(x: real)
    requires x >= 0.0
    ensures Within(Fl(x), x, x * U)
  {
    if x > 0.0 {
      NearestIsNear(x);
    }
  }

  function Pow2(k: nat): (r: real)
    ensures r >= 1.0
  {
    if k == 0 then 1.0 else 2.0 * Pow2(k - 1)
  }

  lemma PowersOfTwo()
    ensures Pow2(47) == 140737488355328.0 && Pow2(49) == 562949953421312.0 && Pow2(52) == P52
    ensures Pow2(54) == 18014398509481984.0 && Pow2(55) == 36028797018963968.0
    ensures Pow2(59) == 576460752303423488.0
  {
    assert Pow2(10) == 1024.0;
    assert Pow2(20) == 1048576.0;
    assert Pow2(30) == 1073741824.0;
    assert Pow2(40) == 1099511627776.0;
    assert Pow2(47) == 140737488355328.0;
    assert Pow2(54) == 18014398509481984.0;
  }

  function Doubled(x: real, k: nat): real
    decreases k
  {
    if k == 0 then x else Doubled(2.0 * x, k - 1)
  }

  function Halved(x: real, k: nat): real {
    if k == 0 then x else Halved(x, k - 1) / 2.0
  }

  lemma {:induction false} DoubledGrows(x: real, k: nat)
    requires x > 0.0 && k > 0
    ensures Doubled(x, k) >= 2.0 * x
    decreases k
  {
    if k > 1 {
      DoubledGrows(2.0 * x, k - 1);
    }
  }

  lemma {:induction false} NearestByDoubling(x: real, k: nat)
    requires x > 0.0 && P52 <= Doubled(x, k) < P53
    ensures Nearest(x) == Halved(RoundEven(Doubled(x, k)) as real, k)
    decreases k
  {
    if k > 0 {
      DoubledGrows(x, k);
      NearestByDoubling(2.0 * x, k - 1);
    }
  }

  lemma {:induction false} DoubledIsScaled(x: real, k: nat)
    ensures Doubled(x, k) == x * Pow2(k)
    decreases k
  {
    if k > 0 {
      DoubledIsScaled(2.0 * x, k - 1);
      Regroup(x, Pow2(k - 1));
    }
  }

  lemma {:induction false} HalvedIsScaled(x: real, k: nat)
    ensures Halved(x, k) * Pow2(k) == x
    decreases k
  {
    if k > 0 {
      HalvedIsScaled(x, k - 1);
      Regroup(Halved(x, k - 1) / 2.0, Pow2(k - 1));
    }
  }

  lemma Regroup(x: real, p: real)
    ensures (2.0 * x) * p == x * (2.0 * p)
  {
  }

  /** The nearest double to a number below 2^53, by the scale that makes it a 53-bit integer. */
  lemma {:induction false} NearestScaled(x: real, scaled: real, k: nat)
    requires x > 0.0 && scaled == x * Pow2(k) && P52 <= scaled < P53
    ensures Nearest(x) == Halved(RoundEven(scaled) as real, k)
  {
    DoubledIsScaled(x, k);
    NearestByDoubling(x, k);
  }

  lemma {:induction false} HalvingUndoesDoubling(x: real, k: nat)
    ensures Halved(Doubled(x, k), k) == x
    decreases k
  {
    if k > 0 {
      HalvingUndoesDoubling(2.0 * x, k - 1);
    }
  }

  /** A number below 2^53 that is an integer at that scale is a double. */
  lemma IsDouble(x: real, n: int, k: nat)
    requires x > 0.0 && Doubled(x, k) == n as real && P52 <= n as real < P53
    ensures Fl(x) == x
  {
    NearestByDoubling(x, k);
    HalvingUndoesDoubling(x, k);
  }

  lemma ShortDouble(x: real, n: int, k: nat)
    requires x > 0.0 && x * Pow2(k) == n as real && P52 <= n as real < P53
    ensures Fl(x) == x
  {
    DoubledIsScaled(x, k);
    IsDouble(x, n, k);
  }

  // ---------- Rounding within one scale ----------

  /** x and y are rounded at the same scale: no power of two stands between them. */
  predicate AtOneScale(x: real, y: real, k: nat) {
    P52 <= Doubled(x, k) && Doubled(y, k) < P53
  }

  ghost predicate CrossesAPowerOfTwo(x: real, y: real) {
    forall k: nat :: !AtOneScale(x, y, k)
  }

  lemma {:induction false} DoubledAdds(x: real, y: real, k: nat)
    ensures Doubled(x + y, k) == Doubled(x, k) + Doubled(y, k)
    decreases k
  {
    if k > 0 {
      DoubledAdds(2.0 * x, 2.0 * y, k - 1);
      assert 2.0 * (x + y) == 2.0 * x + 2.0 * y;
    }
  }

  lemma {:induction false} HalvedAdds(x: real, y: real, k: nat)
    ensures Halved(x + y, k) == Halved(x, k) + Halved(y, k)
  {
    if k > 0 {
      HalvedAdds(x, y, k - 1);
    }
  }

  lemma {:induction false} DoubledWhole(n: int, k: nat) returns (m: int)
    ensures Doubled(n as real, k) == m as real
    ensures n % 2 == 0 || k > 0 ==> m % 2 == 0
    ensures n >= 0 ==> m >= 0
    decreases k
  {
    if k == 0 {
      m := n;
    } else {
      assert 2.0 * n as real == (2 * n) as real;
      m := DoubledWhole(2 * n, k - 1);
    }
  }

  lemma RoundEvenTranslates(x: real, m: int)
    requires m % 2 == 0
    ensures RoundEven(x + m as real) == RoundEven(x) + m
  {
    assert (x + m as real).Floor == x.Floor + m;
  }

  /** At one scale, adding a whole number that is even there commutes with rounding. */
  lemma NearestTranslates(x: real, n: nat, k: nat)
    requires x > 0.0 && AtOneScale(x, x + n as real, k) && (n % 2 == 0 || k > 0)
    ensures Nearest(x + n as real) == Nearest(x) + n as real
  {
    var m := DoubledWhole(n, k);
    DoubledAdds(x, n as real, k);
    NearestByDoubling(x, k);
    NearestByDoubling(x + n as real, k);
    RoundEvenTranslates(Doubled(x, k), m);
    HalvedAdds(RoundEven(Doubled(x, k)) as real, m as real, k);
    HalvingUndoesDoubling(n as real, k);
  }

  // ---------- Rounding keeps order ----------

  lemma {:induction false} NearestAtMost(x: real)
    requires 0.0 < x <= P53
    ensures Nearest(x) <= P53 && (x <= P52 ==> Nearest(x) <= P52)
    decreases Size(x)
  {
    if x == P53 {
      assert Nearest(P52) == P52;
    } else if x < P52 {
      Doubling(x);
      NearestAtMost(2.0 * x);
    }
  }

  lemma {:induction false} NearestAtLeast(x: real)
    requires x >= P52
    ensures Nearest(x) >= P52 && (x >= P53 ==> Nearest(x) >= P53)
    decreases Size(x)
  {
    if x >= P53 {
      Halving(x);
      NearestAtLeast(x / 2.0);
    }
  }

  lemma BelowScale(x: real, y: real)
    requires 0.0 < x <= y < P52 && Nearest(2.0 * x) <= Nearest(2.0 * y)
    ensures Nearest(x) <= Nearest(y)
  {
  }

  lemma AboveScale(x: real, y: real)
    requires P53 <= x <= y && Nearest(x / 2.0) <= Nearest(y / 2.0)
    ensures Nearest(x) <= Nearest(y)
  {
  }

  lemma AcrossScales(x: real, y: real)
    requires 0.0 < x <= y && (x < P52 <= y || x < P53 <= y)
    ensures Nearest(x) <= Nearest(y)
  {
    NearestAtMost(x);
    NearestAtLeast(y);
  }

  lemma RoundEvenKeepsOrder(x: real, y: real)
    requires x <= y
    ensures RoundEven(x) <= RoundEven(y)
  {
    if x.Floor < y.Floor {
      assert RoundEven(x) <= x.Floor + 1 <= y.Floor <= RoundEven(y);
    } else {
      assert x.Floor == y.Floor;
    }
  }

  lemma AtScale(x: real, y: real)
    requires P52 <= x <= y < P53
    ensures Nearest(x) <= Nearest(y)
  {
    RoundEvenKeepsOrder(x, y);
  }

  lemma {:induction false} NearestIsMonotone(x: real, y: real)
    requires 0.0 < x <= y
    ensures Nearest(x) <= Nearest(y)
    decreases Size(x)
  {
    if x >= P53 {
      Halving(x);
      NearestIsMonotone(x / 2.0, y / 2.0);
      AboveScale(x, y);
    } else if y < P52 {
      Doubling(x);
      NearestIsMonotone(2.0 * x, 2.0 * y);
      BelowScale(x, y);
    } else if x < P52 || y >= P53 {
      AcrossScales(x, y);
    } else {
      AtScale(x, y);
    }
  }

  lemma RoundingKeepsOrder(x: real, y: real)
    requires 0.0 <= x <= y
    ensures Fl(x) <= Fl(y)
  {
    if x > 0.0 {
      NearestIsMonotone(x, y);
    }
  }

  lemma {:induction false} NearestOfWhole(n: int)
    requires 0 < n && n as real < P53
    ensures Nearest(n as real) == n as real
    decreases Size(n as real)
  {
    if n as real < P52 {
      Doubling(n as real);
      assert 2.0 * n as real == (2 * n) as real;
      NearestOfWhole(2 * n);
    }
  }

  lemma WholeIsDouble(n: int)
    requires 0 <= n && n as real < P53
    ensures Fl(n as real) == n as real
  {
    if n > 0 {
      NearestOfWhole(n);
    }
  }

  // ---------- Decimal conversions ----------

  /** x.toFixed(2), as a number of hundredths (section 21.1.3.3 of ECMA-262, 2021 edition). */
  function ToFixed2(x: real): nat
    requires x >= 0.0
  {
    (100.0 * x + 0.5).Floor
  }

  /** No other number of hundredths is nearer, and none equally near is larger. */
  lemma ToFixed2IsNearest(x: real, n: int)
    requires x >= 0.0
    ensures var best := ToFixed2(x) as real - 100.0 * x;
            var other := n as real - 100.0 * x;
            && (if best < 0.0 then -best else best) <= (if other < 0.0 then -other else other)
            && ((if best < 0.0 then -best else best) == (if other < 0.0 then -other else other) ==> n <= ToFixed2(x))
  {
  }

  /** Number(s) for the decimal string of n hundredths. */
  function Amount(n: nat): (r: real)
    ensures r >= 0.0
  {
    Fl(n as real / 100.0)
  }

  /** Math.round: the nearest integer, halves up. */
  function MathRound(x: real): int {
    (x + 0.5).Floor
  }

  /** No other integer is nearer, and none equally near is larger. */
  lemma MathRoundIsNearest(x: real, n: int)
    ensures x - 0.5 < MathRound(x) as real <= x + 0.5
    ensures x - 0.5 < n as real <= x + 0.5 ==> n == MathRound(x)
  {
  }

  lemma AmountIsNear(n: nat)
    ensures Within(Amount(n), n as real / 100.0, n as real / 100.0 * U)
  {
    HalfUlp(n as real / 100.0);
  }

  /** A double within less than half a penny of n pennies prints as n pennies. */
  lemma PrintsAs(x: real, n: nat)
    requires x >= 0.0 && Within(100.0 * x, n as real, 0.499)
    ensures ToFixed2(x) == n
  {
  }
}
