/** The platform fee as the program computes it, in doubles (src/payouts/payouts.service.ts:46-56): where it
    is the exact fee of Fees, and what rounding the product and the quotient costs elsewhere. The fixed fee is a
    whole number of minor units. */
module FeeDoubles {
  import opened Doubles
  import Fees

  function Clamp(x: int, lo: int, hi: int): int {
    var atLeast := if x < lo then lo else x;
    if atLeast > hi then hi else atLeast
  }

  /** (grossMinor * feePercent) / 100. */
  function Share(gross: nat, percent: real): (x: real)
    requires percent >= 0.0
    ensures x >= 0.0
  {
    Hundredth(gross as real * percent)
  }

  function Hundredth(product: real): (x: real)
    requires product >= 0.0
    ensures x >= 0.0
  {
    Fl(Fl(product) / 100.0)
  }

  function ApplicationFee(gross: nat, percent: real, fixed: int): int
    requires percent >= 0.0
  {
    if gross == 0 then 0
    else Clamp(MathRound(Share(gross, percent)) + fixed, 0, gross)
  }

  function SellerNet(gross: nat, percent: real, fixed: int): int
    requires percent >= 0.0
  {
    gross - ApplicationFee(gross, percent, fixed)
  }

  /** The fee is the nearest unit `r` to the double share, halves up, plus the fixed fee, kept between nothing
      and the charge; the seller has the rest. */
  lemma FeeAnswers(gross: nat, percent: real, fixed: int, r: int, product: real)
    requires percent >= 0.0 && product == gross as real * percent && product >= 0.0
    requires Fl(Fl(product) / 100.0) - 0.5 < r as real <= Fl(Fl(product) / 100.0) + 0.5
    ensures ApplicationFee(gross, percent, fixed) ==
            if gross == 0 || r + fixed < 0 then 0 else if r + fixed > gross then gross else r + fixed
    ensures SellerNet(gross, percent, fixed) == gross - ApplicationFee(gross, percent, fixed)
  {
    assert MathRound(Share(gross, percent)) == r;
  }

  const LIMIT: nat := 1125899906842624  // 2^50

  // ---------- Whole percentages ----------

  lemma WholeShareRounds(n: nat)
    requires n <= LIMIT
    ensures MathRound(Hundredth(n as real)) == MathRound(n as real / 100.0)
  {
    WholeIsDouble(n);
    var x := n as real / 100.0;
    HalfUlp(x);
    assert x * U < 0.003;
    if n % 100 == 50 {
      HalfIsDouble(n / 100);
      assert x == (n / 100) as real + 0.5;
    } else {
      OffTheHalf(n, Fl(x));
    }
  }

  lemma OffTheHalf(n: nat, y: real)
    requires n % 100 != 50 && Within(y, n as real / 100.0, 0.003)
    ensures MathRound(y) == MathRound(n as real / 100.0)
  {
    var q, r := n / 100, n % 100;
    var x := q as real + r as real / 100.0;
    assert n as real / 100.0 == x;
    RoundsOffTheHalf(q, r, y);
    RoundsOffTheHalf(q, r, x);
  }

  lemma RoundsOffTheHalf(q: int, r: nat, y: real)
    requires r < 100 && r != 50 && Within(y, q as real + r as real / 100.0, 0.003)
    ensures MathRound(y) == if r < 50 then q else q + 1
  {
    assert r as real <= 49.0 || r as real >= 51.0;
  }

  lemma HalfIsDouble(q: nat)
    requires 100 * q + 50 <= LIMIT
    ensures Fl(q as real + 0.5) == q as real + 0.5
  {
    var x := q as real + 0.5;
    assert 2.0 * x == (2 * q + 1) as real;
    NearestOfWhole(2 * q + 1);
    assert Nearest(x) == Nearest(2.0 * x) / 2.0;
  }

  lemma WholeProductIsExact(gross: nat, percent: real, fixed: int, n: nat)
    requires percent >= 0.0 && gross as real * percent == n as real && n <= LIMIT
    ensures ApplicationFee(gross, percent, fixed) as real
            == Fees.ApplicationFee(gross, percent, fixed as real)
  {
    WholeShareRounds(n);
  }

  /** For a whole percentage, such as the default 10, the doubles give exactly the fee of Fees on every
      charge whose product with it is within 2^50; so everything Fees proves holds of the program. */
  lemma WholePercentIsExact(gross: nat, percent: nat, fixed: int)
    requires gross * percent <= LIMIT
    ensures ApplicationFee(gross, percent as real, fixed) as real
            == Fees.ApplicationFee(gross, percent as real, fixed as real)
  {
    var n := gross * percent;
    assert gross as real * percent as real == n as real;
    WholeProductIsExact(gross, percent as real, fixed, n);
  }

  // ---------- Any percentage ----------

  /** Fee and net split the charge whatever the rounding does. */
  lemma FeeAndNetSplitTheCharge(gross: nat, percent: real, fixed: int)
    requires percent >= 0.0
    ensures 0 <= ApplicationFee(gross, percent, fixed) <= gross
    ensures ApplicationFee(gross, percent, fixed) + SellerNet(gross, percent, fixed) == gross
  {
  }

  lemma ProductGrows(a: nat, b: nat, percent: real)
    requires a <= b && percent >= 0.0
    ensures 0.0 <= a as real * percent <= b as real * percent
  {
  }

  lemma ShareGrows(a: nat, b: nat, percent: real)
    requires a <= b && percent >= 0.0
    ensures Share(a, percent) <= Share(b, percent)
  {
    ProductGrows(a, b, percent);
    RoundingKeepsOrder(a as real * percent, b as real * percent);
    RoundingKeepsOrder(Fl(a as real * percent) / 100.0, Fl(b as real * percent) / 100.0);
  }

  lemma HundredthIsNear(product: real)
    requires product >= 0.0
    ensures Within(Hundredth(product), product / 100.0, product / 100.0 * (2.1 * U))
  {
    HalfUlp(product);
    HalfUlp(Fl(product) / 100.0);
  }

  lemma ShareIsNear(gross: nat, percent: real)
    requires percent >= 0.0
    ensures var exact := Fees.Share(gross, percent);
            exact >= 0.0 && Within(Share(gross, percent), exact, exact * (2.1 * U))
  {
    ProductGrows(0, gross, percent);
    HundredthIsNear(gross as real * percent);
  }

  lemma ShortOfTheWhole(d: real, percent: real)
    requires d >= 1.0 && percent <= 100.0
    ensures d * percent / 100.0 <= d - (100.0 - percent) / 100.0
  {
    assert d * (100.0 - percent) >= 100.0 - percent;
    assert d * (100.0 - percent) == d * 100.0 - d * percent;
  }

  /** The exact share grows by no more than the charge, less what the percentage is short of 100. */
  lemma ExactShareGrowsBy(a: nat, b: nat, percent: real)
    requires a < b && 0.0 <= percent <= 100.0
    ensures Fees.Share(b, percent) - Fees.Share(a, percent) <= (b - a) as real - (100.0 - percent) / 100.0
    ensures 0.0 <= Fees.Share(a, percent) <= Fees.Share(b, percent) <= b as real
  {
    Fees.ShareAdds(a, b - a, percent);
    Fees.ShareIsWithin(a, percent);
    Fees.ShareIsWithin(b, percent);
    Fees.ShareIsWithin(b - a, percent);
    ShortOfTheWhole((b - a) as real, percent);
  }

  lemma SharesDiffer(x: real, y: real, a: real, b: real, grown: real, top: real)
    requires 0.0 <= a <= b <= top && b - a <= grown
    requires Within(x, a, a * (2.1 * U)) && Within(y, b, b * (2.1 * U))
    ensures y - x <= grown + 4.2 * U * top
  {
  }

  lemma ShareGrowsBy(a: nat, b: nat, percent: real)
    requires a < b && 0.0 <= percent <= 100.0
    ensures Share(b, percent) - Share(a, percent)
            <= (b - a) as real - (100.0 - percent) / 100.0 + 4.2 * U * b as real
  {
    ExactShareGrowsBy(a, b, percent);
    ShareIsNear(a, percent);
    ShareIsNear(b, percent);
    SharesDiffer(Share(a, percent), Share(b, percent), Fees.Share(a, percent), Fees.Share(b, percent),
                 (b - a) as real - (100.0 - percent) / 100.0, b as real);
  }

  /** For percentages up to 100 and any fixed fee, a larger charge never lowers the fee, and never lowers
      the seller's net either as long as the percentage stays short of 100 by 500 half-ulps of the charge
      - for charges up to 10^10, by a thousandth. */
  lemma FeeAndNetAreMonotone(smaller: nat, larger: nat, percent: real, fixed: int)
    requires smaller <= larger && 0.0 <= percent <= 100.0
    ensures ApplicationFee(smaller, percent, fixed) <= ApplicationFee(larger, percent, fixed)
    ensures 100.0 - percent >= 500.0 * U * larger as real ==>
              SellerNet(smaller, percent, fixed) <= SellerNet(larger, percent, fixed)
  {
    if smaller < larger {
      ShareGrows(smaller, larger, percent);
      FeeGrows(smaller, larger, percent, fixed);
      if 100.0 - percent >= 500.0 * U * larger as real {
        ShareGrowsBy(smaller, larger, percent);
        Fees.RoundGrowsWithin(Share(smaller, percent), Share(larger, percent), larger - smaller);
        NetGrows(smaller, larger, percent, fixed);
      }
    }
  }

  lemma FeeGrows(a: nat, b: nat, percent: real, fixed: int)
    requires a <= b && percent >= 0.0 && Share(a, percent) <= Share(b, percent)
    ensures ApplicationFee(a, percent, fixed) <= ApplicationFee(b, percent, fixed)
  {
    FeeAndNetSplitTheCharge(b, percent, fixed);
    assert MathRound(Share(a, percent)) <= MathRound(Share(b, percent));
  }

  lemma NetGrows(a: nat, b: nat, percent: real, fixed: int)
    requires a < b && percent >= 0.0
    requires MathRound(Share(b, percent)) <= MathRound(Share(a, percent)) + (b - a)
    ensures SellerNet(a, percent, fixed) <= SellerNet(b, percent, fixed)
  {
    FeeAndNetSplitTheCharge(b, percent, fixed);
  }

  /** Without that margin the net falls by at most one minor unit, for charges up to 2^46. */
  lemma NetFallsByAtMostOne(smaller: nat, larger: nat, percent: real, fixed: int)
    requires smaller < larger <= 70368744177664 && 0.0 <= percent <= 100.0
    ensures SellerNet(larger, percent, fixed) >= SellerNet(smaller, percent, fixed) - 1
  {
    ShareGrows(smaller, larger, percent);
    ShareGrowsBy(smaller, larger, percent);
    Fees.RoundGrowsWithin(Share(smaller, percent), Share(larger, percent), larger - smaller + 1);
    FeeAndNetSplitTheCharge(larger, percent, fixed);
    FeeAndNetSplitTheCharge(smaller, percent, fixed);
  }

  lemma FlTranslates(x: real, larger: real, n: nat, k: nat)
    requires 0.0 < x && 0.0 <= larger <= x + n as real && AtOneScale(x, x + n as real, k) && (n % 2 == 0 || k > 0)
    ensures Fl(larger) <= Fl(x) + n as real
  {
    NearestTranslates(x, n, k);
    RoundingKeepsOrder(larger, x + n as real);
  }

  lemma ShareTranslates(product: real, larger: real, d: nat, k: nat, j: nat)
    requires 0.0 < product <= larger <= product + (100 * d) as real
    requires AtOneScale(product, product + (100 * d) as real, k)
    requires Fl(product) / 100.0 > 0.0 && AtOneScale(Fl(product) / 100.0, Fl(product) / 100.0 + d as real, j) && j > 0
    ensures Hundredth(larger) <= Hundredth(product) + d as real
  {
    HundredsAreEven(d);
    FlTranslates(product, larger, 100 * d, k);
    HundredthsWithin(Fl(product), Fl(larger), d);
    FlTranslates(Fl(product) / 100.0, Fl(larger) / 100.0, d, j);
  }

  lemma HundredsAreEven(d: nat)
    ensures (100 * d) % 2 == 0
  {
  }

  lemma HundredthsWithin(p: real, larger: real, d: nat)
    requires 0.0 <= larger <= p + (100 * d) as real
    ensures 0.0 <= larger / 100.0 <= p / 100.0 + d as real
  {
  }

  lemma ScaledBy(x: real, d: real, percent: real)
    requires x > 0.0 && d >= 0.0 && 0.0 < percent <= 100.0
    ensures (x + d) * percent == x * percent + d * percent
    ensures 0.0 <= d * percent <= 100.0 * d
    ensures 0.0 < x * percent <= 100.0 * x
  {
    assert 0.0 <= d * (100.0 - percent) == 100.0 * d - d * percent;
    assert 0.0 <= x * (100.0 - percent) == 100.0 * x - x * percent;
  }

  lemma ProductsGrow(a: nat, b: nat, percent: real, product: real) returns (bigger: real)
    requires 0 < a < b && 0.0 < percent <= 100.0 && product == a as real * percent
    ensures bigger == b as real * percent
    ensures 0.0 < product <= bigger <= product + (100 * (b - a)) as real && product <= (100 * a) as real
  {
    var d := (b - a) as real;
    ScaledBy(a as real, d, percent);
    assert b as real == a as real + d;
    assert (100 * (b - a)) as real == 100.0 * d && (100 * a) as real == 100.0 * a as real;
    bigger := b as real * percent;
  }

  lemma QuotientIsSmall(product: real, gross: nat)
    requires 0.0 < product <= (100 * gross) as real && gross <= 70368744177664
    ensures 0.0 < Fl(product) / 100.0 < P52
  {
    RoundingKeepsOrder(product, (100 * gross) as real);
    WholeIsDouble(100 * gross);
    HalfUlp(product);
  }

  lemma NetHoldsWithinScales(a: nat, b: nat, percent: real, fixed: int, product: real, bigger: real, k: nat, j: nat)
    requires a < b <= 70368744177664 && percent >= 0.0
    requires product == a as real * percent && bigger == b as real * percent
    requires 0.0 < product <= bigger <= product + (100 * (b - a)) as real && product <= (100 * a) as real
    requires AtOneScale(product, product + (100 * (b - a)) as real, k)
    requires AtOneScale(Fl(product) / 100.0, Fl(product) / 100.0 + (b - a) as real, j)
    ensures SellerNet(a, percent, fixed) <= SellerNet(b, percent, fixed)
  {
    QuotientIsSmall(product, a);
    ShareTranslates(product, bigger, b - a, k, j);
    ShareGrows(a, b, percent);
    Fees.RoundGrowsWithin(Share(a, percent), Share(b, percent), b - a);
    NetGrows(a, b, percent, fixed);
  }

  /** Between the charge `a` and `b` the product, grown by 100 for each unit of charge, or the quotient,
      grown by one, crosses a power of two. */
  ghost predicate ScaleChanges(a: nat, b: nat, product: real)
    requires a < b && product >= 0.0
  {
    || CrossesAPowerOfTwo(product, product + (100 * (b - a)) as real)
    || CrossesAPowerOfTwo(Fl(product) / 100.0, Fl(product) / 100.0 + (b - a) as real)
  }

  lemma NetHoldsUnlessScaleChanges(a: nat, b: nat, percent: real, fixed: int, product: real, bigger: real)
    requires a < b <= 70368744177664 && percent >= 0.0
    requires product == a as real * percent && bigger == b as real * percent
    requires 0.0 < product <= bigger <= product + (100 * (b - a)) as real && product <= (100 * a) as real
    ensures ScaleChanges(a, b, product) || SellerNet(a, percent, fixed) <= SellerNet(b, percent, fixed)
  {
    var grown, q := product + (100 * (b - a)) as real, Fl(product) / 100.0;
    var next := q + (b - a) as real;
    if !CrossesAPowerOfTwo(product, grown) && !CrossesAPowerOfTwo(q, next) {
      var k: nat :| AtOneScale(product, grown, k);
      var j: nat :| AtOneScale(q, next, j);
      NetHoldsWithinScales(a, b, percent, fixed, product, bigger, k, j);
    }
  }

  /** In doubles a larger charge lowers the seller's net only where the scale of the rounding changes in
      between, and only for a percentage within 500 half-ulps of the charge of 100. */
  lemma NetFallsOnlyAcrossAPowerOfTwo(smaller: nat, larger: nat, percent: real, fixed: int, product: real)
    requires 0 < smaller < larger <= 70368744177664 && 0.0 < percent <= 100.0 && product == smaller as real * percent
    requires SellerNet(larger, percent, fixed) < SellerNet(smaller, percent, fixed)
    ensures 100.0 - percent < 500.0 * U * larger as real
    ensures product >= 0.0 && ScaleChanges(smaller, larger, product)
  {
    FeeAndNetAreMonotone(smaller, larger, percent, fixed);
    var bigger := ProductsGrow(smaller, larger, percent, product);
    NetHoldsUnlessScaleChanges(smaller, larger, percent, fixed, product, bigger);
  }

  /** 214748362925 / 2^31, a double just below 100. */
  const NEARLY_100 := 214748362925.0 / 2147483648.0

  lemma SmallerShare()
    ensures MathRound(Share(171798693, NEARLY_100)) == 171798691
  {
    PowersForFees();
    var product := 171798693.0 * NEARLY_100;
    NearestScaled(product, 36893488074404657025.0 / 4096.0, 19);
    HalvedIsScaled(9007199236915199.0, 19);
    assert Fl(product) == 9007199236915199.0 / 524288.0;
    NearestScaled(Fl(product) / 100.0, 144115187790643184.0 / 25.0, 25);
    HalvedIsScaled(5764607511625727.0, 25);
  }

  lemma LargerShare()
    ensures MathRound(Share(171798694, NEARLY_100)) == 171798693
  {
    PowersForFees();
    var product := 171798694.0 * NEARLY_100;
    NearestScaled(product, 18446744144576509975.0 / 4096.0, 18);
    HalvedIsScaled(4503599644672000.0, 18);
    assert Fl(product) == 4503599644672000.0 / 262144.0;
    NearestScaled(Fl(product) / 100.0, 5764607545180160.0, 25);
    HalvedIsScaled(5764607545180160.0, 25);
  }

  lemma PowersForFees()
    ensures Pow2(18) == 262144.0 && Pow2(19) == 524288.0 && Pow2(25) == 33554432.0
  {
    assert Pow2(10) == 1024.0;
  }

  /** It does fall: with the percentage a hair below 100, one more minor unit of charge leaves the seller
      one minor unit less. */
  lemma NetFalls()
    ensures SellerNet(171798693, NEARLY_100, 0) == 2 && SellerNet(171798694, NEARLY_100, 0) == 1
  {
    SmallerShare();
    LargerShare();
  }

  lemma ProductUpToHundred(gross: nat, percent: real)
    requires 0.0 <= percent <= 100.0
    ensures 0.0 <= gross as real * percent <= (100 * gross) as real
  {
    var x := gross as real;
    assert x * percent <= x * 100.0;
  }

  lemma HundredthAtMost(product: real, gross: nat)
    requires 0.0 <= product <= (100 * gross) as real && gross <= 70368744177664
    ensures Hundredth(product) <= gross as real
  {
    RoundingKeepsOrder(product, (100 * gross) as real);
    WholeIsDouble(100 * gross);
    RoundingKeepsOrder(Fl(product) / 100.0, gross as real);
    WholeIsDouble(gross);
  }

  lemma NoMoreThanTheCharge(gross: nat, percent: real)
    requires 0.0 <= percent <= 100.0 && gross <= 70368744177664
    ensures Share(gross, percent) <= gross as real
  {
    ProductUpToHundred(gross, percent);
    HundredthAtMost(gross as real * percent, gross);
  }

  /** Without a fixed fee the clamp to the charge is idle for percentages up to 100. */
  lemma ClampIsIdleUpToHundred(gross: nat, percent: real)
    requires 0.0 <= percent <= 100.0 && gross <= 70368744177664
    ensures ApplicationFee(gross, percent, 0) == MathRound(Share(gross, percent))
  {
    NoMoreThanTheCharge(gross, percent);
  }

  // ---------- Many charges ----------

  function Total(charges: seq<nat>, percent: real): int
    requires percent >= 0.0
  {
    if charges == [] then 0
    else Total(charges[..|charges| - 1], percent) + ApplicationFee(charges[|charges| - 1], percent, 0)
  }

  lemma OneFeeIsNear(gross: nat, percent: real)
    requires 0.0 <= percent <= 100.0 && gross <= 70368744177664
    ensures var exact := Fees.Share(gross, percent);
            exact >= 0.0 && Within(ApplicationFee(gross, percent, 0) as real, exact, 0.5 + exact * (2.1 * U))
  {
    ClampIsIdleUpToHundred(gross, percent);
    ShareIsNear(gross, percent);
  }

  /** Without a fixed fee, the fees over any n charges differ from the exact percentage of their sum by at
      most n/2 minor units and 2.1 half-ulps of that percentage. */
  lemma {:induction false} FeesDriftByHalfEach(charges: seq<nat>, percent: real)
    requires 0.0 <= percent <= 100.0 && forall k :: 0 <= k < |charges| ==> charges[k] <= 70368744177664
    ensures var exact := Fees.Share(Fees.Sum(charges), percent);
            exact >= 0.0 &&
            Within(Total(charges, percent) as real, exact, |charges| as real / 2.0 + exact * (2.1 * U))
  {
    if charges == [] {
      assert Fees.Share(0, percent) == 0.0;
    } else {
      var init, last := charges[..|charges| - 1], charges[|charges| - 1];
      FeesDriftByHalfEach(init, percent);
      OneFeeIsNear(last, percent);
      Fees.ShareAdds(Fees.Sum(init), last, percent);
    }
  }
}
