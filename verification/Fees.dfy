/** The platform fee and the seller's net (src/payouts/payouts.service.ts:46-56), in minor units, over exact
    arithmetic; the percentage and the fixed fee may be any real numbers. */
module Fees {
  import opened Doubles

  function Clamp(x: real, lo: real, hi: real): real {
    var atLeast := if x < lo then lo else x;
    if atLeast > hi then hi else atLeast
  }

  /** The exact percentage of a charge. */
  function Share(gross: int, percent: real): real {
    (gross as real * percent) / 100.0
  }

  function ApplicationFee(gross: int, percent: real, fixed: real): real {
    if gross <= 0 then 0.0
    else Clamp(MathRound(Share(gross, percent)) as real + fixed, 0.0, gross as real)
  }

  function SellerNet(gross: int, percent: real, fixed: real): real {
    gross as real - ApplicationFee(gross, percent, fixed)
  }

  /** Whatever the configuration - negative, fractional or over 100 per cent included - fee and net are
      non-negative and add up to the charge. */
  lemma FeeAndNetSplitTheCharge(gross: int, percent: real, fixed: real)
    requires gross >= 0
    ensures 0.0 <= ApplicationFee(gross, percent, fixed) <= gross as real
    ensures 0.0 <= SellerNet(gross, percent, fixed) <= gross as real
    ensures ApplicationFee(gross, percent, fixed) + SellerNet(gross, percent, fixed) == gross as real
  {
  }

  /** The fee is the percentage rounded to the nearest unit `r`, halves up, plus the fixed fee, kept between
      nothing and the charge; the seller has the rest. */
  lemma FeeAnswers(gross: int, percent: real, fixed: real, r: int)
    requires gross as real * percent / 100.0 - 0.5 < r as real <= gross as real * percent / 100.0 + 0.5
    ensures ApplicationFee(gross, percent, fixed) ==
            if gross <= 0 || r as real + fixed < 0.0 then 0.0
            else if r as real + fixed > gross as real then gross as real
            else r as real + fixed
    ensures SellerNet(gross, percent, fixed) == gross as real - ApplicationFee(gross, percent, fixed)
  {
    assert MathRound(Share(gross, percent)) == r;
  }

  lemma ShareAdds(a: int, b: int, percent: real)
    ensures Share(a + b, percent) == Share(a, percent) + Share(b, percent)
  {
    assert (a + b) as real * percent == a as real * percent + b as real * percent;
  }

  lemma ShareIsWithin(gross: int, percent: real)
    requires gross >= 0 && 0.0 <= percent <= 100.0
    ensures 0.0 <= Share(gross, percent) <= gross as real
  {
    assert 0.0 <= gross as real * percent <= gross as real * 100.0;
  }

  lemma RoundGrowsWithin(x: real, y: real, k: int)
    requires x <= y <= x + k as real
    ensures MathRound(x) <= MathRound(y) <= MathRound(x) + k
  {
  }

  /** For a percentage from 0 to 100 and any fixed fee, a larger charge never lowers the fee nor the
      seller's net, in spite of rounding and clamping. */
  lemma FeeAndNetAreMonotone(smaller: int, larger: int, percent: real, fixed: real)
    requires 0 <= smaller <= larger && 0.0 <= percent <= 100.0
    ensures ApplicationFee(smaller, percent, fixed) <= ApplicationFee(larger, percent, fixed)
    ensures SellerNet(smaller, percent, fixed) <= SellerNet(larger, percent, fixed)
  {
    ShareAdds(smaller, larger - smaller, percent);
    ShareIsWithin(larger - smaller, percent);
    RoundGrowsWithin(Share(smaller, percent), Share(larger, percent), larger - smaller);
    ClampGrowsWithin(MathRound(Share(smaller, percent)) as real + fixed,
                     MathRound(Share(larger, percent)) as real + fixed, smaller as real, larger as real);
    FeeAndNetSplitTheCharge(larger, percent, fixed);
  }

  lemma ClampGrowsWithin(x: real, y: real, a: real, b: real)
    requires x <= y <= x + (b - a) && 0.0 <= a <= b
    ensures Clamp(x, 0.0, a) <= Clamp(y, 0.0, b) <= Clamp(x, 0.0, a) + (b - a)
  {
  }

  /** With no fixed fee the clamp to the charge is idle on every charge exactly for percentages up to
      100. */
  lemma ClampIsIdleExactlyUpToHundred(percent: real)
    requires percent >= 0.0
    ensures (forall gross: nat :: MathRound(Share(gross, percent)) <= gross) <==> percent <= 100.0
  {
    if percent <= 100.0 {
      forall gross: nat ensures MathRound(Share(gross, percent)) <= gross {
        ShareIsWithin(gross, percent);
      }
    } else {
      var excess := percent - 100.0;
      var gross: nat := (100.0 / excess).Floor + 1;
      ScaledExcess(gross, excess);
      assert gross as real * percent == gross as real * 100.0 + gross as real * excess;
      assert MathRound(Share(gross, percent)) > gross;
    }
  }

  lemma ScaledExcess(gross: int, excess: real)
    requires excess > 0.0 && gross as real >= 100.0 / excess
    ensures gross as real * excess >= 100.0
  {
    assert (100.0 / excess) * excess == 100.0;
  }

  // ---------- Many charges ----------

  function Fees(charges: seq<nat>, percent: real): real {
    if charges == [] then 0.0
    else Fees(charges[..|charges| - 1], percent) + ApplicationFee(charges[|charges| - 1], percent, 0.0)
  }

  function Sum(charges: seq<nat>): nat {
    if charges == [] then 0 else Sum(charges[..|charges| - 1]) + charges[|charges| - 1]
  }

  predicate WithinHalves(fees: real, exact: real, n: nat) {
    exact - n as real / 2.0 <= fees <= exact + n as real / 2.0
  }

  lemma OneFeeIsNear(gross: nat, percent: real)
    requires 0.0 <= percent <= 100.0
    ensures WithinHalves(ApplicationFee(gross, percent, 0.0), Share(gross, percent), 1)
  {
    ShareIsWithin(gross, percent);
    assert gross == 0 ==> Share(gross, percent) == 0.0;
  }

  lemma HalvesAdd(a: real, x: real, m: nat, b: real, y: real, n: nat)
    requires WithinHalves(a, x, m) && WithinHalves(b, y, n)
    ensures WithinHalves(a + b, x + y, m + n)
  {
  }

  /** Without a fixed fee, the fees over any list of n charges differ from the exact percentage of
      their sum by at most n/2 minor units. */
  lemma {:induction false} FeesDriftByHalfEach(charges: seq<nat>, percent: real)
    requires 0.0 <= percent <= 100.0
    ensures WithinHalves(Fees(charges, percent), Share(Sum(charges), percent), |charges|)
  {
    if charges == [] {
      assert Share(0, percent) == 0.0;
    } else {
      var init, last := charges[..|charges| - 1], charges[|charges| - 1];
      FeesDriftByHalfEach(init, percent);
      OneFeeIsNear(last, percent);
      ShareAdds(Sum(init), last, percent);
      HalvesAdd(Fees(init, percent), Share(Sum(init), percent), |init|,
               ApplicationFee(last, percent, 0.0), Share(last, percent), 1);
    }
  }
}
