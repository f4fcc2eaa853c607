/** Discount codes: creation, the preview of `validate` and the charge inside checkout
    (src/discount/discount.service.ts:25-131, src/order/order.service.ts:178-252). */
module Discounts {
  import opened Wrappers
  import opened Entities

  datatype CodeError =
    | NoSuchCode | Inactive | NotYetValid | Expired | UsedUp | UsedUpByCustomer | BelowMinimum
    | Over100Percent

  /** What a seller submits; `isActive` has already been given its default. */
  datatype Terms = Terms(
    kind: DiscountKind, value: nat, minimumOrder: Option<nat>, maxUses: Option<nat>,
    maxUsesPerCustomer: Option<nat>, validFrom: int, validUntil: Option<int>, isActive: bool)

  /** `create`: a percentage over 100 is refused; a new code has not been used. */
  function MakeCode(business: Id, t: Terms): Result<Code, CodeError> {
    if t.kind.Percentage? && t.value > 100_00 then Failure(Over100Percent)
    else
      Success(Code(business, t.kind, t.value, t.minimumOrder, t.maxUses, 0, t.maxUsesPerCustomer,
                   t.validFrom, t.validUntil, t.isActive))
  }

  /** n/d to the nearest integer, halves up: toFixed(2) on a penny scale. */
  function RoundHalfUp(n: nat, d: nat): (r: nat)
    requires d > 0
    ensures 2 * n - d < 2 * r * d <= 2 * n + d
  {
    var q := (2 * n + d) / (2 * d);
    assert (2 * d) * q <= 2 * n + d < (2 * d) * q + 2 * d;
    q
  }

  /** calculateDiscount, used by the preview: not clamped for percentages. */
  function CalculateDiscount(code: Code, amount: nat): nat {
    match code.kind
    case Percentage => RoundHalfUp(amount * code.value, 100_00)
    case FixedAmount => if code.value <= amount then code.value else amount
  }

  /** The discount checkout takes: the percentage is clamped to the subtotal before rounding. */
  function Charge(code: Code, itemsTotal: nat): nat {
    match code.kind
    case Percentage =>
      if itemsTotal * code.value <= itemsTotal * 100_00 then
        RoundHalfUp(itemsTotal * code.value, 100_00)
      else RoundHalfUp(itemsTotal * 100_00, 100_00)
    case FixedAmount => if code.value <= itemsTotal then code.value else itemsTotal
  }

  predicate Exhausted(limit: Option<nat>, used: int) {
    Limited(limit) && used >= limit.value
  }

  predicate TooEarly(code: Code, now: int) {
    now < code.validFrom
  }

  predicate TooLate(code: Code, now: int) {
    code.validUntil.Some? && now > code.validUntil.value
  }

  predicate Below(code: Code, amount: int) {
    code.minimumOrder.Some? && amount < code.minimumOrder.value
  }

  /** The row found by code text and business, if there is one. */
  function Find(codes: map<Id, Code>, id: Id, business: Id): Option<Code> {
    if id in codes && codes[id].business == business then Some(codes[id]) else None
  }

  /** Checkout's checks, in its order. `rows` counts the customer's usage rows for the code. */
  function CheckCode(found: Option<Code>, rows: nat, now: int, itemsTotal: nat): Option<CodeError> {
    match found
    case None => Some(NoSuchCode)
    case Some(code) =>
      if !code.isActive then Some(Inactive)
      else if TooEarly(code, now) then Some(NotYetValid)
      else if TooLate(code, now) then Some(Expired)
      else if Exhausted(code.maxUses, code.usedCount) then Some(UsedUp)
      else if Exhausted(code.maxUsesPerCustomer, rows) then Some(UsedUpByCustomer)
      else if Below(code, itemsTotal) then Some(BelowMinimum)
      else None
  }

  datatype Quote = Quote(discountAmount: int, finalAmount: int)

  /** The preview. `rows` is None for an anonymous caller, who skips the per-customer check. */
  function Validate(found: Option<Code>, rows: Option<nat>, now: int, amount: nat): Result<Quote, CodeError> {
    match found
    case None => Failure(NoSuchCode)
    case Some(code) =>
      if !code.isActive then Failure(Inactive)
      else if TooEarly(code, now) then Failure(NotYetValid)
      else if TooLate(code, now) then Failure(Expired)
      else if Exhausted(code.maxUses, code.usedCount) then Failure(UsedUp)
      else if Below(code, amount) then Failure(BelowMinimum)
      else if rows.Some? && Exhausted(code.maxUsesPerCustomer, rows.value) then Failure(UsedUpByCustomer)
      else
        var discount := CalculateDiscount(code, amount);
        Success(Quote(discount, amount - discount))
  }

  /** totalAmount of checkout, in pennies. */
  function Total(itemsTotal: nat, discount: int, deliveryFee: nat): int {
    itemsTotal - discount + deliveryFee
  }

  // ---------- Properties ----------

  /** What a code must satisfy, column by column: `rows` counts the customer's usage rows. */
  predicate CodeAccepts(code: Code, rows: nat, now: int, total: int) {
    && code.isActive
    && code.validFrom <= now
    && (code.validUntil.Some? ==> now <= code.validUntil.value)
    && (code.maxUses.Some? && code.maxUses.value != 0 ==> code.usedCount < code.maxUses.value)
    && (code.maxUsesPerCustomer.Some? && code.maxUsesPerCustomer.value != 0 ==> rows < code.maxUsesPerCustomer.value)
    && (code.minimumOrder.Some? ==> code.minimumOrder.value <= total)
  }

  predicate UsesLeft(code: Code) {
    code.maxUses.None? || code.maxUses.value == 0 || code.usedCount < code.maxUses.value
  }

  predicate CustomerUsesLeft(code: Code, rows: nat) {
    code.maxUsesPerCustomer.None? || code.maxUsesPerCustomer.value == 0 || rows < code.maxUsesPerCustomer.value
  }

  /** Checkout's checks accept exactly the codes whose columns allow it, and each refusal gives the first
      reason that applies: inactive, not yet valid, expired, used up, used up by the customer, below the
      minimum. */
  lemma CheckCodeAnswers(code: Code, rows: nat, now: int, total: int)
    requires total >= 0
    ensures CheckCode(None, rows, now, total) == Some(NoSuchCode)
    ensures CheckCode(Some(code), rows, now, total).None? <==> CodeAccepts(code, rows, now, total)
    ensures !code.isActive ==> CheckCode(Some(code), rows, now, total) == Some(Inactive)
    ensures code.isActive && now < code.validFrom ==> CheckCode(Some(code), rows, now, total) == Some(NotYetValid)
    ensures code.isActive && code.validFrom <= now && code.validUntil.Some? && code.validUntil.value < now ==>
              CheckCode(Some(code), rows, now, total) == Some(Expired)
    ensures InForce(code, now) && !UsesLeft(code) ==> CheckCode(Some(code), rows, now, total) == Some(UsedUp)
    ensures InForce(code, now) && UsesLeft(code) && !CustomerUsesLeft(code, rows) ==>
              CheckCode(Some(code), rows, now, total) == Some(UsedUpByCustomer)
    ensures InForce(code, now) && UsesLeft(code) && CustomerUsesLeft(code, rows)
              && code.minimumOrder.Some? && total < code.minimumOrder.value ==>
              CheckCode(Some(code), rows, now, total) == Some(BelowMinimum)
  {
  }

  predicate InForce(code: Code, now: int) {
    code.isActive && code.validFrom <= now && (code.validUntil.None? || now <= code.validUntil.value)
  }

  /** The preview likewise, with the minimum before the customer's own limit, and no such limit for an
      anonymous caller. */
  lemma ValidateAnswers(code: Code, rows: Option<nat>, now: int, amount: nat)
    ensures Validate(None, rows, now, amount) == Failure(NoSuchCode)
    ensures Validate(Some(code), rows, now, amount).Success? <==>
            CodeAccepts(code, 0, now, amount) && (rows.Some? ==> CustomerUsesLeft(code, rows.value))
    ensures !code.isActive ==> Validate(Some(code), rows, now, amount) == Failure(Inactive)
    ensures code.isActive && now < code.validFrom ==> Validate(Some(code), rows, now, amount) == Failure(NotYetValid)
    ensures code.isActive && code.validFrom <= now && code.validUntil.Some? && code.validUntil.value < now ==>
              Validate(Some(code), rows, now, amount) == Failure(Expired)
    ensures InForce(code, now) && !UsesLeft(code) ==> Validate(Some(code), rows, now, amount) == Failure(UsedUp)
    ensures InForce(code, now) && UsesLeft(code) && code.minimumOrder.Some? && amount < code.minimumOrder.value ==>
              Validate(Some(code), rows, now, amount) == Failure(BelowMinimum)
    ensures InForce(code, now) && UsesLeft(code) && (code.minimumOrder.None? || code.minimumOrder.value <= amount)
              && rows.Some? && !CustomerUsesLeft(code, rows.value) ==>
              Validate(Some(code), rows, now, amount) == Failure(UsedUpByCustomer)
  {
  }

  /** An accepted preview quotes a discount and what it leaves: the fixed amount or the order amount, whichever
      is less, or the percentage rounded to the nearest penny, halves up, over 100 or not. */
  lemma ValidateQuotes(code: Code, rows: Option<nat>, now: int, amount: nat)
    ensures Validate(Some(code), rows, now, amount).Success? ==>
              var q := Validate(Some(code), rows, now, amount).value;
              && q.finalAmount == amount - q.discountAmount
              && (code.kind.FixedAmount? ==> q.discountAmount == if code.value <= amount then code.value else amount)
              && (code.kind.Percentage? ==>
                    2 * amount * code.value - 10000 < 20000 * q.discountAmount <= 2 * amount * code.value + 10000)
  {
  }

  /** What a code takes off a subtotal: a fixed amount or the subtotal, whichever is less; or the percentage,
      at most 100, rounded to the nearest penny, halves up. */
  predicate TakesOff(code: Code, subtotal: nat, discount: int) {
    match code.kind
    case FixedAmount => discount == if code.value <= subtotal then code.value else subtotal
    case Percentage =>
      var percent := if code.value <= 100_00 then code.value else 100_00;
      2 * subtotal * percent - 10000 < 20000 * discount <= 2 * subtotal * percent + 10000
  }

  lemma ChargeTakesOff(code: Code, subtotal: nat)
    ensures TakesOff(code, subtotal, Charge(code, subtotal))
  {
    if code.kind.Percentage? {
      ChargeIsRoundedRate(code, subtotal);
    }
  }

  /** `create` refuses exactly percentages over 100, and stores every term in its own column, unused. */
  lemma MakeCodeAnswers(business: Id, t: Terms)
    ensures MakeCode(business, t).Success? <==> (t.kind == Percentage ==> t.value <= 10000)
    ensures MakeCode(business, t).Failure? ==> MakeCode(business, t).error == Over100Percent
    ensures MakeCode(business, t).Success? ==>
              var c := MakeCode(business, t).value;
              && c.business == business && c.kind == t.kind && c.value == t.value && c.minimumOrder == t.minimumOrder
              && c.maxUses == t.maxUses && c.maxUsesPerCustomer == t.maxUsesPerCustomer && c.usedCount == 0
              && c.validFrom == t.validFrom && c.validUntil == t.validUntil && c.isActive == t.isActive
  {
  }

  /** Whatever the value of the code, checkout never discounts more than the subtotal. */
  lemma ChargeIsWithinSubtotal(code: Code, itemsTotal: nat, deliveryFee: nat)
    ensures 0 <= Charge(code, itemsTotal) <= itemsTotal
    ensures Total(itemsTotal, Charge(code, itemsTotal), deliveryFee) >= deliveryFee
  {
    if code.kind.Percentage? {
      var n := if itemsTotal * code.value <= itemsTotal * 100_00 then itemsTotal * code.value
               else itemsTotal * 100_00;
      assert RoundHalfUp(n, 100_00) * 2 * 100_00 <= 2 * itemsTotal * 100_00 + 100_00;
    }
  }

  lemma PercentageWithinHundred(amount: nat, value: nat)
    requires value <= 100_00
    ensures amount * value <= amount * 100_00
  {
  }

  /** For a code as `create` makes it, used any number of times since, the preview given the cart
      total and the customer accepts exactly when checkout does, and quotes exactly what checkout
      then charges for the items. An anonymous preview never refuses what checkout accepts. */
  lemma PreviewAgreesWithCharge(business: Id, terms: Terms, used: int, rows: nat, now: int, total: nat, fee: nat)
    requires MakeCode(business, terms).Success?
    ensures var code := MakeCode(business, terms).value.(usedCount := used);
            var quote := Validate(Some(code), Some(rows), now, total);
            && (quote.Success? <==> CheckCode(Some(code), rows, now, total).None?)
            && (quote.Success? ==>
                  quote.value.discountAmount == Charge(code, total) &&
                  quote.value.finalAmount == Total(total, Charge(code, total), fee) - fee)
            && (CheckCode(Some(code), rows, now, total).None? ==>
                  Validate(Some(code), None, now, total) == quote)
  {
    if terms.kind.Percentage? {
      PercentageWithinHundred(total, terms.value);
    }
  }

  /** When both refuse they give the same reason, unless the cart is below the minimum and the
      customer has also run out: the two code paths test those in opposite orders. */
  lemma RefusalsAgreeExceptOnOrder(code: Code, rows: nat, now: int, total: nat)
    requires CheckCode(Some(code), rows, now, total).Some?
    ensures var preview := Validate(Some(code), Some(rows), now, total);
            preview.Failure? &&
            (preview.error == CheckCode(Some(code), rows, now, total).value <==>
             !(CheckCode(Some(code), rows, now, total) == Some(UsedUpByCustomer) && Below(code, total)))
  {
  }

  /** Preview and charge agree on every order amount exactly when `create` would have let the code
      through: the clamp exists only in checkout. */
  lemma PreviewNeedsTheCreateGuard(code: Code)
    ensures (forall amount: nat :: CalculateDiscount(code, amount) == Charge(code, amount))
            <==> !(code.kind.Percentage? && code.value > 100_00)
  {
    if code.kind.Percentage? && code.value > 100_00 {
      var amount := 100_00;
      assert amount * code.value > amount * 100_00;
      assert CalculateDiscount(code, amount) == code.value by {
        var r := RoundHalfUp(amount * code.value, 100_00);
        assert 2 * amount * code.value - 100_00 < 2 * r * 100_00 <= 2 * amount * code.value + 100_00;
      }
      assert Charge(code, amount) == amount;
      assert CalculateDiscount(code, amount) != Charge(code, amount);
    } else if code.kind.Percentage? {
      forall amount: nat ensures CalculateDiscount(code, amount) == Charge(code, amount) {
        PercentageWithinHundred(amount, code.value);
      }
    }
  }

  /** Each penny more in the cart never costs the customer less in all: the discounted total is
      monotone in the subtotal, rounding and clamp included. */
  lemma DiscountedTotalIsMonotone(code: Code, smaller: nat, larger: nat)
    requires smaller <= larger
    ensures smaller - Charge(code, smaller) <= larger - Charge(code, larger)
    ensures Charge(code, smaller) <= Charge(code, larger)
  {
    if code.kind.Percentage? {
      ChargeIsRoundedRate(code, smaller);
      ChargeIsRoundedRate(code, larger);
      RoundedRateGrowsWithin(smaller, larger, Rate(code));
    }
  }

  lemma RoundedRateGrowsWithin(smaller: nat, larger: nat, v: nat)
    requires smaller <= larger && v <= 100_00
    ensures RoundHalfUp(smaller * v, 100_00) <= RoundHalfUp(larger * v, 100_00)
            <= RoundHalfUp(smaller * v, 100_00) + (larger - smaller)
  {
    RateGrowsWithin(smaller, larger, v);
    RoundingKeepsOrder(smaller * v, larger * v, larger - smaller);
  }

  lemma RateGrowsWithin(smaller: nat, larger: nat, v: nat)
    requires smaller <= larger && v <= 100_00
    ensures smaller * v <= larger * v <= smaller * v + (larger - smaller) * 100_00
  {
    var d := larger - smaller;
    assert larger * v == smaller * v + d * v;
    PercentageWithinHundred(d, v);
  }

  lemma RoundingKeepsOrder(x: nat, y: nat, k: nat)
    requires x <= y <= x + k * 100_00
    ensures RoundHalfUp(x, 100_00) <= RoundHalfUp(y, 100_00) <= RoundHalfUp(x, 100_00) + k
  {
  }

  function Rate(code: Code): nat {
    if code.value <= 100_00 then code.value else 100_00
  }

  lemma ChargeIsRoundedRate(code: Code, total: nat)
    requires code.kind.Percentage?
    ensures Charge(code, total) == RoundHalfUp(total * Rate(code), 100_00)
  {
    if code.value <= 100_00 {
      PercentageWithinHundred(total, code.value);
    } else if total > 0 {
      assert total * code.value > total * 100_00;
    } else {
      assert total * code.value == 0;
    }
  }
}
