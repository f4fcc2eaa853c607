/** Checkout's prices in doubles (src/order/order.service.ts:130-131, 174-176, 232-252) and
    toMinorUnits (src/payment/payment.service.ts:39-44) come out as exact pennies. */
module Pricing {
  import opened Doubles
  import opened Discounts
  import opened Entities
  import Checkout

  /** A cart line as priced: unit price in pennies and quantity. */
  datatype PricedLine = PricedLine(price: nat, quantity: nat)

  // ---------- The program's computations ----------

  /** (unitPrice * quantity).toFixed(2), the line total before Number. */
  function LinePennies(line: PricedLine): nat {
    Times(Amount(line.price), line.quantity)
  }

  function Times(unitPrice: real, quantity: nat): nat
    requires unitPrice >= 0.0
  {
    ToFixed2(Fl(unitPrice * quantity as real))
  }

  /** The left-to-right sum of the line totals, each the double nearest its decimal. */
  function Accumulated(lines: seq<PricedLine>): (s: real)
    ensures s >= 0.0
  {
    if lines == [] then 0.0
    else Fl(Accumulated(lines[..|lines| - 1]) + Amount(LinePennies(lines[|lines| - 1])))
  }

  /** Exact pennies. */
  function Exact(lines: seq<PricedLine>): nat {
    if lines == [] then 0
    else Exact(lines[..|lines| - 1]) + lines[|lines| - 1].price * lines[|lines| - 1].quantity
  }

  function ToMinorUnits(n: nat): int {
    MathRound(Fl(Amount(n) * 100.0))
  }

  const LIMIT: nat := 1125899906842624  // 2^50

  /** Just under half of 2^52: the pennies up to which a product of price and quantity surely prints. */
  const LINE_LIMIT: nat := 2_100_000_000_000_000

  const CART_LIMIT: nat := 4_200_000_000_000_000

  /** A cart of n lines and T pennies whose rounding errors surely stay below half a penny. Every n*T up to
      2^50 is within it. */
  predicate Settles(n: nat, total: nat) {
    total == 0 || (n + 1) * (total + 1) <= CART_LIMIT
  }

  lemma Expand(a: nat, b: nat)
    ensures (a + 1) * (b + 1) == a * b + a + b + 1
    ensures (a + 2) * (b + 2) == a * b + 2 * a + 2 * b + 4
    ensures a * b >= 0
  {
  }

  lemma SmallProductsSettle(n: nat, total: nat)
    requires n * total <= LIMIT && n > 0
    ensures Settles(n, total)
  {
    if total > 0 {
      Expand(n - 1, total - 1);
    }
  }

  // ---------- toMinorUnits ----------

  /** toMinorUnits recovers the pennies of every amount up to 2^50 of them, so of every
      decimal(10,2) column. */
  lemma MinorUnitsAreExact(n: nat)
    requires n <= LIMIT
    ensures ToMinorUnits(n) == n
  {
    AmountIsNear(n);
    HalfUlp(Amount(n) * 100.0);
  }

  // ---------- Line totals ----------

  lemma ScaledError(a: real, x: real, q: real)
    requires Within(a, x, x * U) && q >= 0.0 && x >= 0.0
    ensures Within(a * q, x * q, (x * q) * U)
  {
    assert (x - x * U) * q <= a * q <= (x + x * U) * q;
    assert (x * U) * q == (x * q) * U;
  }

  lemma ProductInPounds(price: nat, quantity: nat)
    ensures (price as real / 100.0) * quantity as real == (price * quantity) as real / 100.0
  {
    assert price as real * quantity as real == (price * quantity) as real;
  }

  lemma ScaledPriceIsNear(a: real, price: nat, quantity: nat)
    requires a >= 0.0 && Within(a, price as real / 100.0, price as real / 100.0 * U)
    ensures var e := (price * quantity) as real / 100.0;
            a * quantity as real >= 0.0 && Within(a * quantity as real, e, e * U)
  {
    ProductInPounds(price, quantity);
    ScaledError(a, price as real / 100.0, quantity as real);
  }

  lemma NearPriceRoundsTo(x: real, n: nat)
    requires n <= LINE_LIMIT && x >= 0.0 && Within(x, n as real / 100.0, n as real / 100.0 * U)
    ensures ToFixed2(Fl(x)) == n
  {
    var e := n as real / 100.0;
    HalfUlp(x);
    assert Within(Fl(x), e, e * (2.1 * U));
    PrintsAs(Fl(x), n);
  }

  lemma TimesIsExact(a: real, price: nat, quantity: nat)
    requires a >= 0.0 && Within(a, price as real / 100.0, price as real / 100.0 * U)
    requires price * quantity <= LINE_LIMIT
    ensures Times(a, quantity) == price * quantity
  {
    ScaledPriceIsNear(a, price, quantity);
    NearPriceRoundsTo(a * quantity as real, price * quantity);
  }

  /** Each line total is its exact number of pennies. */
  lemma LineIsExact(line: PricedLine)
    requires line.price * line.quantity <= LINE_LIMIT
    ensures LinePennies(line) == line.price * line.quantity
  {
    AmountIsNear(line.price);
    TimesIsExact(Amount(line.price), line.price, line.quantity);
  }

  // ---------- The running sum ----------

  /** One addition adds at most a half-ulp of the new amount and one of a whole a penny larger. */
  lemma AdditionStep(s: real, exact: real, l: real, t: real, whole: real, error: real)
    requires s >= 0.0 && l >= 0.0 && exact >= 0.0 && t >= 0.0
    requires Within(s, exact, error) && error + t * U <= 0.01
    requires Within(l, t, t * U) && exact + t <= whole
    ensures Within(Fl(s + l), exact + t, error + t * U + (whole + 0.01) * U)
  {
    HalfUlp(s + l);
  }

  /** The error allowed after k lines worth `part` of a cart totalling `total`, in pounds. */
  function Drift(k: nat, part: nat, total: nat): real {
    U * ((part + k * (total + 1)) as real / 100.0)
  }

  lemma DriftIsSmall(k: nat, part: nat, n: nat, total: nat)
    requires k <= n && part <= total && (n + 1) * (total + 1) <= CART_LIMIT
    ensures 0.0 <= Drift(k, part, total) && 100.0 * Drift(k, part, total) <= 0.47
  {
    assert k * (total + 1) <= n * (total + 1);
    assert part + k * (total + 1) <= (n + 1) * (total + 1);
  }

  lemma DriftGrows(k: nat, part: nat, t: nat, total: nat)
    ensures Drift(k + 1, part + t, total) ==
            Drift(k, part, total) + t as real / 100.0 * U + (total as real / 100.0 + 0.01) * U
  {
    assert (k + 1) * (total + 1) == k * (total + 1) + total + 1;
  }

  lemma {:induction false} ExactPrefix(lines: seq<PricedLine>, k: nat)
    requires k <= |lines|
    ensures Exact(lines[..k]) <= Exact(lines)
    decreases |lines|
  {
    if k < |lines| {
      ExactPrefix(lines[..|lines| - 1], k);
      assert lines[..|lines| - 1][..k] == lines[..k];
    } else {
      assert lines[..k] == lines;
    }
  }

  lemma TotalIsWithinLine(n: nat, total: nat)
    requires n > 0 && (n + 1) * (total + 1) <= CART_LIMIT
    ensures total <= LINE_LIMIT
  {
    assert (n + 1) * (total + 1) >= 2 * (total + 1);
  }

  lemma {:induction false} SumDrifts(lines: seq<PricedLine>, k: nat)
    requires k <= |lines| && (|lines| + 1) * (Exact(lines) + 1) <= CART_LIMIT
    ensures Within(Accumulated(lines[..k]), Exact(lines[..k]) as real / 100.0,
                   Drift(k, Exact(lines[..k]), Exact(lines)))
  {
    if k == 0 {
      assert lines[..0] == [];
    } else {
      SumDrifts(lines, k - 1);
      assert lines[..k][..k - 1] == lines[..k - 1];
      ExactPrefix(lines, k);
      ExactPrefix(lines, k - 1);
      TotalIsWithinLine(|lines|, Exact(lines));
      LineIsExact(lines[k - 1]);
      OneLineDrifts(Accumulated(lines[..k - 1]), Exact(lines[..k - 1]), lines[k - 1].price * lines[k - 1].quantity,
                    k - 1, |lines|, Exact(lines));
    }
  }

  lemma OneLineDrifts(s: real, part: nat, t: nat, k: nat, n: nat, total: nat)
    requires s >= 0.0 && k < n && part + t <= total && (n + 1) * (total + 1) <= CART_LIMIT
    requires Within(s, part as real / 100.0, Drift(k, part, total))
    ensures Within(Fl(s + Amount(t)), (part + t) as real / 100.0, Drift(k + 1, part + t, total))
  {
    AmountIsNear(t);
    DriftIsSmall(k, part, n, total);
    DriftGrows(k, part, t, total);
    TotalIsWithinLine(n, total);
    AdditionStep(s, part as real / 100.0, Amount(t), t as real / 100.0, total as real / 100.0, Drift(k, part, total));
  }

  lemma {:induction false} NothingAddsUp(lines: seq<PricedLine>)
    requires Exact(lines) == 0
    ensures Accumulated(lines) == 0.0
  {
    if lines != [] {
      NothingAddsUp(lines[..|lines| - 1]);
      LineIsExact(lines[|lines| - 1]);
    }
  }

  /** For a cart of n lines totalling T pennies, with (n + 1)*(T + 1) at most 4.2 * 10^15, the accumulated
      doubles print as exactly T pennies. */
  lemma SubtotalIsExact(lines: seq<PricedLine>)
    requires Settles(|lines|, Exact(lines))
    ensures ToFixed2(Accumulated(lines)) == Exact(lines)
  {
    if Exact(lines) == 0 {
      NothingAddsUp(lines);
    } else {
      SumDrifts(lines, |lines|);
      assert lines[..|lines|] == lines;
      DriftIsSmall(|lines|, Exact(lines), |lines|, Exact(lines));
      PrintsAs(Accumulated(lines), Exact(lines));
    }
  }

  // ---------- Beyond the bound ----------

  /** A cart and k more lines like `line`. */
  function WithMore(lines: seq<PricedLine>, line: PricedLine, k: nat): seq<PricedLine> {
    if k == 0 then lines else WithMore(lines, line, k - 1) + [line]
  }

  lemma OneLineMore(lines: seq<PricedLine>, line: PricedLine)
    ensures Exact(lines + [line]) == Exact(lines) + line.price * line.quantity
    ensures Accumulated(lines + [line]) == Fl(Accumulated(lines) + Amount(LinePennies(line)))
  {
    assert (lines + [line])[..|lines|] == lines;
  }

  lemma {:induction false} ExactWithMore(lines: seq<PricedLine>, line: PricedLine, k: nat)
    requires line.price * line.quantity == 1
    ensures Exact(WithMore(lines, line, k)) == Exact(lines) + k
  {
    if k > 0 {
      ExactWithMore(lines, line, k - 1);
      OneLineMore(WithMore(lines, line, k - 1), line);
    }
  }

  /** Adding a penny at this scale always rounds up, by 0.36 of a unit in the last place. */
  lemma PennyRoundsUp(m: int)
    requires 4503599627370496 <= m && m + 671089 < 9007199254740992
    ensures m as real / 67108864.0 + Amount(1) >= 0.0
    ensures Fl(m as real / 67108864.0 + Amount(1)) == (m + 671089) as real / 67108864.0
  {
    AmountIsNear(1);
    assert Pow2(10) == 1024.0;
    assert Pow2(26) == 67108864.0;
    var x := m as real / 67108864.0 + Amount(1);
    var scaled := x * 67108864.0;
    assert Within(scaled, m as real + 671088.64, 0.01);
    RoundsToPenny(scaled, m);
    NearestScaled(x, scaled, 26);
    HalvedIsScaled((m + 671089) as real, 26);
  }

  lemma RoundsToPenny(scaled: real, m: int)
    requires Within(scaled, m as real + 671088.64, 0.01)
    ensures RoundEven(scaled) == m + 671089
  {
    assert scaled.Floor == m + 671088;
  }

  lemma {:induction false} SumWithMore(lines: seq<PricedLine>, line: PricedLine, m: int, k: nat)
    requires line.price * line.quantity == 1 && m >= 4503599627370496 && m + 671089 * k < 9007199254740992
    requires Accumulated(lines) == m as real / 67108864.0
    ensures Accumulated(WithMore(lines, line, k)) == (m + 671089 * k) as real / 67108864.0
  {
    if k > 0 {
      SumWithMore(lines, line, m, k - 1);
      OnePennyMore(WithMore(lines, line, k - 1), line, m + 671089 * (k - 1));
    }
  }

  lemma OnePennyMore(lines: seq<PricedLine>, line: PricedLine, m: int)
    requires line.price * line.quantity == 1 && 4503599627370496 <= m && m + 671089 < 9007199254740992
    requires Accumulated(lines) == m as real / 67108864.0
    ensures Accumulated(lines + [line]) == (m + 671089) as real / 67108864.0
  {
    OneLineMore(lines, line);
    LineIsExact(line);
    PennyRoundsUp(m);
  }

  /** 2^26 pounds: an amount that every column holds. */
  const BIG: PricedLine := PricedLine(6710886400, 1)

  const PENNY: PricedLine := PricedLine(1, 1)

  lemma BigLine()
    ensures Exact([BIG]) == 6710886400 && Accumulated([BIG]) == 4503599627370496 as real / 67108864.0
  {
    assert [] + [BIG] == [BIG];
    OneLineMore([], BIG);
    LineIsExact(BIG);
    WholeIsDouble(67108864);
    assert Amount(6710886400) == Fl(67108864 as real);
  }

  /** So some bound is needed, on amounts that fit the columns: a cart of one line of 2^26 pounds and k lines
      of a penny prints its exact total exactly while k is less than 932068. */
  lemma PennyCartIsExactUpTo(k: nat)
    requires k <= 6_000_000_000
    ensures var lines := WithMore([BIG], PENNY, k);
            ToFixed2(Accumulated(lines)) == Exact(lines) <==> k < 932068
  {
    BigLine();
    ExactWithMore([BIG], PENNY, k);
    SumWithMore([BIG], PENNY, 4503599627370496, k);
    PrintsWithDrift(k);
  }

  lemma PrintsWithDrift(k: nat)
    ensures var s := (4503599627370496 + 671089 * k) as real / 67108864.0;
            s >= 0.0 && (ToFixed2(s) == 6710886400 + k <==> k < 932068)
  {
    var s := (4503599627370496 + 671089 * k) as real / 67108864.0;
    assert 100.0 * s == (6710886400 + k) as real + 36.0 * k as real / 67108864.0;
  }

  /** Some bound is needed: one line of 2^46 pounds and a penny, at a price no column holds, prints a
      penny more, because doubles of that size are more than a penny apart. */
  lemma PenniesBlurBeyondTheBound()
    ensures Exact([PricedLine(7036874417766401, 1)]) == 7036874417766401
    ensures LinePennies(PricedLine(7036874417766401, 1)) == 7036874417766402
  {
    var line := PricedLine(7036874417766401, 1);
    assert [line][..0] == [];
    var x := 4503599627370497.0 / 64.0;
    assert Pow2(6) == 64.0;
    NearestScaled(7036874417766401.0 / 100.0, 4503599627370496.64, 6);
    HalvedIsScaled(4503599627370497.0, 6);
    assert Amount(7036874417766401) == x;
    ShortDouble(x, 4503599627370497, 6);
    assert Fl(x * 1.0) == x;
  }

  function PricedLines(items: seq<Item>): seq<PricedLine> {
    seq(|items|, i requires 0 <= i < |items| => PricedLine(items[i].unitPrice, items[i].line.quantity))
  }

  /** Each item's total is its price times its quantity, in pennies, as Priced makes them. */
  predicate PricedAlike(items: seq<Item>) {
    forall i :: 0 <= i < |items| ==> items[i].lineTotal == items[i].unitPrice * items[i].line.quantity
  }

  lemma {:induction false} ExactIsSubtotal(items: seq<Item>)
    requires PricedAlike(items)
    ensures Exact(PricedLines(items)) == Checkout.Subtotal(items)
  {
    if items != [] {
      var init := items[..|items| - 1];
      ExactIsSubtotal(init);
      assert PricedLines(items)[..|items| - 1] == PricedLines(init);
    }
  }

  /** The penny subtotal of the ledger model is the one the program's doubles print, for carts within
      the bound: pricing each item in doubles and adding them up gives Subtotal of the same items. */
  lemma LedgerSubtotalIsTheDoubles(items: seq<Item>)
    requires PricedAlike(items)
    requires Settles(|items|, Checkout.Subtotal(items))
    ensures ToFixed2(Accumulated(PricedLines(items))) == Checkout.Subtotal(items)
  {
    ExactIsSubtotal(items);
    SubtotalIsExact(PricedLines(items));
  }

  /** The loop and reduce of checkout: itemsTotal is the double of exactly T pennies. */
  method PriceCart(lines: seq<PricedLine>) returns (itemsTotal: real)
    requires Settles(|lines|, Exact(lines))
    ensures itemsTotal == Amount(Exact(lines))
  {
    var lineTotals := PriceLines(lines);
    var sum := 0.0;
    for i := 0 to |lines|
      invariant sum == Accumulated(lines[..i])
    {
      assert lines[..i + 1][..i] == lines[..i];
      sum := Fl(sum + lineTotals[i]);
    }
    assert lines[..|lines|] == lines;
    SubtotalIsExact(lines);
    itemsTotal := Amount(ToFixed2(sum));
  }

  method PriceLines(lines: seq<PricedLine>) returns (lineTotals: seq<real>)
    ensures |lineTotals| == |lines|
    ensures forall k :: 0 <= k < |lines| ==> lineTotals[k] == Amount(LinePennies(lines[k]))
  {
    lineTotals := [];
    for i := 0 to |lines|
      invariant |lineTotals| == i
      invariant forall k :: 0 <= k < i ==> lineTotals[k] == Amount(LinePennies(lines[k]))
    {
      lineTotals := lineTotals + [Amount(LinePennies(lines[i]))];
    }
  }

  // ---------- The order total ----------

  /** toFixed(2) of itemsTotal - discountAmount + deliveryFee, for a discount within the subtotal. */
  function TotalPennies(itemsTotal: nat, discount: nat, fee: nat): nat
    requires Amount(discount) <= Amount(itemsTotal)
  {
    ToFixed2(Fl(Fl(Amount(itemsTotal) - Amount(discount)) + Amount(fee)))
  }

  lemma DifferenceIsNonNegative(itemsTotal: nat, discount: nat)
    requires discount <= itemsTotal <= LIMIT
    ensures Amount(itemsTotal) >= Amount(discount)
  {
    AmountIsNear(itemsTotal);
    AmountIsNear(discount);
    if discount < itemsTotal {
      assert itemsTotal as real >= discount as real + 1.0;
    }
  }

  /** The stored total is the exact penny total. */
  lemma TotalIsExact(itemsTotal: nat, discount: nat, fee: nat)
    requires discount <= itemsTotal && 2 * (itemsTotal + fee) <= LIMIT
    ensures Amount(discount) <= Amount(itemsTotal)
    ensures TotalPennies(itemsTotal, discount, fee) == Total(itemsTotal, discount, fee)
  {
    DifferenceIsNonNegative(itemsTotal, discount);
    AmountIsNear(itemsTotal);
    AmountIsNear(discount);
    AmountIsNear(fee);
    TotalOfNear(Amount(itemsTotal), itemsTotal, Amount(discount), discount, Amount(fee), fee);
    PrintsAs(Fl(Fl(Amount(itemsTotal) - Amount(discount)) + Amount(fee)), itemsTotal - discount + fee);
  }

  lemma TotalOfNear(a: real, m: nat, d: real, n: nat, f: real, k: nat)
    requires 0.0 <= d <= a && f >= 0.0 && n <= m && 2 * (m + k) <= LIMIT
    requires Within(a, m as real / 100.0, m as real / 100.0 * U)
    requires Within(d, n as real / 100.0, n as real / 100.0 * U)
    requires Within(f, k as real / 100.0, k as real / 100.0 * U)
    ensures Within(100.0 * Fl(Fl(a - d) + f), (m - n + k) as real, 0.499)
  {
    HalfUlp(a - d);
    HalfUlp(Fl(a - d) + f);
  }

  // ---------- Percentage discounts ----------

  /** (itemsTotal * Number(value)) / 100 in doubles; value is in hundredths of a percent. */
  function Percentage(itemsTotal: nat, value: nat): (x: real)
    ensures x >= 0.0
  {
    PercentOf(Amount(itemsTotal), Amount(value))
  }

  function PercentOf(total: real, value: real): (x: real)
    requires total >= 0.0 && value >= 0.0
    ensures x >= 0.0
  {
    var product := total * value;
    assert product >= 0.0;
    Fl(Fl(product) / 100.0)
  }

  /** Math.min(percentage, itemsTotal).toFixed(2), as checkout computes it. */
  function PercentagePennies(itemsTotal: nat, value: nat): nat {
    var x := Percentage(itemsTotal, value);
    ToFixed2(if x <= Amount(itemsTotal) then x else Amount(itemsTotal))
  }

  lemma ProductError(a: real, x: real, b: real, y: real)
    requires Within(a, x, x * U) && Within(b, y, y * U) && x >= 0.0 && y >= 0.0 && a >= 0.0 && b >= 0.0
    ensures Within(a * b, x * y, (x * y) * (2.1 * U))
  {
    var near := SecondScaled(a, x, y);
    var far := FirstScaled(a, b, y, near);
    ErrorsAdd(far, near, x * y);
  }

  lemma SecondScaled(a: real, x: real, y: real) returns (near: real)
    requires Within(a, x, x * U) && x >= 0.0 && y >= 0.0
    ensures near == a * y && x * y >= 0.0 && Within(near, x * y, (x * y) * U)
  {
    ScaledError(a, x, y);
    near := a * y;
  }

  lemma FirstScaled(a: real, b: real, y: real, near: real) returns (far: real)
    requires Within(b, y, y * U) && a >= 0.0 && y >= 0.0 && near == a * y
    ensures far == a * b && Within(far, near, near * U)
  {
    far := a * b;
    assert a * (y - y * U) <= far <= a * (y + y * U);
    assert a * (y * U) == near * U;
  }

  lemma ErrorsAdd(far: real, near: real, z: real)
    requires Within(near, z, z * U) && Within(far, near, near * U) && z >= 0.0
    ensures Within(far, z, z * (2.1 * U))
  {
  }

  lemma TwoRoundings(product: real, z: real)
    requires product >= 0.0 && z >= 0.0 && Within(product, z, z * (2.1 * U))
    ensures Within(Fl(Fl(product) / 100.0), z / 100.0, (z / 100.0) * (5.0 * U))
  {
    HalfUlp(product);
    assert Within(Fl(product), z, z * (3.2 * U));
    HalfUlp(Fl(product) / 100.0);
  }

  lemma HundredthsProduct(a: nat, b: nat)
    ensures (a as real / 100.0) * (b as real / 100.0) == (a * b) as real / 10000.0
  {
    assert a as real * b as real == (a * b) as real;
  }

  /** The percentage is within five relative half-ulps of the exact number of pennies, w/10000. */
  lemma PercentageIsNear(itemsTotal: nat, value: nat, w: nat)
    requires w == itemsTotal * value
    ensures Within(100.0 * Percentage(itemsTotal, value), w as real / 10000.0, (w as real / 10000.0) * (5.0 * U))
  {
    ProductIsNear(itemsTotal, value, w);
    PercentageOfNearProduct(itemsTotal, value, w as real / 10000.0);
  }

  lemma PercentageOfNearProduct(itemsTotal: nat, value: nat, z: real)
    requires z >= 0.0 && Amount(itemsTotal) * Amount(value) >= 0.0
    requires Within(Amount(itemsTotal) * Amount(value), z, z * (2.1 * U))
    ensures Within(100.0 * Percentage(itemsTotal, value), z, z * (5.0 * U))
  {
    PercentOfIsNear(Amount(itemsTotal), Amount(value), z);
  }

  lemma PercentOfIsNear(total: real, value: real, z: real)
    requires total >= 0.0 && value >= 0.0 && z >= 0.0 && total * value >= 0.0
    requires Within(total * value, z, z * (2.1 * U))
    ensures Within(100.0 * PercentOf(total, value), z, z * (5.0 * U))
  {
    TwoRoundings(total * value, z);
  }

  lemma ProductIsNear(itemsTotal: nat, value: nat, w: nat)
    requires w == itemsTotal * value
    ensures var z := w as real / 10000.0;
            Amount(itemsTotal) * Amount(value) >= 0.0 &&
            Within(Amount(itemsTotal) * Amount(value), z, z * (2.1 * U))
  {
    AmountIsNear(itemsTotal);
    AmountIsNear(value);
    ProductOfNear(Amount(itemsTotal), itemsTotal, Amount(value), value);
  }

  lemma ProductOfNear(a: real, m: nat, b: real, n: nat)
    requires a >= 0.0 && Within(a, m as real / 100.0, m as real / 100.0 * U)
    requires b >= 0.0 && Within(b, n as real / 100.0, n as real / 100.0 * U)
    ensures var z := (m * n) as real / 10000.0;
            a * b >= 0.0 && Within(a * b, z, z * (2.1 * U))
  {
    HundredthsProduct(m, n);
    ProductError(a, m as real / 100.0, b, n as real / 100.0);
  }

  /** 100*x within 5U of w/10000 rounds like w/10000 unless w/10000 is exactly half way. */
  lemma RoundsAlike(x: real, w: nat)
    requires x >= 0.0 && w <= LIMIT
    requires Within(100.0 * x, w as real / 10000.0, (w as real / 10000.0) * (5.0 * U))
    ensures w % 10000 != 5000 ==> ToFixed2(x) == RoundHalfUp(w, 100_00)
    ensures RoundHalfUp(w, 100_00) - 1 <= ToFixed2(x) <= RoundHalfUp(w, 100_00)
  {
    var r := RoundHalfUp(w, 100_00);
    assert (w as real / 10000.0) * (5.0 * U) < 1.0 / 10000.0;
    FloorsAlike(100.0 * x, w, r);
  }

  /** An amount less than a ten-thousandth away from `w` ten-thousandths rounds as they do, off ties. */
  lemma FloorsAlike(y: real, w: nat, r: nat)
    requires w as real - 1.0 < 10000.0 * y < w as real + 1.0 && 2 * w - 10000 < 20000 * r <= 2 * w + 10000
    ensures w % 10000 != 5000 ==> (y + 0.5).Floor == r
    ensures r - 1 <= (y + 0.5).Floor <= r
  {
    if w % 10000 != 5000 {
      assert 2 * w + 10000 != 20000 * r;
    }
  }

  /** So does the same amount clamped to a subtotal it does not really exceed. */
  lemma ClampedRoundsAlike(x: real, itemsTotal: nat, w: nat)
    requires x >= 0.0 && w <= LIMIT && itemsTotal <= LIMIT && w <= itemsTotal * 10000
    requires Within(100.0 * x, w as real / 10000.0, (w as real / 10000.0) * (5.0 * U))
    ensures var charged := ToFixed2(if x <= Amount(itemsTotal) then x else Amount(itemsTotal));
            && (w % 10000 != 5000 ==> charged == RoundHalfUp(w, 100_00))
            && RoundHalfUp(w, 100_00) - 1 <= charged <= RoundHalfUp(w, 100_00)
  {
    RoundsAlike(x, w);
    ClampIsIdle(x, itemsTotal, w);
  }

  lemma PrintsItself(n: nat)
    requires n <= LIMIT
    ensures ToFixed2(Amount(n)) == n
  {
    AmountIsNear(n);
    PrintsAs(Amount(n), n);
  }

  lemma RoundHalfUpWithin(w: nat, n: nat)
    requires w <= n * 10000
    ensures RoundHalfUp(w, 100_00) <= n
  {
  }

  lemma ToFixed2IsMonotone(x: real, y: real)
    requires 0.0 <= x <= y
    ensures ToFixed2(x) <= ToFixed2(y)
  {
  }

  /** The percentage discount taken in doubles is the exact half-up discount in pennies, except that
      an amount exactly half way between two pennies may go down instead of up. */
  lemma PercentageIsExactOffTies(code: Code, itemsTotal: nat, w: nat)
    requires code.kind.Percentage? && w == itemsTotal * code.value && itemsTotal <= LIMIT
    requires code.value <= 100_00 ==> w <= LIMIT
    ensures var charged := PercentagePennies(itemsTotal, code.value);
            && (code.value > 100_00 || !HalfWay(w) ==> charged == Charge(code, itemsTotal))
            && Charge(code, itemsTotal) - 1 <= charged <= Charge(code, itemsTotal)
  {
    if code.value <= 100_00 {
      ChargeUpToHundred(code, itemsTotal, w);
      PercentageRounds(itemsTotal, code.value, w);
    } else {
      ChargeOverHundred(code, itemsTotal);
      PercentageOverHundred(itemsTotal, code.value);
    }
  }

  /** The preview, which does not clamp, prints the same pennies in doubles as checkout, ties included,
      for every percentage `create` lets through. */
  lemma PreviewAgreesInDoubles(itemsTotal: nat, value: nat, w: nat)
    requires value <= 100_00 && w == itemsTotal * value <= LIMIT && itemsTotal <= LIMIT
    ensures ToFixed2(Percentage(itemsTotal, value)) == PercentagePennies(itemsTotal, value)
  {
    PercentageIsNear(itemsTotal, value, w);
    PercentageWithinHundred(itemsTotal, value);
    ClampIsIdle(Percentage(itemsTotal, value), itemsTotal, w);
  }

  lemma ClampIsIdle(x: real, itemsTotal: nat, w: nat)
    requires x >= 0.0 && w <= LIMIT && itemsTotal <= LIMIT && w <= itemsTotal * 10000
    requires Within(100.0 * x, w as real / 10000.0, (w as real / 10000.0) * (5.0 * U))
    ensures ToFixed2(if x <= Amount(itemsTotal) then x else Amount(itemsTotal)) == ToFixed2(x)
  {
    RoundsAlike(x, w);
    PrintsItself(itemsTotal);
    RoundHalfUpWithin(w, itemsTotal);
    if x > Amount(itemsTotal) {
      ToFixed2IsMonotone(Amount(itemsTotal), x);
    }
  }

  lemma PercentageRounds(itemsTotal: nat, value: nat, w: nat)
    requires w == itemsTotal * value && w <= itemsTotal * 10000 && w <= LIMIT && itemsTotal <= LIMIT
    ensures var charged := PercentagePennies(itemsTotal, value);
            && (w % 10000 != 5000 ==> charged == RoundHalfUp(w, 100_00))
            && RoundHalfUp(w, 100_00) - 1 <= charged <= RoundHalfUp(w, 100_00)
  {
    PercentageIsNear(itemsTotal, value, w);
    ClampedRoundsAlike(Percentage(itemsTotal, value), itemsTotal, w);
  }

  lemma PercentageOverHundred(itemsTotal: nat, value: nat)
    requires value > 100_00 && itemsTotal <= LIMIT
    ensures PercentagePennies(itemsTotal, value) == itemsTotal
  {
    OverHundredClamps(itemsTotal, value);
    PrintsItself(itemsTotal);
  }

  lemma ChargeUpToHundred(code: Code, itemsTotal: nat, w: nat)
    requires code.kind.Percentage? && code.value <= 100_00 && w == itemsTotal * code.value
    ensures Charge(code, itemsTotal) == RoundHalfUp(w, 100_00) && w <= itemsTotal * 10000
  {
    PercentageWithinHundred(itemsTotal, code.value);
  }

  lemma ChargeOverHundred(code: Code, itemsTotal: nat)
    requires code.kind.Percentage? && code.value > 100_00
    ensures Charge(code, itemsTotal) == itemsTotal
  {
    ChargeIsRoundedRate(code, itemsTotal);
  }

  /** Such a tie does go down: 10% of 15 pennies is charged as 1 penny, where half-up would give 2. */
  lemma TieGoesDown(code: Code)
    requires code.kind.Percentage? && code.value == 10_00
    ensures PercentagePennies(15, 10_00) == 1 && Charge(code, 15) == 2
  {
    FifteenPence();
    TenPercent();
    assert Percentage(15, 10_00) == PercentOf(Amount(15), 10.0);
    PercentOfFifteenPence();
  }

  /** The double nearest 0.15, times 2^55. */
  const FIFTEEN := 5404319552844595.0

  lemma FifteenPence()
    ensures Amount(15) * Pow2(55) == FIFTEEN
  {
    PowersOfTwo();
    NearestScaled(15.0 / 100.0, 5404319552844595.2, 55);
    HalvedIsScaled(FIFTEEN, 55);
  }

  lemma TenPercent()
    ensures Amount(10_00) == 10.0
  {
    PowersOfTwo();
    NearestScaled(10.0, 5629499534213120.0, 49);
    HalvedIsScaled(5629499534213120.0, 49);
  }

  lemma PercentOfFifteenPence()
    ensures FIFTEEN / 36028797018963968.0 == Amount(15)
    ensures var x := PercentOf(Amount(15), 10.0);
            0.0149 < x < 0.015
  {
    FifteenPence();
    PowersOfTwo();
    var product := FIFTEEN / 36028797018963968.0 * 10.0;
    NearestScaled(product, 6755399441055743.75, 52);
    HalvedIsScaled(6755399441055744.0, 52);
    assert Fl(product) == 1.5;
    NearestScaled(1.5 / 100.0, 8646911284551352.32, 59);
    HalvedIsScaled(8646911284551352.0, 59);
  }

  /** Another tie comes out right: 50% of 25 pennies is charged as 13. */
  lemma TieGoesUp(code: Code)
    requires code.kind.Percentage? && code.value == 50_00
    ensures PercentagePennies(25, 50_00) == 13 == Charge(code, 25) && Tie(code, 25)
  {
    PowersOfTwo();
    ShortDouble(25.0 / 100.0, 4503599627370496, 54);
    ShortDouble(50.0, 7036874417766400, 47);
    ShortDouble(12.5, 7036874417766400, 49);
    ShortDouble(0.125, 4503599627370496, 55);
    assert Percentage(25, 50_00) == PercentOf(0.25, 50.0);
    assert PercentOf(0.25, 50.0) == 0.125;
  }

  /** So for all codes and subtotals: the charge is the exact half-up discount exactly when it is clamped,
      does not land half way between two pennies, or the double did not fall short of half way. On a tie
      that last condition is the computed double itself; what can be told beforehand is
      PercentageIsExactOffTies. */
  lemma PercentageIsExactlyExact(code: Code, itemsTotal: nat, w: nat)
    requires code.kind.Percentage? && w == itemsTotal * code.value && itemsTotal <= LIMIT
    requires code.value <= 100_00 ==> w <= LIMIT
    ensures PercentagePennies(itemsTotal, code.value) == Charge(code, itemsTotal) <==>
            code.value > 100_00 || !HalfWay(w) || 100.0 * Percentage(itemsTotal, code.value) >= w as real / 10000.0
  {
    PercentageIsExactOffTies(code, itemsTotal, w);
    if code.value <= 100_00 && HalfWay(w) {
      PercentageIsNear(itemsTotal, code.value, w);
      ChargeUpToHundred(code, itemsTotal, w);
      ClampIsIdle(Percentage(itemsTotal, code.value), itemsTotal, w);
      TieRounds(Percentage(itemsTotal, code.value), w);
    }
  }

  lemma TieRounds(x: real, w: nat)
    requires x >= 0.0 && HalfWay(w) && w <= LIMIT
    requires Within(100.0 * x, w as real / 10000.0, (w as real / 10000.0) * (5.0 * U))
    ensures ToFixed2(x) == RoundHalfUp(w, 100_00) <==> 100.0 * x >= w as real / 10000.0
  {
    assert (w as real / 10000.0) * (5.0 * U) < 0.1;
    var q := w / 10000;
    assert w == 10000 * q + 5000;
    assert RoundHalfUp(w, 100_00) == q + 1;
  }

  lemma OverHundredClamps(itemsTotal: nat, value: nat)
    requires value > 100_00 && itemsTotal <= LIMIT
    ensures Percentage(itemsTotal, value) >= Amount(itemsTotal)
  {
    PercentageIsNear(itemsTotal, value, itemsTotal * value);
    ProductAtLeast(itemsTotal, value);
    ExceedsAmount(Percentage(itemsTotal, value), (itemsTotal * value) as real / 10000.0, itemsTotal);
  }

  lemma ExceedsAmount(x: real, z: real, n: nat)
    requires z >= 0.0 && Within(100.0 * x, z, z * (5.0 * U)) && z >= n as real * 1.0001
    ensures x >= Amount(n)
  {
    AmountIsNear(n);
  }

  lemma ProductAtLeast(itemsTotal: nat, value: nat)
    requires value > 100_00
    ensures (itemsTotal * value) as real / 10000.0 >= itemsTotal as real * 1.0001
  {
    assert itemsTotal * value >= itemsTotal * 10001;
  }

  // ---------- The stored total, end to end ----------

  /** discountAmount, as a double. */
  function DiscountAmount(code: Code, itemsTotal: nat): real {
    match code.kind
    case Percentage => Amount(PercentagePennies(itemsTotal, code.value))
    case FixedAmount => if Amount(code.value) <= Amount(itemsTotal) then Amount(code.value) else Amount(itemsTotal)
  }

  /** The percentage of the subtotal lands exactly half way between two pennies. */
  predicate Tie(code: Code, itemsTotal: nat) {
    code.kind.Percentage? && code.value <= 100_00 && HalfWay(itemsTotal * code.value)
  }

  predicate HalfWay(w: nat) {
    w % 10000 == 5000
  }

  lemma DiscountIsPennies(code: Code, itemsTotal: nat, w: nat) returns (c: nat)
    requires itemsTotal <= LIMIT && code.value <= LIMIT
    requires w == itemsTotal * code.value && (code.kind.Percentage? && code.value <= 100_00 ==> w <= LIMIT)
    ensures DiscountAmount(code, itemsTotal) == Amount(c)
    ensures Charge(code, itemsTotal) - 1 <= c <= Charge(code, itemsTotal)
    ensures !Tie(code, itemsTotal) ==> c == Charge(code, itemsTotal)
  {
    if code.kind.Percentage? {
      c := PercentagePennies(itemsTotal, code.value);
      PercentageIsExactOffTies(code, itemsTotal, w);
    } else {
      c := Charge(code, itemsTotal);
      FixedAmountIsExact(code, itemsTotal);
    }
  }

  lemma FixedAmountIsExact(code: Code, itemsTotal: nat)
    requires itemsTotal <= LIMIT && code.value <= LIMIT && code.kind.FixedAmount?
    ensures DiscountAmount(code, itemsTotal) == Amount(Charge(code, itemsTotal))
  {
    if code.value <= itemsTotal {
      DifferenceIsNonNegative(itemsTotal, code.value);
    } else {
      DifferenceIsNonNegative(code.value, itemsTotal);
    }
  }

  /** The subtotal, discount and total that checkout computes in doubles give the total the ledger
      stores in pennies, except that a percentage landing exactly half way between two pennies may
      charge one penny more. */
  lemma StoredTotalIsTheLedgers(items: seq<Item>, code: Code, fee: nat)
    requires PricedAlike(items)
    requires Settles(|items|, Checkout.Subtotal(items))
    requires 2 * (Checkout.Subtotal(items) + fee) <= LIMIT && code.value <= LIMIT
    requires code.kind.Percentage? && code.value <= 100_00 ==> Checkout.Subtotal(items) * code.value <= LIMIT
    ensures var itemsTotal := ToFixed2(Accumulated(PricedLines(items)));
            var discount := DiscountAmount(code, itemsTotal);
            var total := Total(Checkout.Subtotal(items), Charge(code, Checkout.Subtotal(items)), fee);
            && 0.0 <= discount <= Amount(itemsTotal)
            && var stored := ToFixed2(Fl(Fl(Amount(itemsTotal) - discount) + Amount(fee)));
            && total <= stored <= total + 1
            && (!Tie(code, itemsTotal) ==> stored == total)
  {
    LedgerSubtotalIsTheDoubles(items);
    var itemsTotal := Checkout.Subtotal(items);
    ChargeIsWithinSubtotal(code, itemsTotal, fee);
    var c := DiscountIsPennies(code, itemsTotal, itemsTotal * code.value);
    TotalIsExact(itemsTotal, c, fee);
  }

  // ---------- The preview, end to end ----------

  /** discountAmount of calculateDiscount, as a double. */
  function PreviewDiscount(code: Code, amount: nat): real {
    match code.kind
    case Percentage => Amount(ToFixed2(Percentage(amount, code.value)))
    case FixedAmount => if Amount(code.value) <= Amount(amount) then Amount(code.value) else Amount(amount)
  }

  lemma DifferenceIsExact(m: nat, n: nat)
    requires n <= m && 2 * m <= LIMIT
    ensures Amount(n) <= Amount(m) && ToFixed2(Fl(Amount(m) - Amount(n))) == m - n
  {
    DifferenceIsNonNegative(m, n);
    AmountIsNear(m);
    AmountIsNear(n);
    DifferenceOfNear(Amount(m), m, Amount(n), n);
    PrintsAs(Fl(Amount(m) - Amount(n)), m - n);
  }

  lemma DifferenceOfNear(a: real, m: nat, d: real, n: nat)
    requires 0.0 <= d <= a && n <= m && 2 * m <= LIMIT
    requires Within(a, m as real / 100.0, m as real / 100.0 * U)
    requires Within(d, n as real / 100.0, n as real / 100.0 * U)
    ensures Within(100.0 * Fl(a - d), (m - n) as real, 0.499)
  {
    HalfUlp(a - d);
  }

  /** For a code that `create` lets through, percentage or fixed amount, the preview's discount in doubles
      is checkout's, and its finalAmount is the total checkout stores less the delivery fee, ties
      included. */
  lemma FinalAmountIsStoredTotalLessFee(code: Code, itemsTotal: nat, fee: nat, w: nat)
    requires w == itemsTotal * code.value && 2 * (itemsTotal + fee) <= LIMIT && code.value <= LIMIT
    requires code.kind.Percentage? ==> code.value <= 100_00 && w <= LIMIT
    ensures PreviewDiscount(code, itemsTotal) == DiscountAmount(code, itemsTotal)
    ensures var discount := DiscountAmount(code, itemsTotal);
            && 0.0 <= discount <= Amount(itemsTotal)
            && ToFixed2(Fl(Amount(itemsTotal) - discount)) ==
                 ToFixed2(Fl(Fl(Amount(itemsTotal) - discount) + Amount(fee))) - fee
  {
    if code.kind.Percentage? {
      PreviewAgreesInDoubles(itemsTotal, code.value, w);
    }
    ChargeIsWithinSubtotal(code, itemsTotal, fee);
    var c := DiscountIsPennies(code, itemsTotal, w);
    TotalIsExact(itemsTotal, c, fee);
    DifferenceIsExact(itemsTotal, c);
  }
}
