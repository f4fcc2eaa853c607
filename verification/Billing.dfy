/** What the orders of the ledger bill, from the prices in the table to the doubles the program computes. */
module Billing {
  import opened Wrappers
  import opened Entities
  import opened Checkout
  import opened Discounts
  import opened Ledger
  import opened Doubles
  import opened Pricing
  import LedgerRelease

  /** Each item's total is its price times its quantity, and the order's total is their sum less a discount
      within it, plus the fee. */
  predicate WellBilled(order: Order) {
    && PricedAlike(order.items)
    && 0 <= order.discount <= Subtotal(order.items)
    && order.total == Subtotal(order.items) - order.discount + order.deliveryFee
  }

  lemma {:induction false} ItemsAreWorth(rows: map<Id, Product>, lines: seq<Line>, items: seq<Item>)
    requires forall i :: 0 <= i < |lines| ==> lines[i].product in rows
    requires |items| == |lines| && forall i :: 0 <= i < |lines| ==>
               items[i].lineTotal == rows[lines[i].product].price * lines[i].quantity
    ensures Subtotal(items) == Worth(rows, lines)
  {
    if lines != [] {
      ItemsAreWorth(rows, lines[..|lines| - 1], items[..|items| - 1]);
    }
  }

  lemma AcceptedIsWellBilled(db: Db, req: Request, at: Moment)
    requires WellFormed(req, at) && CheckoutTx(db, req, at).Success?
    ensures var order := CheckoutTx(db, req, at).value.orders[|db.orders|];
            && WellBilled(order) && order.code == req.code && order.deliveryFee == req.deliveryFee
            && (forall i :: 0 <= i < |req.lines| ==> req.lines[i].product in db.products)
            && Subtotal(order.items) == Worth(db.products, req.lines)
            && |order.items| == |req.lines|
  {
    CheckoutCommitsExactlyTheAcceptable(db, req, at);
    var order := CheckoutTx(db, req, at).value.orders[|db.orders|];
    ItemsAreWorth(db.products, req.lines, order.items);
    BilledIsPriced(db, req, at, order);
    if req.code.Some? {
      TakesOffWithin(db.codes[req.code.value], Subtotal(order.items), order.discount);
    }
  }

  lemma BilledIsPriced(db: Db, req: Request, at: Moment, order: Order)
    requires Billed(db, req, at, order)
    ensures PricedAlike(order.items)
  {
  }

  lemma TakesOffWithin(code: Code, subtotal: nat, discount: int)
    requires TakesOff(code, subtotal, discount)
    ensures discount == Charge(code, subtotal) && 0 <= discount <= subtotal
  {
    ChargeTakesOff(code, subtotal);
    ChargeIsWithinSubtotal(code, subtotal, 0);
  }

  predicate AllWellBilled(db: Db) {
    forall o :: 0 <= o < |db.orders| ==> WellBilled(db.orders[o])
  }

  /** On every run every order is billed so; in particular no total is below the delivery fee, let alone
      below zero. */
  lemma EveryOrderIsWellBilled(w: World, events: seq<Event>)
    requires Opening(w)
    ensures var db := Run(w, events).db;
            AllWellBilled(db) && forall o :: 0 <= o < |db.orders| ==> db.orders[o].total >= db.orders[o].deliveryFee
  {
    RunKeepsBills(w, events);
    var db := Run(w, events).db;
    forall o | 0 <= o < |db.orders| ensures db.orders[o].total >= db.orders[o].deliveryFee {
      assert WellBilled(db.orders[o]);
    }
  }

  lemma {:induction false} RunKeepsBills(w: World, events: seq<Event>)
    requires Opening(w)
    ensures LedgerRelease.Matched(Run(w, events)) && AllWellBilled(Run(w, events).db)
  {
    if events != [] {
      RunKeepsBills(w, events[..|events| - 1]);
      StepKeepsBills(Run(w, events[..|events| - 1]), events[|events| - 1]);
    }
  }

  lemma StepKeepsBills(w: World, e: Event)
    requires LedgerRelease.Matched(w) && AllWellBilled(w.db)
    ensures LedgerRelease.Matched(Step(w, e)) && AllWellBilled(Step(w, e).db)
  {
    LedgerRelease.OrdersAfterStep(w, e);
    if e.PlaceOrder? && WellFormed(e.req, e.at) && CheckoutTx(w.db, e.req, e.at).Success? {
      LedgerRelease.CheckoutExtends(w, e.req, e.at);
      AcceptedIsWellBilled(w.db, e.req, e.at);
    } else {
      OnlyCheckoutAddsOrders(w.db, e);
    }
  }

  lemma OnlyCheckoutAddsOrders(db: Db, e: Event)
    requires !(e.PlaceOrder? && WellFormed(e.req, e.at) && CheckoutTx(db, e.req, e.at).Success?)
    ensures |After(db, e).orders| == |db.orders|
  {
  }

  // ---------- In doubles ----------

  /** The total that the doubles print for the order's items with this discount is the order's, or up to
      `slack` pennies more. */
  ghost predicate PrintsTotal(order: Order, discount: real, slack: nat) {
    var itemsTotal := ToFixed2(Accumulated(PricedLines(order.items)));
    && itemsTotal == Subtotal(order.items)
    && 0.0 <= discount <= Amount(itemsTotal)
    && var stored := ToFixed2(Fl(Fl(Amount(itemsTotal) - discount) + Amount(order.deliveryFee)));
    order.total <= stored <= order.total + slack
  }

  predicate InRange(order: Order) {
    Settles(|order.items|, Subtotal(order.items)) && 2 * (Subtotal(order.items) + order.deliveryFee) <= LIMIT
  }

  predicate CodeInRange(code: Code, subtotal: nat) {
    code.value <= LIMIT && (code.kind.Percentage? && code.value <= 100_00 ==> subtotal * code.value <= LIMIT)
  }

  lemma BillWithoutCode(order: Order)
    requires WellBilled(order) && InRange(order) && order.discount == 0
    ensures PrintsTotal(order, 0.0, 0)
  {
    LedgerSubtotalIsTheDoubles(order.items);
    TotalIsExact(Subtotal(order.items), 0, order.deliveryFee);
    assert Amount(0) == 0.0;
  }

  lemma BillWithCode(order: Order, code: Code)
    requires WellBilled(order) && InRange(order) && CodeInRange(code, Subtotal(order.items))
    requires order.discount == Charge(code, Subtotal(order.items))
    ensures PrintsTotal(order, DiscountAmount(code, Subtotal(order.items)),
                        if Tie(code, Subtotal(order.items)) then 1 else 0)
  {
    LedgerSubtotalIsTheDoubles(order.items);
    StoredTotalIsTheLedgers(order.items, code, order.deliveryFee);
  }

  /** The total of every accepted checkout is the one that its own sequence of double operations prints, from
      the prices in the table on; only on a tie of the percentage may that be a penny more. */
  lemma AcceptedTotalIsTheDoubles(db: Db, req: Request, at: Moment)
    requires WellFormed(req, at) && CheckoutTx(db, req, at).Success?
    requires var order := CheckoutTx(db, req, at).value.orders[|db.orders|];
             InRange(order) && (req.code.Some? && req.code.value in db.codes ==>
                                  CodeInRange(db.codes[req.code.value], Subtotal(order.items)))
    ensures var order := CheckoutTx(db, req, at).value.orders[|db.orders|];
            match req.code
            case None => PrintsTotal(order, 0.0, 0)
            case Some(c) =>
              && c in db.codes
              && PrintsTotal(order, DiscountAmount(db.codes[c], Subtotal(order.items)),
                             if Tie(db.codes[c], Subtotal(order.items)) then 1 else 0)
  {
    AcceptedIsWellBilled(db, req, at);
    CommittedIsBilled(db, req, at);
    var order := CheckoutTx(db, req, at).value.orders[|db.orders|];
    if req.code.Some? {
      TakesOffWithin(db.codes[req.code.value], Subtotal(order.items), order.discount);
      BillWithCode(order, db.codes[req.code.value]);
    } else {
      BillWithoutCode(order);
    }
  }
}
