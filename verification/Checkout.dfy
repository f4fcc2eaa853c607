/** Checkout as one transaction (src/order/order.service.ts:47-306). Rejected means rolled back. */
module Checkout {
  import opened Wrappers
  import opened Entities
  import opened Cart
  import opened Discounts

  datatype Request = Request(
    customer: Id, lines: seq<Line>, slot: Option<Id>, code: Option<Id>, deliveryFee: nat)

  /** What the transaction meets outside the tables: the clock, which product row the query
      returned first, and the verdict of the lead-time arithmetic. */
  datatype Moment = Moment(now: int, firstRow: Id, leadTimeMet: bool)

  datatype CheckoutError =
    | CustomerNotFound | ProductNotFound | MixedBusinesses | NotLinked | Suspended | NotAccepting
    | BadLine(line: LineError) | TooSoon | SlotNotFound | SlotInactive | SlotFull
    | BadCode(reason: CodeError)

  /** A request the validation pipe lets through, with a first row the query can return. */
  predicate WellFormed(req: Request, at: Moment) {
    exists i :: 0 <= i < |req.lines| && req.lines[i].product == at.firstRow
  }

  // ---------- The stages of the transaction ----------

  /** `product.business?.id` after the left join. */
  function LinkOf(db: Db, p: Id): Option<Id> {
    if p in db.products && db.products[p].business.Some? && db.products[p].business.value in db.businesses
    then db.products[p].business
    else None
  }

  function BusinessesOf(db: Db, lines: seq<Line>): set<Id> {
    set i | 0 <= i < |lines| && LinkOf(db, lines[i].product).Some? :: LinkOf(db, lines[i].product).value
  }

  function Admit(db: Db, req: Request, at: Moment): Result<Id, CheckoutError> {
    if req.customer !in db.customers then Failure(CustomerNotFound)
    else if !Listed(db.products, req.lines) then Failure(ProductNotFound)
    else if |BusinessesOf(db, req.lines)| > 1 then Failure(MixedBusinesses)
    else
      match LinkOf(db, at.firstRow)
      case None => Failure(NotLinked)
      case Some(b) =>
        if db.businesses[b].suspended then Failure(Suspended)
        else if !db.businesses[b].accepting then Failure(NotAccepting)
        else Success(b)
  }

  function ReserveLines(rows: map<Id, Product>, lines: seq<Line>): Result<Reservation, CheckoutError>
    requires Listed(rows, lines)
  {
    match Reserve(rows, lines)
    case Success(held) => Success(held)
    case Failure(e) => Failure(BadLine(e))
  }

  function Row<T>(table: map<Id, T>, id: Id): Option<T> {
    if id in table then Some(table[id]) else None
  }

  function Book(found: Option<Slot>): Result<Slot, CheckoutError> {
    match found
    case None => Failure(SlotNotFound)
    case Some(slot) =>
      if !slot.isActive then Failure(SlotInactive)
      else if slot.booked >= slot.capacity then Failure(SlotFull)
      else Success(slot.(booked := slot.booked + 1))
  }

  function BookAsked(slots: map<Id, Slot>, asked: Option<Id>): Result<map<Id, Slot>, CheckoutError> {
    match asked
    case None => Success(slots)
    case Some(id) =>
      var slot :- Book(Row(slots, id));
      Success(slots[id := slot])
  }

  function Subtotal(items: seq<Item>): nat {
    if items == [] then 0 else Subtotal(items[..|items| - 1]) + items[|items| - 1].lineTotal
  }

  /** The code row after redemption and what it takes off. */
  datatype Redemption = Redemption(row: Code, discount: nat)

  function Redeem(found: Option<Code>, rows: nat, now: int, itemsTotal: nat): Result<Redemption, CheckoutError> {
    match CheckCode(found, rows, now, itemsTotal)
    case Some(e) => Failure(BadCode(e))
    case None =>
      var code := found.value;
      Success(Redemption(code.(usedCount := code.usedCount + 1), Charge(code, itemsTotal)))
  }

  function RowsOf(usages: set<Usage>, code: Id, user: Id): set<Usage> {
    set u | u in usages && u.code == code && u.user == user
  }

  function RedeemAsked(db: Db, req: Request, business: Id, now: int, itemsTotal: nat)
    : Result<Option<Redemption>, CheckoutError>
  {
    match req.code
    case None => Success(None)
    case Some(id) =>
      var redeemed :- Redeem(Find(db.codes, id, business), |RowsOf(db.usages, id, req.customer)|, now, itemsTotal);
      Success(Some(redeemed))
  }

  function NewOrder(req: Request, business: Id, items: seq<Item>, coupon: Option<Redemption>): Order {
    var discount := if coupon.Some? then coupon.value.discount else 0;
    Order(req.customer, business, items, Total(Subtotal(items), discount, req.deliveryFee), PENDING,
          req.slot, req.deliveryFee, if coupon.Some? then req.code else None, discount)
  }

  /** What commit makes visible: the saved rows, the new order and its usage row. */
  function Place(db: Db, req: Request, business: Id, held: Reservation, slots: map<Id, Slot>,
                 coupon: Option<Redemption>): Db
  {
    var order := NewOrder(req, business, held.items, coupon);
    db.(products := held.rows,
        slots := slots,
        codes := if coupon.Some? && req.code.Some? then db.codes[req.code.value := coupon.value.row] else db.codes,
        orders := db.orders + [order],
        usages := if order.code.Some? then db.usages + {Usage(order.code.value, req.customer, |db.orders|)}
                  else db.usages)
  }

  function CheckoutTx(db: Db, req: Request, at: Moment): Result<Db, CheckoutError>
    requires WellFormed(req, at)
  {
    var business :- Admit(db, req, at);
    var held :- ReserveLines(db.products, req.lines);
    if !at.leadTimeMet then Failure(TooSoon)
    else
      var slots :- BookAsked(db.slots, req.slot);
      var coupon :- RedeemAsked(db, req, business, at.now, Subtotal(held.items));
      Success(Place(db, req, business, held, slots, coupon))
  }

  // ---------- What an accepted checkout is ----------

  /** All stages pass. */
  predicate Passes(db: Db, req: Request, at: Moment) {
    && req.customer in db.customers
    && Listed(db.products, req.lines)
    && Fits(db.products, req.lines)
    && LinkOf(db, at.firstRow).Some?
    && (forall i :: 0 <= i < |req.lines| ==>
          LinkOf(db, req.lines[i].product) in {None, LinkOf(db, at.firstRow)})
    && var business := LinkOf(db, at.firstRow).value;
    && !db.businesses[business].suspended
    && db.businesses[business].accepting
    && at.leadTimeMet
    && (req.slot.Some? ==>
          req.slot.value in db.slots &&
          db.slots[req.slot.value].isActive &&
          db.slots[req.slot.value].booked < db.slots[req.slot.value].capacity)
    && (req.code.Some? ==>
          CheckCode(Find(db.codes, req.code.value, business), |RowsOf(db.usages, req.code.value, req.customer)|,
                    at.now, Subtotal(Priced(db.products, req.lines))).None?)
  }

  /** What the cart is worth at the prices in the table. */
  function Worth(rows: map<Id, Product>, lines: seq<Line>): nat
    requires Listed(rows, lines)
  {
    if lines == [] then 0
    else
      var last := lines[|lines| - 1];
      Worth(rows, lines[..|lines| - 1]) + rows[last.product].price * last.quantity
  }

  predicate LineAllowed(row: Product, line: Line, asked: nat) {
    && row.isActive
    && (row.maxOrderQuantity.Some? && row.maxOrderQuantity.value != 0 ==> line.quantity <= row.maxOrderQuantity.value)
    && (row.trackStock ==> asked <= row.stock)
  }

  predicate LinkedTo(db: Db, p: Id, b: Id) {
    p in db.products && db.products[p].business == Some(b) && b in db.businesses
  }

  /** The conditions under which checkout goes through, column by column, on the tables as they stood. */
  ghost predicate Acceptable(db: Db, req: Request, at: Moment) {
    && req.customer in db.customers
    && Listed(db.products, req.lines)
    && (forall i :: 0 <= i < |req.lines| ==>
          LineAllowed(db.products[req.lines[i].product], req.lines[i], Quantity(req.lines, req.lines[i].product)))
    && at.leadTimeMet
    && (exists b :: LinkedTo(db, at.firstRow, b) && AcceptableAt(db, req, at, b))
  }

  ghost predicate AcceptableAt(db: Db, req: Request, at: Moment, business: Id)
    requires Listed(db.products, req.lines) && business in db.businesses
  {
    && (forall i, b :: 0 <= i < |req.lines| && LinkedTo(db, req.lines[i].product, b) ==> b == business)
    && !db.businesses[business].suspended && db.businesses[business].accepting
    && (req.slot.Some? ==>
          req.slot.value in db.slots &&
          var slot := db.slots[req.slot.value];
          slot.isActive && slot.booked < slot.capacity)
    && (req.code.Some? ==>
          req.code.value in db.codes &&
          var code := db.codes[req.code.value];
          && code.business == business
          && CodeAccepts(code, |set u | u in db.usages && u.code == req.code.value && u.user == req.customer|,
                         at.now, Worth(db.products, req.lines)))
  }

  ghost predicate StockEffect(before: map<Id, Product>, after: map<Id, Product>, lines: seq<Line>) {
    && after.Keys == before.Keys
    && forall p :: p in before ==>
         after[p] == before[p].(
           stock := before[p].stock - if before[p].trackStock then Quantity(lines, p) else 0)
  }

  ghost predicate SlotEffect(before: map<Id, Slot>, after: map<Id, Slot>, asked: Option<Id>) {
    && after.Keys == before.Keys
    && forall s :: s in before ==>
         after[s] == before[s].(booked := before[s].booked + if asked == Some(s) then 1 else 0)
  }

  ghost predicate CodeEffect(before: map<Id, Code>, after: map<Id, Code>, asked: Option<Id>) {
    && after.Keys == before.Keys
    && forall c :: c in before ==>
         after[c] == before[c].(usedCount := before[c].usedCount + if asked == Some(c) then 1 else 0)
  }

  ghost predicate OrderEffect(order: Order, req: Request) {
    && order.customer == req.customer && order.slot == req.slot && order.code == req.code
    && order.status == PENDING && Lines(order.items) == req.lines
    && order.total == Subtotal(order.items) - order.discount + order.deliveryFee
    && order.deliveryFee == req.deliveryFee && order.discount <= Subtotal(order.items)
  }

  /** What the customer owes, and to whom: each line at the price in the table times its quantity, less what
      the code takes off, plus the fee. */
  ghost predicate Billed(db: Db, req: Request, at: Moment, order: Order) {
    && Listed(db.products, req.lines) && |order.items| == |req.lines|
    && (forall i :: 0 <= i < |req.lines| ==>
          var item, price := order.items[i], db.products[req.lines[i].product].price;
          item.line == req.lines[i] && item.unitPrice == price && item.lineTotal == price * req.lines[i].quantity)
    && LinkedTo(db, at.firstRow, order.business)
    && (match req.code
        case None => order.discount == 0
        case Some(c) => c in db.codes && TakesOff(db.codes[c], Worth(db.products, req.lines), order.discount))
    && order.total == Worth(db.products, req.lines) - order.discount + req.deliveryFee
  }

  /** Every row of every table after an accepted checkout. */
  ghost predicate Effect(db: Db, db': Db, req: Request) {
    && db'.customers == db.customers && db'.businesses == db.businesses && db'.payments == db.payments
    && StockEffect(db.products, db'.products, req.lines)
    && SlotEffect(db.slots, db'.slots, req.slot)
    && CodeEffect(db.codes, db'.codes, req.code)
    && |db'.orders| == |db.orders| + 1 && db'.orders[..|db.orders|] == db.orders
    && OrderEffect(db'.orders[|db.orders|], req)
    && db'.usages == db.usages +
         if req.code.Some? then {Usage(req.code.value, req.customer, |db.orders|)} else {}
  }

  lemma OneBusiness(db: Db, req: Request, at: Moment)
    requires WellFormed(req, at) && LinkOf(db, at.firstRow).Some?
    ensures |BusinessesOf(db, req.lines)| <= 1 <==>
            forall i :: 0 <= i < |req.lines| ==>
              LinkOf(db, req.lines[i].product) in {None, LinkOf(db, at.firstRow)}
  {
    var all := BusinessesOf(db, req.lines);
    var first := LinkOf(db, at.firstRow).value;
    assert first in all;
    if all == {first} {
      forall i | 0 <= i < |req.lines|
        ensures LinkOf(db, req.lines[i].product) in {None, LinkOf(db, at.firstRow)}
      {
        if LinkOf(db, req.lines[i].product).Some? {
          assert LinkOf(db, req.lines[i].product).value in all;
        }
      }
    } else {
      var other :| other in all && other != first;
      assert {first, other} <= all;
      assert |all - {first, other}| == |all| - 2;
    }
  }

  lemma AdmitExactly(db: Db, req: Request, at: Moment)
    requires WellFormed(req, at)
    ensures Admit(db, req, at).Success? <==>
            && req.customer in db.customers
            && Listed(db.products, req.lines)
            && LinkOf(db, at.firstRow).Some?
            && (forall i :: 0 <= i < |req.lines| ==>
                  LinkOf(db, req.lines[i].product) in {None, LinkOf(db, at.firstRow)})
            && !db.businesses[LinkOf(db, at.firstRow).value].suspended
            && db.businesses[LinkOf(db, at.firstRow).value].accepting
    ensures Admit(db, req, at).Success? ==> Some(Admit(db, req, at).value) == LinkOf(db, at.firstRow)
  {
    if LinkOf(db, at.firstRow).Some? {
      OneBusiness(db, req, at);
    }
  }

  lemma ReserveExactly(rows: map<Id, Product>, lines: seq<Line>)
    requires Listed(rows, lines)
    ensures ReserveLines(rows, lines).Success? <==> Fits(rows, lines)
    ensures Fits(rows, lines) ==>
              ReserveLines(rows, lines) == Success(Reservation(Taken(rows, lines), Priced(rows, lines)))
  {
    LoopRefinesAggregate(rows, lines);
  }

  lemma RedeemedEffect(db: Db, req: Request, business: Id, now: int, items: seq<Item>)
    requires RedeemAsked(db, req, business, now, Subtotal(items)).Success?
    ensures var coupon := RedeemAsked(db, req, business, now, Subtotal(items)).value;
            && coupon.Some? == req.code.Some?
            && (coupon.Some? ==>
                  req.code.value in db.codes &&
                  CodeEffect(db.codes, db.codes[req.code.value := coupon.value.row], req.code))
            && OrderEffect(NewOrder(req, business, items, coupon), req.(lines := Lines(items)))
  {
    if req.code.Some? {
      ChargeIsWithinSubtotal(db.codes[req.code.value], Subtotal(items), req.deliveryFee);
    }
  }

  lemma PlacedEffect(db: Db, req: Request, at: Moment, business: Id)
    requires Listed(db.products, req.lines)
    requires BookAsked(db.slots, req.slot).Success?
    requires RedeemAsked(db, req, business, at.now, Subtotal(Priced(db.products, req.lines))).Success?
    ensures var held := Reservation(Taken(db.products, req.lines), Priced(db.products, req.lines));
            Effect(db, Place(db, req, business, held, BookAsked(db.slots, req.slot).value,
                             RedeemAsked(db, req, business, at.now, Subtotal(held.items)).value), req)
  {
    var items := Priced(db.products, req.lines);
    assert Lines(items) == req.lines;
    RedeemedEffect(db, req, business, at.now, items);
    assert StockEffect(db.products, Taken(db.products, req.lines), req.lines);
    assert SlotEffect(db.slots, BookAsked(db.slots, req.slot).value, req.slot);
    if req.code.None? {
      assert CodeEffect(db.codes, db.codes, req.code);
    }
  }

  lemma CheckoutCommitsExactlyThePassing(db: Db, req: Request, at: Moment)
    requires WellFormed(req, at)
    ensures CheckoutTx(db, req, at).Success? <==> Passes(db, req, at)
    ensures CheckoutTx(db, req, at).Success? ==> Effect(db, CheckoutTx(db, req, at).value, req)
  {
    AdmitExactly(db, req, at);
    if Admit(db, req, at).Success? {
      ReserveExactly(db.products, req.lines);
      if Fits(db.products, req.lines) && CheckoutTx(db, req, at).Success? {
        PlacedEffect(db, req, at, Admit(db, req, at).value);
      }
    }
  }

  lemma {:induction false} WorthIsSubtotal(rows: map<Id, Product>, lines: seq<Line>)
    requires Listed(rows, lines)
    ensures Subtotal(Priced(rows, lines)) == Worth(rows, lines)
  {
    if lines != [] {
      WorthIsSubtotal(rows, lines[..|lines| - 1]);
      assert Priced(rows, lines)[..|lines| - 1] == Priced(rows, lines[..|lines| - 1]);
    }
  }

  lemma FitsIsLineAllowed(rows: map<Id, Product>, lines: seq<Line>)
    requires Listed(rows, lines)
    ensures Fits(rows, lines) <==> forall i :: 0 <= i < |lines| ==>
              LineAllowed(rows[lines[i].product], lines[i], Quantity(lines, lines[i].product))
  {
  }

  lemma LinksExactly(db: Db, lines: seq<Line>, first: Id, business: Id)
    requires LinkOf(db, first) == Some(business)
    ensures LinkedTo(db, first, business)
    ensures (forall i :: 0 <= i < |lines| ==> LinkOf(db, lines[i].product) in {None, LinkOf(db, first)}) <==>
            (forall i, b :: 0 <= i < |lines| && LinkedTo(db, lines[i].product, b) ==> b == business)
  {
    forall i | 0 <= i < |lines| && LinkOf(db, lines[i].product).Some?
      ensures LinkedTo(db, lines[i].product, LinkOf(db, lines[i].product).value)
    {
    }
  }

  lemma PassesIsAcceptable(db: Db, req: Request, at: Moment)
    requires WellFormed(req, at)
    ensures Passes(db, req, at) <==> Acceptable(db, req, at)
  {
    if req.customer in db.customers && Listed(db.products, req.lines) {
      FitsIsLineAllowed(db.products, req.lines);
      if LinkOf(db, at.firstRow).Some? {
        var business := LinkOf(db, at.firstRow).value;
        LinksExactly(db, req.lines, at.firstRow, business);
        CodePasses(db, req, at, business);
        assert LinkedTo(db, at.firstRow, business);
      }
    }
  }

  lemma CodePasses(db: Db, req: Request, at: Moment, business: Id)
    requires Listed(db.products, req.lines)
    ensures req.code.Some? ==>
              (CheckCode(Find(db.codes, req.code.value, business),
                         |RowsOf(db.usages, req.code.value, req.customer)|, at.now,
                         Subtotal(Priced(db.products, req.lines))).None? <==>
               && req.code.value in db.codes && db.codes[req.code.value].business == business
               && CodeAccepts(db.codes[req.code.value],
                              |set u | u in db.usages && u.code == req.code.value && u.user == req.customer|,
                              at.now, Worth(db.products, req.lines)))
  {
    WorthIsSubtotal(db.products, req.lines);
    if req.code.Some? {
      assert RowsOf(db.usages, req.code.value, req.customer)
             == set u | u in db.usages && u.code == req.code.value && u.user == req.customer;
    }
  }

  lemma PlacedIsBilled(db: Db, req: Request, at: Moment, business: Id)
    requires Listed(db.products, req.lines) && LinkedTo(db, at.firstRow, business)
    requires RedeemAsked(db, req, business, at.now, Subtotal(Priced(db.products, req.lines))).Success?
    ensures var items := Priced(db.products, req.lines);
            var coupon := RedeemAsked(db, req, business, at.now, Subtotal(items)).value;
            Billed(db, req, at, NewOrder(req, business, items, coupon))
  {
    WorthIsSubtotal(db.products, req.lines);
    if req.code.Some? {
      ChargeTakesOff(db.codes[req.code.value], Worth(db.products, req.lines));
    }
  }

  lemma CommittedIsBilled(db: Db, req: Request, at: Moment)
    requires WellFormed(req, at) && CheckoutTx(db, req, at).Success?
    ensures Billed(db, req, at, CheckoutTx(db, req, at).value.orders[|db.orders|])
  {
    AdmitExactly(db, req, at);
    ReserveExactly(db.products, req.lines);
    var business := Admit(db, req, at).value;
    LinksExactly(db, req.lines, at.firstRow, business);
    PlacedIsBilled(db, req, at, business);
  }

  /** Checkout commits exactly the requests whose conditions hold on the tables it started from, and then
      changes exactly these rows and bills exactly this; otherwise it changes nothing. */
  lemma CheckoutCommitsExactlyTheAcceptable(db: Db, req: Request, at: Moment)
    requires WellFormed(req, at)
    ensures CheckoutTx(db, req, at).Success? <==> Acceptable(db, req, at)
    ensures CheckoutTx(db, req, at).Success? ==>
              var db' := CheckoutTx(db, req, at).value;
              Effect(db, db', req) && Billed(db, req, at, db'.orders[|db.orders|])
  {
    CheckoutCommitsExactlyThePassing(db, req, at);
    PassesIsAcceptable(db, req, at);
    if CheckoutTx(db, req, at).Success? {
      CommittedIsBilled(db, req, at);
    }
  }
}
