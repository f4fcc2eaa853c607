/** What each transaction answers and changes, column by column: who may call it, which refusal comes first,
    and every row afterwards. The transaction functions are read against these and not against each other. */
module Answers {
  import opened Wrappers
  import opened Entities
  import opened Cart
  import opened Checkout
  import opened Orders
  import opened Ledger
  import Discounts
  import LedgerInvariant

  // ---------- Orders ----------

  /** The order is CANCELLED and what it held is given back; nothing else changes. */
  ghost predicate GivenBack(db: Db, db': Db, o: Id)
    requires o < |db.orders|
  {
    var order := db.orders[o];
    && db'.customers == db.customers && db'.businesses == db.businesses && db'.payments == db.payments
    && db'.orders == db.orders[o := order.(status := CANCELLED)]
    && db'.products.Keys == db.products.Keys && db'.slots.Keys == db.slots.Keys && db'.codes.Keys == db.codes.Keys
    && (forall p :: p in db.products ==>
          db'.products[p] == db.products[p].(
            stock := db.products[p].stock + if db.products[p].trackStock then Quantity(Lines(order.items), p) else 0))
    && (forall s :: s in db.slots ==>
          db'.slots[s] == db.slots[s].(booked := db.slots[s].booked - if order.slot == Some(s) then 1 else 0))
    && (forall c :: c in db.codes ==>
          db'.codes[c] == db.codes[c].(usedCount := db.codes[c].usedCount - if order.code == Some(c) then 1 else 0))
    && (forall u: Usage :: u in db'.usages <==> u in db.usages && !(order.code.Some? && u.order == o))
  }

  lemma ReleaseGivesBack(db: Db, o: Id)
    requires o < |db.orders|
    ensures GivenBack(db, WithStatus(Release(db, o), o, CANCELLED), o)
  {
  }

  /** cancelOwnOrder: for the order's own customer, while it is PENDING, and for nobody else. */
  lemma CancelOwnAnswers(db: Db, customer: Id, o: Id)
    ensures var r := CancelOwnTx(db, customer, o);
            if o >= |db.orders| then r == Failure(OrderNotFound)
            else if db.orders[o].customer != customer then r == Failure(Forbidden)
            else if db.orders[o].status != PENDING then r == Failure(NotPending)
            else r.Success? && GivenBack(db, r.value, o)
  {
    if o < |db.orders| {
      ReleaseGivesBack(db, o);
    }
  }

  lemma CancelForRefundAnswers(db: Db, o: Id)
    ensures var r := CancelForRefundTx(db, o);
            if o >= |db.orders| then r == Failure(OrderNotFound)
            else if db.orders[o].status == CANCELLED then r == Success(db)
            else r.Success? && GivenBack(db, r.value, o)
  {
    if o < |db.orders| {
      ReleaseGivesBack(db, o);
    }
  }

  predicate SellerMay(from: OrderStatus, to: OrderStatus) {
    || (to == CANCELLED && from in {PENDING, PAID, SHIPPED})
    || (from == PAID && to == SHIPPED)
    || (from == SHIPPED && to == DELIVERED)
  }

  /** updateStatus: for the order's own business. */
  lemma UpdateStatusAnswers(db: Db, o: Id, status: OrderStatus, business: Id)
    ensures var r := UpdateStatusTx(db, o, status, business);
            if o >= |db.orders| then r == Failure(OrderNotFound)
            else if db.orders[o].business != business then r == Failure(Forbidden)
            else if !SellerMay(db.orders[o].status, status) then r == Failure(BadTransition)
            else r == Success(db.(orders := db.orders[o := db.orders[o].(status := status)]))
  {
  }

  // ---------- Payments ----------

  predicate IsRecord(payments: seq<Payment>, k: int, o: Id) {
    0 <= k < |payments| && payments[k].order == o
  }

  predicate HasIntent(payments: seq<Payment>, k: int, intent: Id) {
    0 <= k < |payments| && payments[k].intent == intent
  }

  /** createPaymentIntent, for an order with no record yet. */
  lemma FirstIntentAnswers(db: Db, customer: Id, o: Id, intent: Id)
    requires forall k :: !IsRecord(db.payments, k, o)
    ensures var r := CreateIntentTx(db, customer, o, intent);
            if o >= |db.orders| then r == Failure(OrderNotFound)
            else if db.orders[o].customer != customer then r == Failure(Forbidden)
            else if db.orders[o].status != PENDING then r == Failure(NotPending)
            else if db.orders[o].total <= 0 then r == Failure(NothingToPay)
            else if exists k :: HasIntent(db.payments, k, intent) then r == Failure(IntentTaken)
            else
              r == Success(db.(payments := db.payments +
                                 [Payment(o, intent, db.orders[o].total, PaymentStatus.Pending, None)]))
  {
    var found, taken := FindByOrder(db.payments, o), FindByIntent(db.payments, intent);
    assert found.Some? ==> IsRecord(db.payments, found.value, o);
    assert taken.Some? ==> HasIntent(db.payments, taken.value, intent);
  }

  /** createPaymentIntent, for an order whose record is the `k`-th. */
  lemma NextIntentAnswers(db: Db, customer: Id, o: Id, intent: Id, k: nat)
    requires OneRecordEach(db.payments) && IsRecord(db.payments, k, o)
    ensures var r := CreateIntentTx(db, customer, o, intent);
            if o >= |db.orders| then r == Failure(OrderNotFound)
            else if db.orders[o].customer != customer then r == Failure(Forbidden)
            else if db.orders[o].status != PENDING then r == Failure(NotPending)
            else if db.payments[k].status == Succeeded then r == Failure(AlreadyPaid)
            else if db.orders[o].total <= 0 then r == Failure(NothingToPay)
            else if exists j :: HasIntent(db.payments, j, intent) then r == Failure(IntentTaken)
            else
              r == Success(db.(payments := db.payments[k :=
                                 db.payments[k].(intent := intent, status := PaymentStatus.Pending)]))
  {
    OnlyRecord(db.payments, k);
    var taken := FindByIntent(db.payments, intent);
    assert taken.Some? ==> HasIntent(db.payments, taken.value, intent);
  }

  /** handlePaymentSucceeded, for an intent on no record and for the one on the `k`-th. */
  lemma SucceededAnswers(db: Db, intent: Id, k: nat)
    ensures (forall j :: !HasIntent(db.payments, j, intent)) ==> PaymentSucceededTx(db, intent) == db
    ensures OneRecordEach(db.payments) && HasIntent(db.payments, k, intent) ==>
              var p := db.payments[k];
              PaymentSucceededTx(db, intent) ==
              if p.status == Succeeded then db
              else db.(payments := db.payments[k := p.(status := Succeeded)],
                       orders := if p.order < |db.orders| then db.orders[p.order := db.orders[p.order].(status := PAID)]
                                 else db.orders)
  {
    var found := FindByIntent(db.payments, intent);
    assert found.Some? ==> HasIntent(db.payments, found.value, intent);
    if OneRecordEach(db.payments) && HasIntent(db.payments, k, intent) {
      OnlyRecord(db.payments, k);
    }
  }

  lemma FailedAnswers(db: Db, intent: Id, k: nat)
    ensures (forall j :: !HasIntent(db.payments, j, intent)) ==> PaymentFailedTx(db, intent) == db
    ensures OneRecordEach(db.payments) && HasIntent(db.payments, k, intent) ==>
              PaymentFailedTx(db, intent) ==
              if db.payments[k].status == Succeeded then db
              else db.(payments := db.payments[k := db.payments[k].(status := PaymentStatus.Failed)])
  {
    var found := FindByIntent(db.payments, intent);
    assert found.Some? ==> HasIntent(db.payments, found.value, intent);
    if OneRecordEach(db.payments) && HasIntent(db.payments, k, intent) {
      OnlyRecord(db.payments, k);
    }
  }

  /** The payment half of refund: for the order's own business, on a succeeded record, which alone changes. */
  lemma RefundAnswers(db: Db, business: Id, o: Id, refund: Id, k: nat)
    requires OneRecordEach(db.payments)
    ensures var r := RefundPaymentTx(db, business, o, refund);
            if o >= |db.orders| then r == Failure(OrderNotFound)
            else if db.orders[o].business != business then r == Failure(Forbidden)
            else if forall j :: !IsRecord(db.payments, j, o) then r == Failure(PaymentNotFound)
            else IsRecord(db.payments, k, o) ==>
              if db.payments[k].status != Succeeded then r == Failure(NotRefundable)
              else r == Success(db.(payments := db.payments[k :=
                                      db.payments[k].(status := PaymentStatus.Refunded, refund := Some(refund))]))
  {
    var found := FindByOrder(db.payments, o);
    assert found.Some? ==> IsRecord(db.payments, found.value, o);
    if IsRecord(db.payments, k, o) {
      OnlyRecord(db.payments, k);
    }
  }

  // ---------- Stock, slots and codes ----------

  /** updateStock: for the product's own business. */
  lemma UpdateStockAnswers(db: Db, p: Id, operation: StockOperation, quantity: nat, business: Id)
    ensures var r := UpdateStockTx(db, p, operation, quantity, business);
            if p !in db.products then r == Failure(OrderError.ProductNotFound)
            else if db.products[p].business != Some(business) then r == Failure(Forbidden)
            else
              var was := db.products[p].stock;
              var stock := match operation
                           case Set => quantity
                           case Increment => was + quantity
                           case Decrement => if was < quantity then 0 else was - quantity;
              r == Success(db.(products := db.products[p := db.products[p].(stock := stock)]))
  {
  }

  lemma CreateSlotAnswers(db: Db, business: Id, s: Id, capacity: nat)
    ensures var r := CreateSlotTx(db, business, s, capacity);
            if business !in db.businesses then r == Failure(BusinessNotFound)
            else if s in db.slots then r == Failure(AlreadyExists)
            else
              && r.Success? && r.value == db.(slots := r.value.slots)
              && r.value.slots.Keys == db.slots.Keys + {s}
              && (forall t :: t in db.slots ==> r.value.slots[t] == db.slots[t])
              && var slot := r.value.slots[s];
              slot.business == business && slot.capacity == capacity && slot.booked == 0 && slot.isActive
  {
  }

  /** updateSlot: for the slot's own business; each given field is overwritten, the others stay. */
  lemma UpdateSlotAnswers(db: Db, business: Id, s: Id, capacity: Option<nat>, active: Option<bool>)
    ensures var r := UpdateSlotTx(db, business, s, capacity, active);
            if s !in db.slots then r == Failure(OrderError.SlotNotFound)
            else if db.slots[s].business != business then r == Failure(Forbidden)
            else
              && r.Success? && r.value == db.(slots := r.value.slots) && r.value.slots.Keys == db.slots.Keys
              && (forall t :: t in db.slots && t != s ==> r.value.slots[t] == db.slots[t])
              && var slot, was := r.value.slots[s], db.slots[s];
              && slot.business == was.business && slot.booked == was.booked
              && (if capacity.Some? then slot.capacity == capacity.value else slot.capacity == was.capacity)
              && (if active.Some? then slot.isActive == active.value else slot.isActive == was.isActive)
  {
  }

  lemma CreateCodeAnswers(db: Db, business: Id, c: Id, t: Discounts.Terms)
    ensures var r := CreateCodeTx(db, business, c, t);
            if business !in db.businesses then r == Failure(BusinessNotFound)
            else if t.kind == Percentage && t.value > 10000 then r == Failure(BadTerms(Discounts.Over100Percent))
            else if c in db.codes then r == Failure(AlreadyExists)
            else
              && r.Success? && r.value == db.(codes := r.value.codes)
              && r.value.codes.Keys == db.codes.Keys + {c}
              && (forall d :: d in db.codes ==> r.value.codes[d] == db.codes[d])
              && r.value.codes[c] == Code(business, t.kind, t.value, t.minimumOrder, t.maxUses, 0,
                                          t.maxUsesPerCustomer, t.validFrom, t.validUntil, t.isActive)
  {
  }

  // ---------- Strangers ----------

  /** Someone acting on what belongs to another. */
  predicate Stranger(db: Db, e: Event) {
    match e
    case CancelOwn(customer, o) => o < |db.orders| && db.orders[o].customer != customer
    case CreateIntent(customer, o, _) => o < |db.orders| && db.orders[o].customer != customer
    case UpdateStatus(o, _, business) => o < |db.orders| && db.orders[o].business != business
    case RefundPayment(business, o, _) => o < |db.orders| && db.orders[o].business != business
    case UpdateStock(p, _, _, business) => p in db.products && db.products[p].business != Some(business)
    case UpdateSlot(business, s, _, _) => s in db.slots && db.slots[s].business != business
    case _ => false
  }

  lemma StrangersAreRefused(db: Db, e: Event)
    requires Stranger(db, e)
    ensures After(db, e) == db
  {
  }

  lemma StrangersLeaveTheWorld(w: World, e: Event)
    requires Stranger(w.db, e) && Inv(w)
    ensures Step(w, e) == w
  {
    StrangersAreRefused(w.db, e);
    if e.UpdateStock? {
      assert w.h.adjusted[e.product := w.h.adjusted[e.product]] == w.h.adjusted;
    }
  }

  /** At any point of any run, such a call leaves the whole world as it was, the history included. */
  lemma StrangersChangeNothing(w: World, events: seq<Event>, e: Event)
    requires Opening(w) && Stranger(Run(w, events).db, e)
    ensures Run(w, events + [e]) == Run(w, events)
  {
    OpeningInv(w);
    LedgerInvariant.RunKeepsInv(w, events);
    StrangersLeaveTheWorld(Run(w, events), e);
    assert (events + [e])[..|events|] == events;
  }

  // ---------- The refusals of checkout ----------

  predicate Linked(db: Db, p: Id) {
    exists b :: b in db.businesses && LinkedTo(db, p, b)
  }

  /** Two lines' products are linked to different businesses. */
  predicate Mixed(db: Db, lines: seq<Line>) {
    exists i, j :: 0 <= i < |lines| && 0 <= j < |lines| && Differ(db, lines[i].product, lines[j].product)
  }

  predicate Differ(db: Db, p: Id, q: Id) {
    exists b, c :: b in db.businesses && c in db.businesses && b != c && LinkedTo(db, p, b) && LinkedTo(db, q, c)
  }

  lemma MixedExactly(db: Db, lines: seq<Line>)
    ensures |BusinessesOf(db, lines)| > 1 <==> Mixed(db, lines)
  {
    if Mixed(db, lines) {
      MixedAreMany(db, lines);
    }
    if |BusinessesOf(db, lines)| > 1 {
      ManyAreMixed(db, lines);
    }
  }

  lemma MixedAreMany(db: Db, lines: seq<Line>)
    requires Mixed(db, lines)
    ensures |BusinessesOf(db, lines)| > 1
  {
    var all := BusinessesOf(db, lines);
    var i, j :| 0 <= i < |lines| && 0 <= j < |lines| && Differ(db, lines[i].product, lines[j].product);
    var b, c :| b in db.businesses && c in db.businesses && b != c
                && LinkedTo(db, lines[i].product, b) && LinkedTo(db, lines[j].product, c);
    assert LinkOf(db, lines[i].product) == Some(b) && LinkOf(db, lines[j].product) == Some(c);
    assert {b, c} <= all;
    assert |all - {b, c}| == |all| - 2;
  }

  lemma ManyAreMixed(db: Db, lines: seq<Line>)
    requires |BusinessesOf(db, lines)| > 1
    ensures Mixed(db, lines)
  {
    var all := BusinessesOf(db, lines);
    var b :| b in all;
    assert |all - {b}| > 0;
    var c :| c in all - {b};
    var i :| 0 <= i < |lines| && LinkOf(db, lines[i].product) == Some(b);
    var j :| 0 <= j < |lines| && LinkOf(db, lines[j].product) == Some(c);
    assert LinkedTo(db, lines[i].product, b) && LinkedTo(db, lines[j].product, c);
    assert Differ(db, lines[i].product, lines[j].product);
  }

  /** The admission checks, in order. */
  lemma AdmitAnswers(db: Db, req: Request, at: Moment)
    ensures var r := Admit(db, req, at);
            if req.customer !in db.customers then r == Failure(CustomerNotFound)
            else if exists i :: 0 <= i < |req.lines| && req.lines[i].product !in db.products then
              r == Failure(CheckoutError.ProductNotFound)
            else if Mixed(db, req.lines) then r == Failure(MixedBusinesses)
            else if !Linked(db, at.firstRow) then r == Failure(NotLinked)
            else forall b :: b in db.businesses && LinkedTo(db, at.firstRow, b) ==>
              if db.businesses[b].suspended then r == Failure(Suspended)
              else if !db.businesses[b].accepting then r == Failure(NotAccepting)
              else r == Success(b)
  {
    MixedExactly(db, req.lines);
    var link := LinkOf(db, at.firstRow);
    if link.Some? {
      assert LinkedTo(db, at.firstRow, link.value);
    }
  }

  /** The checks of one line, in order. */
  lemma LineAnswers(row: Product, line: Line)
    ensures var r := CheckLine(row, line);
            if !row.isActive then r == Some(Unavailable(line.product))
            else if row.maxOrderQuantity.Some? && row.maxOrderQuantity.value != 0
                    && row.maxOrderQuantity.value < line.quantity then r == Some(OverMaximum(line.product))
            else if row.trackStock && row.stock < line.quantity then r == Some(InsufficientStock(line.product))
            else r == None
  {
  }

  lemma BookAnswers(slots: map<Id, Slot>, s: Id)
    ensures var r := BookAsked(slots, Some(s));
            if s !in slots then r == Failure(CheckoutError.SlotNotFound)
            else if !slots[s].isActive then r == Failure(SlotInactive)
            else if slots[s].capacity <= slots[s].booked then r == Failure(SlotFull)
            else r == Success(slots[s := slots[s].(booked := slots[s].booked + 1)])
    ensures BookAsked(slots, None) == Success(slots)
  {
  }

  /** Which stage a refusal comes from: admission, then the lines, then the lead time, then the slot, then
      the code; each stage is asked only when those before it pass. */
  lemma RefusalsComeInOrder(db: Db, req: Request, at: Moment)
    requires WellFormed(req, at) && CheckoutTx(db, req, at).Failure?
    ensures var e := CheckoutTx(db, req, at).error;
            var admitted := Admit(db, req, at);
            if admitted.Failure? then e == admitted.error
            else if exists i :: 0 <= i < |req.lines| && !LineAllowed(db.products[req.lines[i].product], req.lines[i],
                                                                      Quantity(req.lines, req.lines[i].product))
            then e.BadLine?
            else if !at.leadTimeMet then e == TooSoon
            else if BookAsked(db.slots, req.slot).Failure? then e == BookAsked(db.slots, req.slot).error
            else e.BadCode? && req.code.Some?
  {
    AdmitExactly(db, req, at);
    if Admit(db, req, at).Success? {
      ReserveExactly(db.products, req.lines);
      FitsIsLineAllowed(db.products, req.lines);
    }
  }

  /** The code's refusal, when the code is what fails. */
  lemma CodeRefusalAnswers(db: Db, req: Request, at: Moment, business: Id, reason: Discounts.CodeError)
    requires WellFormed(req, at) && CheckoutTx(db, req, at) == Failure(BadCode(reason))
    requires LinkedTo(db, at.firstRow, business) && req.code.Some?
    ensures Listed(db.products, req.lines)
    ensures if req.code.value !in db.codes || db.codes[req.code.value].business != business
            then reason == Discounts.NoSuchCode
            else
              Some(reason) ==
              Discounts.CheckCode(Some(db.codes[req.code.value]),
                                  |set u | u in db.usages && u.code == req.code.value && u.user == req.customer|,
                                  at.now, Worth(db.products, req.lines))
  {
    AdmitExactly(db, req, at);
    ReserveExactly(db.products, req.lines);
    WorthIsSubtotal(db.products, req.lines);
    assert RowsOf(db.usages, req.code.value, req.customer)
           == set u | u in db.usages && u.code == req.code.value && u.user == req.customer;
  }
}
