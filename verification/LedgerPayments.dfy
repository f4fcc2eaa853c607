/** What payment records say about orders on every run of the ledger, where each call of a handler is one
    event (src/payment/payment.service.ts:46-98, 127-189). What interleaving those calls adds is the
    subject of PaymentClaim. */
module LedgerPayments {
  import opened Wrappers
  import opened Entities
  import opened Cart
  import opened Checkout
  import opened Orders
  import opened Ledger
  import opened LedgerInvariant
  import opened LedgerRelease

  /** The record shows the total collected, whether or not it has since been refunded. */
  predicate Collected(p: Payment) {
    p.status == Succeeded || p.refund.Some?
  }

  predicate Pays(db: Db, k: int, o: Id) {
    0 <= k < |db.payments| && db.payments[k].order == o && Collected(db.payments[k])
  }

  /** Each record asks for exactly its order's total, which is more than nothing. */
  ghost predicate Owned(db: Db) {
    forall k :: 0 <= k < |db.payments| ==>
      && db.payments[k].order < |db.orders|
      && db.payments[k].amount == db.orders[db.payments[k].order].total
      && db.payments[k].amount > 0
  }

  ghost predicate PaidFor(db: Db) {
    forall o :: 0 <= o < |db.orders| && Fulfilling(db.orders[o].status) ==> exists k :: Pays(db, k, o)
  }

  ghost predicate PendingIsUnpaid(db: Db)
    requires Owned(db)
  {
    forall k :: 0 <= k < |db.payments| && db.orders[db.payments[k].order].status == PENDING ==>
      !Collected(db.payments[k])
  }

  ghost predicate Sound(db: Db) {
    Owned(db) && OneRecordEach(db.payments) && PaidFor(db) && PendingIsUnpaid(db)
  }

  // ---------- Events that leave the records alone ----------

  /** No order is newly fulfilling or pending, except new ones, which are pending. */
  ghost predicate NothingStarted(db: Db, db': Db) {
    && db'.payments == db.payments && |db.orders| <= |db'.orders|
    && (forall i :: 0 <= i < |db.orders| ==>
          && db'.orders[i].total == db.orders[i].total
          && (Fulfilling(db'.orders[i].status) ==> Fulfilling(db.orders[i].status))
          && (db'.orders[i].status == PENDING ==> db.orders[i].status == PENDING))
    && (forall i :: |db.orders| <= i < |db'.orders| ==> db'.orders[i].status == PENDING)
  }

  lemma NothingStartedKeepsSound(db: Db, db': Db)
    requires Sound(db) && NothingStarted(db, db')
    ensures Sound(db')
  {
    forall o | 0 <= o < |db'.orders| && Fulfilling(db'.orders[o].status) ensures exists k :: Pays(db', k, o) {
      var k :| Pays(db, k, o);
      assert Pays(db', k, o);
    }
  }

  predicate OnPayments(e: Event) {
    e.CreateIntent? || e.PaymentSucceeded? || e.PaymentFailed? || e.RefundPayment?
  }

  lemma OthersStartNothing(w: World, e: Event)
    requires Matched(w) && !OnPayments(e)
    ensures NothingStarted(w.db, After(w.db, e))
  {
    OrdersAfterStep(w, e);
    OthersLeavePayments(w.db, e);
  }

  lemma OthersLeavePayments(db: Db, e: Event)
    requires !OnPayments(e)
    ensures After(db, e).payments == db.payments
  {
  }

  // ---------- Events on the records ----------

  lemma NewRecordKeepsSound(db: Db, o: Id, intent: Id)
    requires Sound(db) && o < |db.orders| && db.orders[o].status == PENDING && db.orders[o].total > 0
    requires forall i :: 0 <= i < |db.payments| ==> db.payments[i].order != o && db.payments[i].intent != intent
    ensures Sound(db.(payments := db.payments + [Payment(o, intent, db.orders[o].total, Pending, None)]))
  {
    var db' := db.(payments := db.payments + [Payment(o, intent, db.orders[o].total, Pending, None)]);
    forall p | 0 <= p < |db'.orders| && Fulfilling(db'.orders[p].status) ensures exists k :: Pays(db', k, p) {
      var k :| Pays(db, k, p);
      assert Pays(db', k, p);
    }
  }

  lemma NewIntentKeepsSound(db: Db, k: nat, intent: Id)
    requires Sound(db) && k < |db.payments| && db.orders[db.payments[k].order].status == PENDING
    requires forall i :: 0 <= i < |db.payments| ==> db.payments[i].intent != intent
    ensures Sound(db.(payments := db.payments[k := db.payments[k].(intent := intent, status := Pending)]))
  {
    var db' := db.(payments := db.payments[k := db.payments[k].(intent := intent, status := Pending)]);
    forall p | 0 <= p < |db'.orders| && Fulfilling(db'.orders[p].status) ensures exists j :: Pays(db', j, p) {
      var j :| Pays(db, j, p);
      assert Pays(db', j, p);
    }
  }

  lemma IntentKeepsSound(db: Db, customer: Id, o: Id, intent: Id)
    requires Sound(db)
    ensures Sound(Kept(db, CreateIntentTx(db, customer, o, intent)))
  {
    if CreateIntentTx(db, customer, o, intent).Success? {
      var existing := FindByOrder(db.payments, o);
      if existing.Some? {
        NewIntentKeepsSound(db, existing.value, intent);
      } else {
        NewRecordKeepsSound(db, o, intent);
      }
    }
  }

  lemma ClaimKeepsSound(db: Db, k: nat)
    requires Sound(db) && k < |db.payments|
    ensures var p := db.payments[k];
            Sound(db.(payments := db.payments[k := p.(status := Succeeded)],
                      orders := db.orders[p.order := db.orders[p.order].(status := PAID)]))
  {
    var o := db.payments[k].order;
    var db' := db.(payments := db.payments[k := db.payments[k].(status := Succeeded)],
                   orders := db.orders[o := db.orders[o].(status := PAID)]);
    forall p | 0 <= p < |db'.orders| && Fulfilling(db'.orders[p].status) ensures exists j :: Pays(db', j, p) {
      if p == o {
        assert Pays(db', k, p);
      } else {
        var j :| Pays(db, j, p);
        assert Pays(db', j, p);
      }
    }
  }

  lemma SuccessKeepsSound(db: Db, intent: Id)
    requires Sound(db)
    ensures Sound(PaymentSucceededTx(db, intent))
  {
    var found := FindByIntent(db.payments, intent);
    if found.Some? {
      ClaimKeepsSound(db, found.value);
    }
  }

  lemma FailureKeepsSound(db: Db, intent: Id)
    requires Sound(db)
    ensures Sound(PaymentFailedTx(db, intent))
  {
    var db' := PaymentFailedTx(db, intent);
    forall p | 0 <= p < |db'.orders| && Fulfilling(db'.orders[p].status) ensures exists k :: Pays(db', k, p) {
      var k :| Pays(db, k, p);
      assert Pays(db', k, p);
    }
  }

  lemma RefundKeepsSound(db: Db, business: Id, o: Id, refund: Id)
    requires Sound(db)
    ensures Sound(Kept(db, RefundPaymentTx(db, business, o, refund)))
  {
    var db' := Kept(db, RefundPaymentTx(db, business, o, refund));
    forall p | 0 <= p < |db'.orders| && Fulfilling(db'.orders[p].status) ensures exists k :: Pays(db', k, p) {
      var k :| Pays(db, k, p);
      assert Pays(db', k, p);
    }
  }

  lemma StepKeepsSound(w: World, e: Event)
    requires Matched(w) && Sound(w.db)
    ensures Sound(After(w.db, e))
  {
    match e
    case CreateIntent(customer, o, intent) => IntentKeepsSound(w.db, customer, o, intent);
    case PaymentSucceeded(intent) => SuccessKeepsSound(w.db, intent);
    case PaymentFailed(intent) => FailureKeepsSound(w.db, intent);
    case RefundPayment(business, o, refund) => RefundKeepsSound(w.db, business, o, refund);
    case _ =>
      OthersStartNothing(w, e);
      NothingStartedKeepsSound(w.db, After(w.db, e));
  }

  /** With each handler call one event, on every run: each order has at most one payment record, which
      asks for exactly its total; every order that is PAID, SHIPPED or DELIVERED has a record that shows
      it collected; and no record shows a collection for an order still PENDING. */
  lemma {:induction false} NothingShipsUnpaid(w: World, events: seq<Event>)
    requires Opening(w)
    ensures Matched(Run(w, events)) && Sound(Run(w, events).db)
  {
    if events != [] {
      var init := events[..|events| - 1];
      NothingShipsUnpaid(w, init);
      OrdersAfterStep(Run(w, init), events[|events| - 1]);
      StepKeepsSound(Run(w, init), events[|events| - 1]);
    }
  }

  /** So one of createPaymentIntent's refusals needs two handler calls to overlap: PaymentClaim says
      exactly when it is given. */
  lemma AlreadyPaidNeedsOverlap(w: World, events: seq<Event>, customer: Id, o: Id, intent: Id)
    requires Opening(w)
    ensures CreateIntentTx(Run(w, events).db, customer, o, intent) != Failure(AlreadyPaid)
  {
    NothingShipsUnpaid(w, events);
  }

  // ---------- Superseded intents ----------

  predicate Renews(db: Db, e: Event, o: Id) {
    e.CreateIntent? && e.order == o && CreateIntentTx(db, e.customer, o, e.intent).Success?
  }

  /** The intent last issued for the order on a run. */
  function LatestIntent(w: World, events: seq<Event>, o: Id): Option<Id> {
    if events == [] then None
    else
      var init, last := events[..|events| - 1], events[|events| - 1];
      if Renews(Run(w, init).db, last, o) then Some(last.intent) else LatestIntent(w, init, o)
  }

  predicate Records(db: Db, k: int, o: Id) {
    0 <= k < |db.payments| && db.payments[k].order == o
  }

  predicate IntentOf(payments: seq<Payment>, o: Id, intent: Option<Id>) {
    var k := FindByOrder(payments, o);
    if k.None? then intent == None else intent == Some(payments[k.value].intent)
  }

  predicate SameKeys(a: seq<Payment>, b: seq<Payment>) {
    |a| == |b| && forall k :: 0 <= k < |a| ==> b[k].order == a[k].order && b[k].intent == a[k].intent
  }

  lemma {:induction false} SameKeysSameFind(a: seq<Payment>, b: seq<Payment>, o: Id)
    requires SameKeys(a, b)
    ensures FindByOrder(a, o) == FindByOrder(b, o)
  {
    if a != [] {
      SameKeysSameFind(a[..|a| - 1], b[..|b| - 1], o);
    }
  }

  lemma KeysAfterStep(db: Db, e: Event)
    requires !e.CreateIntent?
    ensures SameKeys(db.payments, After(db, e).payments)
  {
    if !OnPayments(e) {
      OthersLeavePayments(db, e);
    }
  }

  /** The event renews the intent of at most one order, and no other order's record gets another intent. */
  lemma IntentsAfterStep(db: Db, e: Event, o: Id, intent: Option<Id>)
    requires Sound(db) && Sound(After(db, e)) && IntentOf(db.payments, o, intent)
    ensures IntentOf(After(db, e).payments, o, if Renews(db, e, o) then Some(e.intent) else intent)
  {
    if e.CreateIntent? {
      IntentsAfterIntent(db, e, o, intent);
    } else {
      KeysAfterStep(db, e);
      KeptIntent(db.payments, After(db, e).payments, o, intent);
    }
  }

  lemma KeptIntent(a: seq<Payment>, b: seq<Payment>, o: Id, intent: Option<Id>)
    requires SameKeys(a, b) && IntentOf(a, o, intent)
    ensures IntentOf(b, o, intent)
  {
    SameKeysSameFind(a, b, o);
  }

  /** `after` gives order `p` the intent of its record `j` and keeps every other record's intent. */
  lemma RenewedIntent(before: seq<Payment>, after: seq<Payment>, p: Id, j: nat, o: Id, latest: Option<Id>)
    requires OneRecordEach(after) && j < |after| && after[j].order == p
    requires |before| <= |after| && forall k :: 0 <= k < |after| ==>
               if k < |before| then
                 after[k].order == before[k].order && (after[k].order != p ==> after[k].intent == before[k].intent)
               else after[k].order == p
    requires IntentOf(before, o, latest)
    ensures IntentOf(after, o, if o == p then Some(after[j].intent) else latest)
  {
    OnlyRecord(after, j);
    var was, now := FindByOrder(before, o), FindByOrder(after, o);
    if o != p && was.Some? {
      OnlyRecord(after, was.value);
    }
    if o != p && now.Some? {
      assert before[now.value].order == o;
    }
  }

  lemma IntentIsWritten(db: Db, customer: Id, p: Id, intent: Id) returns (j: nat)
    requires CreateIntentTx(db, customer, p, intent).Success?
    ensures var after := CreateIntentTx(db, customer, p, intent).value.payments;
            && j < |after| && after[j].order == p && after[j].intent == intent && |db.payments| <= |after|
            && forall k :: 0 <= k < |after| ==>
               if k < |db.payments| then
                 && after[k].order == db.payments[k].order
                 && (k != j ==> after[k].intent == db.payments[k].intent)
               else after[k].order == p
  {
    var existing := FindByOrder(db.payments, p);
    j := if existing.Some? then existing.value else |db.payments|;
  }

  lemma IntentsAfterIntent(db: Db, e: Event, o: Id, intent: Option<Id>)
    requires Sound(After(db, e)) && IntentOf(db.payments, o, intent) && e.CreateIntent?
    ensures IntentOf(After(db, e).payments, o, if Renews(db, e, o) then Some(e.intent) else intent)
  {
    var r := CreateIntentTx(db, e.customer, e.order, e.intent);
    if r.Success? {
      var j := IntentIsWritten(db, e.customer, e.order, e.intent);
      RenewedIntent(db.payments, r.value.payments, e.order, j, o, intent);
    }
  }

  lemma {:induction false} RecordsHoldTheLatest(w: World, events: seq<Event>, o: Id)
    requires Opening(w)
    ensures IntentOf(Run(w, events).db.payments, o, LatestIntent(w, events, o))
  {
    if events != [] {
      var init := events[..|events| - 1];
      RecordsHoldTheLatest(w, init, o);
      NothingShipsUnpaid(w, init);
      NothingShipsUnpaid(w, events);
      IntentsAfterStep(Run(w, init).db, events[|events| - 1], o, LatestIntent(w, init, o));
    }
  }

  predicate Claimable(db: Db, k: int, o: Id) {
    Records(db, k, o) && db.payments[k].status != Succeeded
  }

  lemma ClaimsTheRecorded(db: Db, intent: Id, o: Id, latest: Option<Id>)
    requires Owned(db) && OneRecordEach(db.payments) && IntentOf(db.payments, o, latest)
    ensures Delivers(db, PaymentSucceeded(intent), o) <==> latest == Some(intent) && exists k :: Claimable(db, k, o)
  {
    if Delivers(db, PaymentSucceeded(intent), o) {
      var k := FindByIntent(db.payments, intent).value;
      OnlyRecord(db.payments, k);
      assert Claimable(db, k, o);
    }
    if exists k :: Claimable(db, k, o) {
      var k :| Claimable(db, k, o);
      OnlyRecord(db.payments, k);
    }
  }

  lemma ClaimsOrChangesNothing(db: Db, intent: Id)
    requires Owned(db)
    ensures match ClaimedBy(db, intent)
            case Some(o) => Delivers(db, PaymentSucceeded(intent), o)
            case None => PaymentSucceededTx(db, intent) == db
  {
  }

  /** On every run, a success delivery marks an order PAID exactly when its intent is the last one issued
      for that order and the record is not yet claimed; a delivery that marks no order changes nothing.
      So a charge on a superseded intent is never recorded. */
  lemma DeliveryMarksExactlyTheLatest(w: World, events: seq<Event>, intent: Id, o: Id)
    requires Opening(w)
    ensures var db := Run(w, events).db;
            && (Delivers(db, PaymentSucceeded(intent), o) <==>
                LatestIntent(w, events, o) == Some(intent) && exists k :: Claimable(db, k, o))
            && ((forall p :: !Delivers(db, PaymentSucceeded(intent), p)) ==> PaymentSucceededTx(db, intent) == db)
  {
    NothingShipsUnpaid(w, events);
    RecordsHoldTheLatest(w, events, o);
    var db := Run(w, events).db;
    ClaimsTheRecorded(db, intent, o, LatestIntent(w, events, o));
    ClaimsOrChangesNothing(db, intent);
  }

  // ---------- A late delivery and a refund ----------

  /** The condition of ReleasedAtMostOnce is needed: in any ledger, let a customer cancel a pending order
      whose payment is under way, let the success delivery arrive late and let the seller refund it.
      The refund goes through, and the order has then been released twice: its stock is given back twice
      over and its slot and code counters end one below what the other orders account for. */
  lemma LateDeliveryReleasesTwice(w: World, o: Id, intent: Id, refund: Id)
    requires Inv(w) && OneRecordEach(w.db.payments) && o < |w.db.orders|
    requires w.db.orders[o].status == PENDING && ClaimedBy(w.db, intent) == Some(o)
    ensures var order := w.db.orders[o];
            var cancelled := Step(w, CancelOwn(order.customer, o));
            var revived := Step(cancelled, PaymentSucceeded(intent));
            var refunded := Step(revived, RefundPayment(order.business, o, refund));
            var w' := Step(refunded, CancelForRefund(o));
            && RevivesCancelled(cancelled.db, PaymentSucceeded(intent))
            && RefundPaymentTx(revived.db, order.business, o, refund).Success?
            && TwiceReleased(w, w', o)
  {
    var order := w.db.orders[o];
    var cancelled := Step(w, CancelOwn(order.customer, o));
    assert cancelled == Released(w, o);
    var revived := Step(cancelled, PaymentSucceeded(intent));
    assert revived.db.orders[o] == order.(status := PAID);
    RefundIsAccepted(cancelled.db, o, intent, order.business, refund);
    var refunded := Step(revived, RefundPayment(order.business, o, refund));
    assert refunded.db == revived.db.(payments := refunded.db.payments) && refunded.h == revived.h;
    ReleasingAgain(w, refunded, o);
    assert Step(refunded, CancelForRefund(o)) == Released(refunded, o);
  }

  lemma ReleasingAgain(w: World, revived: World, o: Id)
    requires Inv(w) && o < |w.db.orders| && w.db.orders[o].status == PENDING
    requires var once := Released(w, o);
             && revived.h == once.h && revived.db.products == once.db.products
             && revived.db.slots == once.db.slots && revived.db.codes == once.db.codes
             && revived.db.orders == once.db.orders[o := w.db.orders[o].(status := PAID)]
    ensures TwiceReleased(w, Released(revived, o), o)
  {
  }

  lemma RefundIsAccepted(db: Db, o: Id, intent: Id, business: Id, refund: Id)
    requires OneRecordEach(db.payments) && o < |db.orders| && ClaimedBy(db, intent) == Some(o)
    requires db.orders[o].business == business
    ensures RefundPaymentTx(PaymentSucceededTx(db, intent), business, o, refund).Success?
  {
    var k := FindByIntent(db.payments, intent).value;
    var after := PaymentSucceededTx(db, intent);
    assert forall i :: 0 <= i < |after.payments| ==>
             after.payments[i].order == db.payments[i].order && after.payments[i].intent == db.payments[i].intent;
    OnlyRecord(after.payments, k);
  }

  /** Two releases of one order, seen in the tables. */
  ghost predicate TwiceReleased(w: World, w': World, o: Id)
    requires o < |w.db.orders|
  {
    var order := w.db.orders[o];
    && |w'.h.released| == |w.h.released| && o < |w'.h.released| && w'.h.released[o] == 2
    && (forall p :: p in w.db.products && w.db.products[p].trackStock ==>
          p in w'.db.products &&
          w'.db.products[p].stock == w.db.products[p].stock + 2 * Quantity(Lines(order.items), p))
    && (order.slot.Some? ==>
          order.slot.value in w.db.slots && order.slot.value in w'.db.slots &&
          w'.db.slots[order.slot.value].booked == w.db.slots[order.slot.value].booked - 2)
    && (order.code.Some? ==>
          order.code.value in w.db.codes && order.code.value in w'.db.codes &&
          w'.db.codes[order.code.value].usedCount == w.db.codes[order.code.value].usedCount - 2)
  }

  /** A seller's status change goes through exactly when it cancels an order not yet in a final state
      or takes a paid one a single step onwards. Sellers never make an order PAID. */
  lemma SellersMoveOneStep(db: Db, o: Id, status: OrderStatus, business: Id)
    requires o < |db.orders| && db.orders[o].business == business
    ensures var from := db.orders[o].status;
            UpdateStatusTx(db, o, status, business).Success? <==>
            || (status == CANCELLED && from != CANCELLED && from != DELIVERED)
            || (status != CANCELLED && Fulfilling(from) && Rank(status) == Rank(from) + 1)
  {
  }
}
