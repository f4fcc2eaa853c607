/** When resources are given back, how often, and what that undoes. */
module LedgerRelease {
  import opened Wrappers
  import opened Entities
  import opened Cart
  import opened Checkout
  import opened Orders
  import opened Ledger
  import opened LedgerInvariant

  // ---------- Released at most once ----------

  predicate Matched(w: World) {
    |w.h.released| == |w.db.orders|
  }

  /** No order is released twice and only a cancelled order has been released at all. */
  ghost predicate Disciplined(w: World)
    requires Matched(w)
  {
    forall i :: 0 <= i < |w.db.orders| ==>
      w.h.released[i] <= 1 && (w.db.orders[i].status != CANCELLED ==> w.h.released[i] == 0)
  }

  /** The event is a success delivery that claims its payment and marks order `o` PAID. */
  predicate Delivers(db: Db, e: Event, o: Id) {
    e.PaymentSucceeded? && o < |db.orders| && ClaimedBy(db, e.intent) == Some(o)
  }

  ghost predicate RevivesReleased(w: World, e: Event)
    requires Matched(w)
  {
    exists o: Id :: Delivers(w.db, e, o) && w.h.released[o] > 0
  }

  function StatusAfter(db: Db, e: Event, o: Id): OrderStatus
    requires o < |db.orders|
  {
    if Delivers(db, e, o) then PAID
    else if Releases(db, e, o) then CANCELLED
    else if e.UpdateStatus? && e.order == o && UpdateStatusTx(db, o, e.status, e.business).Success? then e.status
    else db.orders[o].status
  }

  lemma CheckoutExtends(w: World, req: Request, at: Moment)
    requires WellFormed(req, at) && CheckoutTx(w.db, req, at).Success?
    ensures var db' := CheckoutTx(w.db, req, at).value;
            && |db'.orders| == |w.db.orders| + 1
            && (forall i :: 0 <= i < |w.db.orders| ==> db'.orders[i] == w.db.orders[i])
            && db'.orders[|w.db.orders|].status == PENDING
            && db'.payments == w.db.payments
  {
  }

  /** What one event does to the existing orders and their release counts. */
  ghost predicate OrdersMoved(w: World, e: Event, w': World)
    requires Matched(w)
  {
    && Matched(w') && |w.db.orders| <= |w'.db.orders|
    && (forall i :: 0 <= i < |w.db.orders| ==>
          && w'.db.orders[i] == w.db.orders[i].(status := StatusAfter(w.db, e, i))
          && w'.h.released[i] == w.h.released[i] + if Releases(w.db, e, i) then 1 else 0)
    && (forall i :: |w.db.orders| <= i < |w'.db.orders| ==>
          w'.h.released[i] == 0 && w'.db.orders[i].status == PENDING)
  }

  lemma CancelsMoveOrders(w: World, e: Event)
    requires Matched(w) && (e.CancelOwn? || e.CancelForRefund?)
    ensures OrdersMoved(w, e, Step(w, e))
  {
  }

  lemma SuccessMovesOrders(w: World, intent: Id)
    requires Matched(w)
    ensures OrdersMoved(w, PaymentSucceeded(intent), Step(w, PaymentSucceeded(intent)))
  {
  }

  lemma RecordsMoveNoOrder(w: World, e: Event)
    requires Matched(w) && (e.PaymentFailed? || e.CreateIntent? || e.RefundPayment?)
    ensures OrdersMoved(w, e, Step(w, e))
  {
    assert After(w.db, e).orders == w.db.orders;
  }

  lemma PaymentsMoveOrders(w: World, e: Event)
    requires Matched(w) && (e.PaymentSucceeded? || e.PaymentFailed? || e.CreateIntent? || e.RefundPayment?)
    ensures OrdersMoved(w, e, Step(w, e))
  {
    if e.PaymentSucceeded? {
      SuccessMovesOrders(w, e.intent);
    } else {
      RecordsMoveNoOrder(w, e);
    }
  }

  lemma OthersMoveOrders(w: World, e: Event)
    requires Matched(w)
    requires e.UpdateStatus? || e.UpdateStock? || e.CreateSlot? || e.UpdateSlot? || e.CreateCode?
    ensures OrdersMoved(w, e, Step(w, e))
  {
  }

  lemma OrdersAfterStep(w: World, e: Event)
    requires Matched(w)
    ensures OrdersMoved(w, e, Step(w, e))
  {
    if e.PlaceOrder? {
      if WellFormed(e.req, e.at) && CheckoutTx(w.db, e.req, e.at).Success? {
        CheckoutExtends(w, e.req, e.at);
      }
    } else if e.CancelOwn? || e.CancelForRefund? {
      CancelsMoveOrders(w, e);
    } else if e.PaymentSucceeded? || e.PaymentFailed? || e.CreateIntent? || e.RefundPayment? {
      PaymentsMoveOrders(w, e);
    } else {
      OthersMoveOrders(w, e);
    }
  }

  /** From a disciplined ledger, one event keeps the discipline exactly when it is not a success
      delivery that marks an already released order PAID again. */
  lemma DisciplineBreaksExactlyOnRevival(w: World, e: Event)
    requires Matched(w) && Disciplined(w)
    ensures Matched(Step(w, e))
    ensures Disciplined(Step(w, e)) <==> !RevivesReleased(w, e)
  {
    OrdersAfterStep(w, e);
    if RevivesReleased(w, e) {
      var o: Id :| Delivers(w.db, e, o) && w.h.released[o] > 0;
      assert Step(w, e).db.orders[o].status == PAID;
      assert Step(w, e).h.released[o] > 0;
    }
  }

  predicate RevivesCancelled(db: Db, e: Event) {
    e.PaymentSucceeded? && ClaimedBy(db, e.intent).Some? &&
    var o := ClaimedBy(db, e.intent).value;
    o < |db.orders| && db.orders[o].status == CANCELLED
  }

  lemma {:induction false} MatchedOnRuns(w: World, events: seq<Event>)
    requires Matched(w)
    ensures Matched(Run(w, events))
  {
    if events != [] {
      MatchedOnRuns(w, events[..|events| - 1]);
      OrdersAfterStep(Run(w, events[..|events| - 1]), events[|events| - 1]);
    }
  }

  ghost predicate DisciplinedAt(w: World, events: seq<Event>, k: nat)
    requires k <= |events|
  {
    var w' := Run(w, events[..k]);
    Matched(w') && Disciplined(w')
  }

  /** The k-th event is a success delivery that marks an already released order PAID again. */
  ghost predicate RevivesAt(w: World, events: seq<Event>, k: nat)
    requires k < |events|
  {
    var w' := Run(w, events[..k]);
    Matched(w') && RevivesReleased(w', events[k])
  }

  ghost predicate NoRevivals(w: World, events: seq<Event>) {
    forall k :: 0 <= k < |events| ==> !RevivesAt(w, events, k)
  }

  lemma DisciplinedAtNext(w: World, events: seq<Event>, k: nat)
    requires k < |events| && DisciplinedAt(w, events, k)
    ensures DisciplinedAt(w, events, k + 1) <==> !RevivesAt(w, events, k)
  {
    assert events[..k + 1][..k] == events[..k];
    DisciplineBreaksExactlyOnRevival(Run(w, events[..k]), events[k]);
  }

  lemma {:induction false} DisciplinedUpTo(w: World, events: seq<Event>, k: nat)
    requires Matched(w) && Disciplined(w) && k <= |events| && forall j :: 0 <= j < k ==> !RevivesAt(w, events, j)
    ensures DisciplinedAt(w, events, k)
  {
    if k > 0 {
      DisciplinedUpTo(w, events, k - 1);
      DisciplinedAtNext(w, events, k - 1);
    }
  }

  /** Over runs: no order is released twice, and only cancelled ones are released, at every moment,
      exactly when no success delivery ever marks an already released order PAID again. */
  lemma DisciplinedExactlyWithoutRevivals(w: World, events: seq<Event>)
    requires Matched(w) && Disciplined(w)
    ensures (forall k :: 0 <= k <= |events| ==> DisciplinedAt(w, events, k)) <==> NoRevivals(w, events)
  {
    if forall k :: 0 <= k <= |events| ==> DisciplinedAt(w, events, k) {
      forall k | 0 <= k < |events| ensures !RevivesAt(w, events, k) {
        assert DisciplinedAt(w, events, k) && DisciplinedAt(w, events, k + 1);
        DisciplinedAtNext(w, events, k);
      }
    }
    if NoRevivals(w, events) {
      forall k | 0 <= k <= |events| ensures DisciplinedAt(w, events, k) {
        DisciplinedUpTo(w, events, k);
      }
    }
  }

  lemma DisciplineOnRuns(w: World, events: seq<Event>)
    requires Matched(w) && Disciplined(w) && NoRevivals(w, events)
    ensures Matched(Run(w, events)) && Disciplined(Run(w, events))
  {
    DisciplinedUpTo(w, events, |events|);
    assert events[..|events|] == events;
  }

  predicate RevivesCancelledAt(w: World, events: seq<Event>, k: nat)
    requires k < |events|
  {
    RevivesCancelled(Run(w, events[..k]).db, events[k])
  }

  lemma RevivedWasCancelledAt(w: World, events: seq<Event>, k: nat)
    requires k < |events| && DisciplinedAt(w, events, k)
    ensures RevivesAt(w, events, k) ==> RevivesCancelledAt(w, events, k)
  {
    if RevivesAt(w, events, k) {
      RevivedWasCancelled(Run(w, events[..k]), events[k]);
    }
  }

  lemma RevivedWasCancelled(w: World, e: Event)
    requires Matched(w) && Disciplined(w) && RevivesReleased(w, e)
    ensures RevivesCancelled(w.db, e)
  {
  }

  lemma {:induction false} SparedUpTo(w: World, events: seq<Event>, k: nat)
    requires Matched(w) && Disciplined(w) && k <= |events|
    requires forall j :: 0 <= j < k ==> !RevivesCancelledAt(w, events, j)
    ensures DisciplinedAt(w, events, k)
  {
    if k > 0 {
      SparedUpTo(w, events, k - 1);
      RevivedWasCancelledAt(w, events, k - 1);
      DisciplinedAtNext(w, events, k - 1);
    }
  }

  /** It is enough that no success delivery reaches an order already CANCELLED. */
  lemma SparingCancelledOrdersIsEnough(w: World, events: seq<Event>)
    requires Matched(w) && Disciplined(w)
    requires forall k :: 0 <= k < |events| ==> !RevivesCancelledAt(w, events, k)
    ensures NoRevivals(w, events)
  {
    forall k | 0 <= k < |events| ensures !RevivesAt(w, events, k) {
      SparedUpTo(w, events, k);
      RevivedWasCancelledAt(w, events, k);
    }
  }

  function CodeRows(usages: set<Usage>, c: Id, below: nat): set<Usage> {
    set u | u in usages && u.code == c && u.order < below
  }

  lemma {:induction false} RowsCountHeld(w: World, c: Id, k: nat)
    requires Matched(w) && Shaped(w) && RowsMatchOrders(w) && Disciplined(w) && k <= |w.db.orders|
    ensures |CodeRows(w.db.usages, c, k)| == Held(w.db.orders[..k], w.h.released[..k], UseOf(c))
  {
    if k == 0 {
      assert CodeRows(w.db.usages, c, 0) == {};
    } else {
      RowsCountHeld(w, c, k - 1);
      assert w.db.orders[..k][..k - 1] == w.db.orders[..k - 1];
      assert w.h.released[..k][..k - 1] == w.h.released[..k - 1];
      OneMoreRow(w, c, k);
      assert w.h.released[k - 1] in {0, 1};
    }
  }

  lemma OneMoreRow(w: World, c: Id, k: nat)
    requires Matched(w) && Shaped(w) && RowsMatchOrders(w) && 0 < k <= |w.db.orders|
    ensures |CodeRows(w.db.usages, c, k)| == |CodeRows(w.db.usages, c, k - 1)| +
              if w.db.orders[k - 1].code == Some(c) && w.h.released[k - 1] == 0 then 1 else 0
  {
    var order := w.db.orders[k - 1];
    var row := Usage(c, order.customer, k - 1);
    var fewer, more := CodeRows(w.db.usages, c, k - 1), CodeRows(w.db.usages, c, k);
    assert forall u :: u in more - fewer ==> u == row;
    assert row in w.db.usages <==> order.code == Some(c) && w.h.released[k - 1] == 0;
    assert more == if row in w.db.usages then fewer + {row} else fewer;
  }

  /** On every run in which no success delivery marks an already released order PAID again, so on every
      run in which none reaches an order already CANCELLED: each order is released at most once, no
      counter goes negative, and each code's used count is the number of its usage rows. */
  lemma ReleasedAtMostOnce(w: World, events: seq<Event>)
    requires Opening(w) && NoRevivals(w, events)
    ensures var w' := Run(w, events);
            && Shaped(w')
            && (forall i :: 0 <= i < |w'.h.released| ==> w'.h.released[i] <= 1)
            && (forall s :: s in w'.db.slots ==> w'.db.slots[s].booked >= 0)
            && (forall c :: c in w'.db.codes ==>
                  w'.db.codes[c].usedCount == |CodeRows(w'.db.usages, c, |w'.db.orders|)|)
            && (forall u :: u in w'.db.usages ==> u.order < |w'.db.orders|)
  {
    OpeningInv(w);
    RunKeepsInv(w, events);
    DisciplineOnRuns(w, events);
    var w' := Run(w, events);
    forall s | s in w'.db.slots ensures w'.db.slots[s].booked >= 0 {
      HeldIsNonNegative(w'.db.orders, w'.h.released, PlaceIn(s));
    }
    forall c | c in w'.db.codes
      ensures w'.db.codes[c].usedCount == |CodeRows(w'.db.usages, c, |w'.db.orders|)|
    {
      RowsCountHeld(w', c, |w'.db.orders|);
      assert w'.db.orders[..|w'.db.orders|] == w'.db.orders;
      assert w'.h.released[..|w'.h.released|] == w'.h.released;
    }
  }

  // ---------- Cancelling is final, released or not ----------

  predicate NeverDelivered(w: World, events: seq<Event>, o: Id) {
    forall i :: 0 <= i < |events| ==> !Delivers(Run(w, events[..i]).db, events[i], o)
  }

  /** Once CANCELLED, an order keeps its status and its release count on every run in which no
      success delivery claims it. So an order its seller cancelled, which releases nothing, holds its
      stock, slot and code use for good. */
  lemma {:induction false} CancelledIsFinal(w: World, events: seq<Event>, o: Id)
    requires Matched(w) && o < |w.db.orders| && w.db.orders[o].status == CANCELLED
    requires NeverDelivered(w, events, o)
    ensures var w' := Run(w, events);
            Matched(w') && o < |w'.db.orders| && w'.db.orders[o].status == CANCELLED
            && w'.h.released[o] == w.h.released[o]
  {
    if events != [] {
      var init, last := events[..|events| - 1], events[|events| - 1];
      forall i | 0 <= i < |init| ensures !Delivers(Run(w, init[..i]).db, init[i], o) {
        assert init[..i] == events[..i] && init[i] == events[i];
      }
      CancelledIsFinal(w, init, o);
      OrdersAfterStep(Run(w, init), last);
    }
  }

  /** A seller's CANCELLED transition gives nothing back. */
  lemma SellerCancelReleasesNothing(w: World, o: Id, business: Id)
    requires Inv(w) && UpdateStatusTx(w.db, o, CANCELLED, business).Success?
    ensures var w' := Step(w, UpdateStatus(o, CANCELLED, business));
            && w'.db.orders[o].status == CANCELLED
            && w'.h.released == w.h.released
            && w'.db.products == w.db.products && w'.db.slots == w.db.slots
            && w'.db.codes == w.db.codes && w'.db.usages == w.db.usages
  {
    assert UpdateStatusTx(w.db, o, CANCELLED, business).value == WithStatus(w.db, o, CANCELLED);
  }

  // ---------- Statuses only move forward ----------

  function Rank(s: OrderStatus): nat {
    match s
    case PENDING => 0
    case PAID => 1
    case SHIPPED => 2
    case DELIVERED => 3
    case CANCELLED => 4
  }

  ghost predicate Forward(db: Db, db': Db) {
    && |db.orders| <= |db'.orders|
    && forall i :: 0 <= i < |db.orders| ==> Rank(db.orders[i].status) <= Rank(db'.orders[i].status)
  }

  predicate SendsBack(db: Db, e: Event) {
    e.PaymentSucceeded? && ClaimedBy(db, e.intent).Some? &&
    var o := ClaimedBy(db, e.intent).value;
    o < |db.orders| && Rank(db.orders[o].status) > Rank(PAID)
  }

  /** An event moves some order backwards along PENDING, PAID, SHIPPED, DELIVERED, CANCELLED exactly
      when it is a success delivery that claims an order already past PAID. */
  lemma BackwardsExactlyOnLateDelivery(w: World, e: Event)
    requires Matched(w)
    ensures Forward(w.db, After(w.db, e)) <==> !SendsBack(w.db, e)
  {
    OrdersAfterStep(w, e);
    if SendsBack(w.db, e) {
      var o := ClaimedBy(w.db, e.intent).value;
      assert After(w.db, e).orders[o].status == PAID;
    }
  }

  // ---------- Cancel undoes checkout ----------

  /** Orders are only appended; an old order changes at most its status, and which products are
      tracked is fixed. */
  ghost predicate OrdersKept(db: Db, db': Db) {
    && |db.orders| <= |db'.orders|
    && (forall i :: 0 <= i < |db.orders| ==> db'.orders[i] == db.orders[i].(status := db'.orders[i].status))
    && db'.products.Keys == db.products.Keys
    && (forall p :: p in db.products ==> db'.products[p].trackStock == db.products[p].trackStock)
  }

  lemma StepKeepsProducts(db: Db, e: Event)
    ensures var products := After(db, e).products;
            && products.Keys == db.products.Keys
            && forall p :: p in db.products ==> products[p].trackStock == db.products[p].trackStock
  {
    if e.PlaceOrder? && WellFormed(e.req, e.at) && CheckoutTx(db, e.req, e.at).Success? {
      CheckoutCommitsExactlyThePassing(db, e.req, e.at);
    }
  }

  lemma StepKeepsOrders(w: World, e: Event)
    requires Matched(w)
    ensures Matched(Step(w, e)) && OrdersKept(w.db, Step(w, e).db)
  {
    OrdersAfterStep(w, e);
    StepKeepsProducts(w.db, e);
  }

  lemma {:induction false} RunKeepsOrders(w: World, events: seq<Event>)
    requires Matched(w)
    ensures Matched(Run(w, events)) && OrdersKept(w.db, Run(w, events).db)
  {
    if events != [] {
      RunKeepsOrders(w, events[..|events| - 1]);
      StepKeepsOrders(Run(w, events[..|events| - 1]), events[|events| - 1]);
    }
  }

  ghost predicate StockBack(a: map<Id, Product>, a': map<Id, Product>, b: map<Id, Product>, b': map<Id, Product>) {
    forall p :: p in a ==>
      p in a' && p in b && p in b' && b'[p].stock - b[p].stock == a[p].stock - a'[p].stock
  }

  ghost predicate SlotsBack(a: map<Id, Slot>, a': map<Id, Slot>, b: map<Id, Slot>, b': map<Id, Slot>) {
    && a'.Keys == a.Keys && b'.Keys == b.Keys
    && forall s :: s in b ==>
         if s in a then b'[s].booked - b[s].booked == a[s].booked - a'[s].booked else b'[s] == b[s]
  }

  ghost predicate CodesBack(a: map<Id, Code>, a': map<Id, Code>, b: map<Id, Code>, b': map<Id, Code>) {
    && a'.Keys == a.Keys && b'.Keys == b.Keys
    && forall c :: c in b ==>
         if c in a then b'[c].usedCount - b[c].usedCount == a[c].usedCount - a'[c].usedCount else b'[c] == b[c]
  }

  /** From `b` to `b'` every count moves the opposite way to the move from `a` to `a'`, and exactly
      the usage rows that `a'` added to `a` disappear. */
  ghost predicate Undone(a: Db, a': Db, b: Db, b': Db) {
    && StockBack(a.products, a'.products, b.products, b'.products)
    && SlotsBack(a.slots, a'.slots, b.slots, b'.slots)
    && CodesBack(a.codes, a'.codes, b.codes, b'.codes)
    && a.usages <= a'.usages && a'.usages - a.usages <= b.usages
    && b'.usages == b.usages - (a'.usages - a.usages)
  }

  lemma ReleaseUndoes(a: Db, a': Db, b: Db, req: Request)
    requires Effect(a, a', req)
    requires var o := |a.orders|;
             && o < |b.orders|
             && Lines(b.orders[o].items) == req.lines && b.orders[o].slot == req.slot && b.orders[o].code == req.code
             && WithoutOrder(b.usages, o) == b.usages - (a'.usages - a.usages)
             && a'.usages - a.usages <= b.usages
             && (req.code.None? ==> a'.usages - a.usages == {})
    requires b.products.Keys == a.products.Keys
    requires forall p :: p in a.products ==> b.products[p].trackStock == a.products[p].trackStock
    requires (req.slot.Some? ==> req.slot.value in a.slots) && (req.code.Some? ==> req.code.value in a.codes)
    ensures Undone(a, a', b, WithStatus(Release(b, |a.orders|), |a.orders|, CANCELLED))
  {
    var order := b.orders[|a.orders|];
    StockUndone(a.products, a'.products, b.products, order.items, req.lines);
    SlotsUndone(a.slots, a'.slots, b.slots, req.slot);
    CodesUndone(a.codes, a'.codes, b.codes, req.code);
  }

  lemma StockUndone(a: map<Id, Product>, a': map<Id, Product>, b: map<Id, Product>, items: seq<Item>, lines: seq<Line>)
    requires StockEffect(a, a', lines) && Lines(items) == lines && b.Keys == a.Keys
    requires forall p :: p in a ==> b[p].trackStock == a[p].trackStock
    ensures StockBack(a, a', b, Restocked(b, items))
  {
  }

  lemma SlotsUndone(a: map<Id, Slot>, a': map<Id, Slot>, b: map<Id, Slot>, slot: Option<Id>)
    requires SlotEffect(a, a', slot) && (slot.Some? ==> slot.value in a)
    ensures SlotsBack(a, a', b, Vacated(b, slot))
  {
  }

  lemma CodesUndone(a: map<Id, Code>, a': map<Id, Code>, b: map<Id, Code>, code: Option<Id>)
    requires CodeEffect(a, a', code) && (code.Some? ==> code.value in a)
    ensures CodesBack(a, a', b, Returned(b, code))
  {
  }

  /** A customer's cancel takes back exactly what that customer's checkout did - per product, slot and
      code, and in usage rows - whatever other events happened in between. */
  lemma CancelUndoesCheckout(w0: World, req: Request, at: Moment, events: seq<Event>)
    requires Inv(w0) && WellFormed(req, at) && CheckoutTx(w0.db, req, at).Success?
    requires var w2 := Run(Step(w0, PlaceOrder(req, at)), events);
             CancelOwnTx(w2.db, req.customer, |w0.db.orders|).Success?
    ensures var w1 := Step(w0, PlaceOrder(req, at));
            var w2 := Run(w1, events);
            Undone(w0.db, w1.db, w2.db, Step(w2, CancelOwn(req.customer, |w0.db.orders|)).db)
  {
    CheckoutFacts(w0, req, at);
    UndoneAfterRun(w0, Step(w0, PlaceOrder(req, at)), events, req);
  }

  lemma {:induction false} UndoneAfterRun(w0: World, w1: World, events: seq<Event>, req: Request)
    requires Shaped(w0) && RowsMatchOrders(w0) && Effect(w0.db, w1.db, req) && Inv(w1)
    requires (req.slot.Some? ==> req.slot.value in w0.db.slots) && (req.code.Some? ==> req.code.value in w0.db.codes)
    requires CancelOwnTx(Run(w1, events).db, req.customer, |w0.db.orders|).Success?
    ensures Undone(w0.db, w1.db, Run(w1, events).db,
                   Step(Run(w1, events), CancelOwn(req.customer, |w0.db.orders|)).db)
  {
    RunKeepsInv(w1, events);
    RunKeepsOrders(w1, events);
    UndoneBetween(w0, w1, Run(w1, events), req);
  }

  lemma CheckoutFacts(w0: World, req: Request, at: Moment)
    requires Inv(w0) && WellFormed(req, at) && CheckoutTx(w0.db, req, at).Success?
    ensures var w1 := Step(w0, PlaceOrder(req, at));
            Inv(w1) && Effect(w0.db, w1.db, req)
    ensures (req.slot.Some? ==> req.slot.value in w0.db.slots) && (req.code.Some? ==> req.code.value in w0.db.codes)
  {
    CheckoutCommitsExactlyThePassing(w0.db, req, at);
    CheckoutKeepsInv(w0, req, at);
  }

  lemma UndoneBetween(w0: World, w1: World, w2: World, req: Request)
    requires Shaped(w0) && RowsMatchOrders(w0) && Effect(w0.db, w1.db, req) && OrdersKept(w1.db, w2.db)
    requires Shaped(w2) && RowsMatchOrders(w2) && PendingNeverReleased(w2)
    requires (req.slot.Some? ==> req.slot.value in w0.db.slots) && (req.code.Some? ==> req.code.value in w0.db.codes)
    requires w2.db.orders[|w0.db.orders|].status == PENDING
    ensures Undone(w0.db, w1.db, w2.db, WithStatus(Release(w2.db, |w0.db.orders|), |w0.db.orders|, CANCELLED))
  {
    CancelRemovesTheRow(w0, w1, w2, req);
    ReleaseUndoes(w0.db, w1.db, w2.db, req);
  }

  lemma CancelRemovesTheRow(w0: World, w1: World, w2: World, req: Request)
    requires Shaped(w0) && RowsMatchOrders(w0) && Effect(w0.db, w1.db, req)
    requires Shaped(w2) && RowsMatchOrders(w2) && PendingNeverReleased(w2)
    requires |w0.db.orders| < |w2.db.orders|
    requires var order := w2.db.orders[|w0.db.orders|];
             order.status == PENDING && order.code == req.code && order.customer == req.customer
    ensures w1.db.usages - w0.db.usages <= w2.db.usages
    ensures WithoutOrder(w2.db.usages, |w0.db.orders|) == w2.db.usages - (w1.db.usages - w0.db.usages)
    ensures req.code.None? ==> w1.db.usages - w0.db.usages == {}
  {
    var o := |w0.db.orders|;
    assert forall u :: u in w0.db.usages ==> u.order < o;
    if req.code.Some? {
      var row := Usage(req.code.value, req.customer, o);
      assert w1.db.usages - w0.db.usages == {row};
      assert w2.h.released[o] == 0;
      assert row in w2.db.usages;
      assert forall u :: u in w2.db.usages && u.order == o ==> u == row;
    } else {
      assert forall u :: u in w2.db.usages ==> u.order != o;
    }
  }

  /** With nothing in between, the cancel restores every product, slot and code row and the usage rows
      as they were before the checkout; only the cancelled order stays. */
  lemma CancelAtOnceRestoresTheTables(w: World, req: Request, at: Moment)
    requires Inv(w) && WellFormed(req, at) && CheckoutTx(w.db, req, at).Success?
    ensures RestoredByCancel(w.db, CheckoutTx(w.db, req, at).value, req.customer)
  {
    CheckoutFacts(w, req, at);
    CheckoutCommitsExactlyThePassing(w.db, req, at);
    EffectIsRestored(w.db, CheckoutTx(w.db, req, at).value, req);
  }

  ghost predicate RestoredByCancel(before: Db, placed: Db, customer: Id) {
    var o := |before.orders|;
    && o < |placed.orders|
    && CancelOwnTx(placed, customer, o)
       == Success(before.(orders := placed.orders[o := placed.orders[o].(status := CANCELLED)]))
  }

  lemma EffectIsRestored(a: Db, a': Db, req: Request)
    requires Effect(a, a', req) && a'.orders[|a.orders|].customer == req.customer
    requires (req.slot.Some? ==> req.slot.value in a.slots) && (req.code.Some? ==> req.code.value in a.codes)
    requires forall u :: u in a.usages ==> u.order < |a.orders|
    ensures RestoredByCancel(a, a', req.customer)
  {
    RowsRestored(a, a', req);
    assert (if req.code.Some? then WithoutOrder(a'.usages, |a.orders|) else a'.usages) == a.usages;
  }

  lemma RowsRestored(a: Db, a': Db, req: Request)
    requires Effect(a, a', req)
    requires (req.slot.Some? ==> req.slot.value in a.slots) && (req.code.Some? ==> req.code.value in a.codes)
    ensures Restocked(a'.products, a'.orders[|a.orders|].items) == a.products
    ensures Vacated(a'.slots, req.slot) == a.slots
    ensures Returned(a'.codes, req.code) == a.codes
  {
    forall p | p in a.products ensures Restocked(a'.products, a'.orders[|a.orders|].items)[p] == a.products[p] {
      assert p in a'.products;
    }
  }
}
