/** Every event keeps the ledger invariant, so conservation and the limits hold on every run. */
module LedgerInvariant {
  import opened Wrappers
  import opened Entities
  import opened Cart
  import opened Checkout
  import opened Orders
  import opened Ledger
  import Discounts

  // ---------- Checkout ----------

  lemma CheckoutKeepsConservation(w: World, req: Request, order: Order, db': Db)
    requires Shaped(w) && Conserved(w)
    requires Effect(w.db, db', req) && order == db'.orders[|w.db.orders|]
    requires req.slot.Some? ==> req.slot.value in w.db.slots
    requires req.code.Some? ==> req.code.value in w.db.codes
    ensures var w' := World(db', w.h.(released := w.h.released + [0]));
            Shaped(w') && Conserved(w')
  {
    var w' := World(db', w.h.(released := w.h.released + [0]));
    assert db'.orders == w.db.orders + [order];
    forall i | 0 <= i < |db'.orders|
      ensures && (db'.orders[i].slot.Some? ==> db'.orders[i].slot.value in db'.slots)
              && (db'.orders[i].code.Some? ==> db'.orders[i].code.value in db'.codes)
    {
      if i < |w.db.orders| {
        assert db'.orders[i] == w.db.orders[i];
      }
    }
    forall r: Resource
      ensures Held(db'.orders, w'.h.released, r) == Held(w.db.orders, w.h.released, r) + Uses(order, r)
    {
      HeldAfterAppend(w.db.orders, w.h.released, order, r);
    }
    forall p | p in db'.products
      ensures db'.products[p].stock +
                (if db'.products[p].trackStock then Held(db'.orders, w'.h.released, StockOf(p)) else 0)
              == w.h.opening[p] + w.h.adjusted[p]
    {
      assert Uses(order, StockOf(p)) == Quantity(req.lines, p);
    }
    forall s | s in db'.slots ensures db'.slots[s].booked == Held(db'.orders, w'.h.released, PlaceIn(s)) {
      assert Uses(order, PlaceIn(s)) == if req.slot == Some(s) then 1 else 0;
    }
    forall c | c in db'.codes ensures db'.codes[c].usedCount == Held(db'.orders, w'.h.released, UseOf(c)) {
      assert Uses(order, UseOf(c)) == if req.code == Some(c) then 1 else 0;
    }
  }

  lemma RowsAfterCheckout(db: Db, req: Request, db': Db, c: Id, u: Id)
    requires Effect(db, db', req) && forall row :: row in db.usages ==> row.order < |db.orders|
    ensures |RowsOf(db'.usages, c, u)| ==
            |RowsOf(db.usages, c, u)| + if req.code == Some(c) && req.customer == u then 1 else 0
  {
    var before, after := RowsOf(db.usages, c, u), RowsOf(db'.usages, c, u);
    if req.code == Some(c) && u == req.customer {
      assert after == before + {Usage(c, u, |db.orders|)};
    } else {
      assert after == before;
    }
  }

  lemma CheckedCode(db: Db, req: Request, at: Moment)
    requires Passes(db, req, at) && req.code.Some?
    ensures req.code.value in db.codes
    ensures var code := db.codes[req.code.value];
            && (Limited(code.maxUses) ==> code.usedCount < code.maxUses.value)
            && (Limited(code.maxUsesPerCustomer) ==>
                  |RowsOf(db.usages, req.code.value, req.customer)| < code.maxUsesPerCustomer.value)
  {
  }

  lemma CheckoutKeepsCodeLimits(db: Db, req: Request, at: Moment, db': Db)
    requires CodeLimits(db) && Passes(db, req, at) && Effect(db, db', req)
    requires forall u :: u in db.usages ==> u.order < |db.orders|
    ensures CodeLimits(db')
  {
    if req.code.Some? {
      CheckedCode(db, req, at);
    }
    var codes, codes' := db.codes, db'.codes;
    forall c | c in codes'
      ensures Limited(codes'[c].maxUses) ==> codes'[c].usedCount <= codes'[c].maxUses.value
      ensures Limited(codes'[c].maxUsesPerCustomer) ==>
                forall u: Id :: |RowsOf(db'.usages, c, u)| <= codes'[c].maxUsesPerCustomer.value
    {
      if Limited(codes'[c].maxUsesPerCustomer) {
        forall u: Id ensures |RowsOf(db'.usages, c, u)| <= codes'[c].maxUsesPerCustomer.value {
          RowsAfterCheckout(db, req, db', c, u);
        }
      }
    }
  }

  lemma CheckoutKeepsRows(w: World, req: Request, db': Db)
    requires Shaped(w) && RowsMatchOrders(w) && Effect(w.db, db', req)
    requires Shaped(World(db', w.h.(released := w.h.released + [0])))
    ensures RowsMatchOrders(World(db', w.h.(released := w.h.released + [0])))
  {
    var n := |w.db.orders|;
    var released := w.h.released + [0];
    forall u: Usage
      ensures u in db'.usages <==>
              && u.order < |db'.orders| && db'.orders[u.order].code == Some(u.code)
              && db'.orders[u.order].customer == u.user && released[u.order] == 0
    {
      if u.order < n {
        assert db'.orders[u.order] == w.db.orders[u.order];
      } else if u.order == n && u in db'.usages {
        assert u !in w.db.usages;
      }
    }
  }

  lemma CheckoutKeepsStockAndSlotLimits(w: World, req: Request, at: Moment, db': Db)
    requires Shaped(w) && StockAndSlotLimits(w) && Passes(w.db, req, at) && Effect(w.db, db', req)
    requires Shaped(World(db', w.h.(released := w.h.released + [0])))
    ensures StockAndSlotLimits(World(db', w.h.(released := w.h.released + [0])))
  {
    forall p | p in db'.products ensures db'.products[p].stock >= 0 {
      if w.db.products[p].trackStock {
        StockCovers(w.db.products, req.lines, p);
      }
    }
  }

  lemma CheckoutKeepsPending(w: World, req: Request, db': Db)
    requires Shaped(w) && PendingNeverReleased(w) && Effect(w.db, db', req)
    requires Shaped(World(db', w.h.(released := w.h.released + [0])))
    ensures PendingNeverReleased(World(db', w.h.(released := w.h.released + [0])))
  {
    forall i | 0 <= i < |db'.orders| && db'.orders[i].status == PENDING ensures (w.h.released + [0])[i] == 0 {
      if i < |w.db.orders| {
        assert db'.orders[i] == w.db.orders[i];
      }
    }
  }

  lemma EffectKeepsInv(w: World, req: Request, at: Moment, db': Db)
    requires Inv(w) && Passes(w.db, req, at) && Effect(w.db, db', req)
    ensures Inv(World(db', w.h.(released := w.h.released + [0])))
  {
    CheckoutKeepsConservation(w, req, db'.orders[|w.db.orders|], db');
    CheckoutKeepsCodeLimits(w.db, req, at, db');
    CheckoutKeepsRows(w, req, db');
    CheckoutKeepsStockAndSlotLimits(w, req, at, db');
    CheckoutKeepsPending(w, req, db');
  }

  lemma CheckoutStep(w: World, req: Request, at: Moment)
    requires Shaped(w) && WellFormed(req, at) && CheckoutTx(w.db, req, at).Success?
    ensures Step(w, PlaceOrder(req, at)) ==
            World(CheckoutTx(w.db, req, at).value, w.h.(released := w.h.released + [0]))
  {
  }

  lemma CheckoutKeepsInv(w: World, req: Request, at: Moment)
    requires Inv(w) && WellFormed(req, at) && CheckoutTx(w.db, req, at).Success?
    ensures Inv(Step(w, PlaceOrder(req, at)))
  {
    CheckoutCommitsExactlyThePassing(w.db, req, at);
    EffectKeepsInv(w, req, at, CheckoutTx(w.db, req, at).value);
    CheckoutStep(w, req, at);
  }

  lemma StockCovers(rows: map<Id, Product>, lines: seq<Line>, p: Id)
    requires Listed(rows, lines) && Fits(rows, lines) && p in rows && rows[p].trackStock && rows[p].stock >= 0
    ensures Quantity(lines, p) <= rows[p].stock
  {
    if forall i :: 0 <= i < |lines| ==> lines[i].product != p {
      QuantityOfUnlisted(lines, p);
    }
  }

  // ---------- Release ----------

  /** The world after order `o` is cancelled with a release. */
  function Released(w: World, o: Id): World
    requires o < |w.db.orders| && |w.h.released| == |w.db.orders|
  {
    World(WithStatus(Release(w.db, o), o, CANCELLED),
          w.h.(released := w.h.released[o := w.h.released[o] + 1]))
  }

  lemma ReleaseKeepsConservation(w: World, o: Id)
    requires Shaped(w) && Conserved(w) && o < |w.db.orders|
    ensures Shaped(Released(w, o)) && Conserved(Released(w, o))
  {
    var w' := Released(w, o);
    var order := w.db.orders[o];
    forall r: Resource
      ensures Held(w'.db.orders, w'.h.released, r) == Held(w.db.orders, w.h.released, r) - Uses(order, r)
    {
      HeldAfterRelease(w.db.orders, w.h.released, o, order.(status := CANCELLED), r);
    }
    forall p | p in w'.db.products
      ensures w'.db.products[p].stock +
                (if w'.db.products[p].trackStock then Held(w'.db.orders, w'.h.released, StockOf(p)) else 0)
              == w'.h.opening[p] + w'.h.adjusted[p]
    {
      assert Uses(order, StockOf(p)) == Quantity(Lines(order.items), p);
    }
    forall s | s in w'.db.slots ensures w'.db.slots[s].booked == Held(w'.db.orders, w'.h.released, PlaceIn(s)) {
      assert Uses(order, PlaceIn(s)) == if order.slot == Some(s) then 1 else 0;
    }
    forall c | c in w'.db.codes ensures w'.db.codes[c].usedCount == Held(w'.db.orders, w'.h.released, UseOf(c)) {
      assert Uses(order, UseOf(c)) == if order.code == Some(c) then 1 else 0;
    }
  }

  lemma FewerRows(usages: set<Usage>, fewer: set<Usage>, c: Id, u: Id)
    requires fewer <= usages
    ensures |RowsOf(fewer, c, u)| <= |RowsOf(usages, c, u)|
  {
    SubsetSize(RowsOf(fewer, c, u), RowsOf(usages, c, u));
  }

  lemma {:induction false} SubsetSize<T>(a: set<T>, b: set<T>)
    requires a <= b
    ensures |a| <= |b|
  {
    assert b == a + (b - a);
  }

  lemma ReleaseKeepsInv(w: World, o: Id)
    requires Inv(w) && o < |w.db.orders|
    ensures Inv(Released(w, o))
  {
    var w' := Released(w, o);
    ReleaseKeepsConservation(w, o);
    forall c, u: Id | c in w'.db.codes && Limited(w'.db.codes[c].maxUsesPerCustomer)
      ensures |RowsOf(w'.db.usages, c, u)| <= w'.db.codes[c].maxUsesPerCustomer.value
    {
      FewerRows(w.db.usages, w'.db.usages, c, u);
    }
    forall u: Usage
      ensures u in w'.db.usages <==>
              && u.order < |w'.db.orders| && w'.db.orders[u.order].code == Some(u.code)
              && w'.db.orders[u.order].customer == u.user && w'.h.released[u.order] == 0
    {
    }
  }

  // ---------- Everything else ----------

  /** Only order statuses and payments differ, and no order became pending. */
  ghost predicate OnlyStatuses(db: Db, db': Db) {
    && db' == db.(orders := db'.orders, payments := db'.payments)
    && |db'.orders| == |db.orders|
    && forall i :: 0 <= i < |db.orders| ==>
         db'.orders[i] == db.orders[i].(status := db'.orders[i].status) &&
         (db'.orders[i].status == PENDING ==> db.orders[i].status == PENDING)
  }

  lemma {:induction false} HeldIgnoresStatus(orders: seq<Order>, orders': seq<Order>, released: seq<nat>, r: Resource)
    requires |orders| == |orders'| == |released|
    requires forall i :: 0 <= i < |orders| ==> orders'[i] == orders[i].(status := orders'[i].status)
    ensures Held(orders', released, r) == Held(orders, released, r)
  {
    if orders != [] {
      var last := |orders| - 1;
      HeldIgnoresStatus(orders[..last], orders'[..last], released[..last], r);
    }
  }

  lemma StatusesKeepInv(w: World, db': Db)
    requires Inv(w) && OnlyStatuses(w.db, db')
    ensures Inv(World(db', w.h))
  {
    var w' := World(db', w.h);
    assert forall i :: 0 <= i < |w.db.orders| ==>
        && db'.orders[i].slot == w.db.orders[i].slot
        && db'.orders[i].code == w.db.orders[i].code
        && db'.orders[i].customer == w.db.orders[i].customer;
    forall r: Resource ensures Held(db'.orders, w.h.released, r) == Held(w.db.orders, w.h.released, r) {
      HeldIgnoresStatus(w.db.orders, db'.orders, w.h.released, r);
    }
  }

  lemma StatusEventsOnlyStatuses(db: Db, e: Event)
    requires e.UpdateStatus? || e.CreateIntent? || e.PaymentSucceeded? || e.PaymentFailed? || e.RefundPayment?
    ensures OnlyStatuses(db, After(db, e))
  {
    if e.UpdateStatus? || e.PaymentSucceeded? {
      StatusWritesOnlyStatuses(db, e);
    } else {
      assert After(db, e) == db.(payments := After(db, e).payments);
    }
  }

  lemma StatusWritesOnlyStatuses(db: Db, e: Event)
    requires e.UpdateStatus? || e.PaymentSucceeded?
    ensures OnlyStatuses(db, After(db, e))
  {
  }

  /** Replacing product rows touches only the stock clauses of the invariant. */
  lemma ProductsKeepTheRest(w: World, products: map<Id, Product>, adjusted: map<Id, int>)
    requires Inv(w) && products.Keys == w.db.products.Keys == adjusted.Keys
    requires var w' := World(w.db.(products := products), w.h.(adjusted := adjusted));
             StockConserved(w') && forall p :: p in products ==> products[p].stock >= 0
    ensures Inv(World(w.db.(products := products), w.h.(adjusted := adjusted)))
  {
  }

  lemma StockChangeKeepsInv(w: World, p: Id, stock: nat)
    requires Inv(w) && p in w.db.products && p in w.h.adjusted
    ensures var row := w.db.products[p];
            Inv(World(w.db.(products := w.db.products[p := row.(stock := stock)]),
                      w.h.(adjusted := w.h.adjusted[p := w.h.adjusted[p] + stock - row.stock])))
  {
    var products := w.db.products[p := w.db.products[p].(stock := stock)];
    var adjusted := w.h.adjusted[p := w.h.adjusted[p] + stock - w.db.products[p].stock];
    assert StockConserved(World(w.db.(products := products), w.h.(adjusted := adjusted)));
    ProductsKeepTheRest(w, products, adjusted);
  }

  lemma StockEditKeepsInv(w: World, e: Event)
    requires Inv(w) && e.UpdateStock?
    ensures Inv(Step(w, e))
  {
    var p := e.product;
    if UpdateStockTx(w.db, p, e.operation, e.quantity, e.business).Success? {
      StockChangeKeepsInv(w, p, StockAfter(w.db.products[p].stock, e.operation, e.quantity));
    } else {
      assert Step(w, e).h.adjusted == w.h.adjusted;
    }
  }

  /** Replacing slot rows touches only the slot clauses of the invariant. */
  lemma SlotsKeepTheRest(w: World, slots: map<Id, Slot>, peak: map<Id, nat>)
    requires Inv(w) && w.db.slots.Keys <= slots.Keys == peak.Keys
    requires forall s :: s in slots ==>
               && slots[s].booked == Held(w.db.orders, w.h.released, PlaceIn(s))
               && slots[s].booked <= peak[s] && slots[s].capacity <= peak[s]
    ensures Inv(World(w.db.(slots := slots), w.h.(peak := peak)))
  {
  }

  lemma NewSlotKeepsInv(w: World, e: Event)
    requires Inv(w) && e.CreateSlot?
    ensures Inv(Step(w, e))
  {
    var r := CreateSlotTx(w.db, e.business, e.slot, e.capacity);
    if r.Success? {
      HeldOfUnnamed(w.db.orders, w.h.released, PlaceIn(e.slot));
      var slots := w.db.slots[e.slot := Slot(e.business, e.capacity, 0, true)];
      var peak: map<Id, nat> := w.h.peak[e.slot := e.capacity];
      assert Step(w, e) == World(w.db.(slots := slots), w.h.(peak := peak));
      SlotsKeepTheRest(w, slots, peak);
    } else {
      assert Step(w, e) == w;
    }
  }

  lemma SlotEditKeepsInv(w: World, e: Event)
    requires Inv(w) && e.UpdateSlot?
    ensures Inv(Step(w, e))
  {
    var r := UpdateSlotTx(w.db, e.business, e.slot, e.newCapacity, e.active);
    if r.Success? {
      var w' := Step(w, e);
      assert w' == World(w.db.(slots := w'.db.slots), w.h.(peak := w'.h.peak));
      SlotsKeepTheRest(w, w'.db.slots, w'.h.peak);
    } else {
      assert Step(w, e) == w;
    }
  }

  lemma NewCodeKeepsInv(w: World, e: Event)
    requires Inv(w) && e.CreateCode?
    ensures Inv(Step(w, e))
  {
    var db' := After(w.db, e);
    if db' != w.db {
      HeldOfUnnamed(w.db.orders, w.h.released, UseOf(e.code));
      forall u: Id ensures RowsOf(w.db.usages, e.code, u) == {} {
      }
    }
  }

  lemma CancelKeepsInv(w: World, e: Event, o: Id)
    requires Inv(w) && (e.CancelOwn? || e.CancelForRefund?) && e.order == o
    ensures Inv(Step(w, e))
  {
    if Releases(w.db, e, o) {
      ReleaseKeepsInv(w, o);
      assert Step(w, e) == Released(w, o);
    } else {
      assert Step(w, e) == w;
    }
  }

  lemma StepKeepsInv(w: World, e: Event)
    requires Inv(w)
    ensures Inv(Step(w, e))
  {
    match e {
      case PlaceOrder(req, at) =>
        if WellFormed(req, at) && CheckoutTx(w.db, req, at).Success? {
          CheckoutKeepsInv(w, req, at);
        } else {
          assert Step(w, e) == w;
        }
      case CancelOwn(_, o) => CancelKeepsInv(w, e, o);
      case CancelForRefund(o) => CancelKeepsInv(w, e, o);
      case UpdateStock(_, _, _, _) => StockEditKeepsInv(w, e);
      case CreateSlot(_, _, _) => NewSlotKeepsInv(w, e);
      case UpdateSlot(_, _, _, _) => SlotEditKeepsInv(w, e);
      case CreateCode(_, _, _) => NewCodeKeepsInv(w, e);
      case _ =>
        StatusEventsOnlyStatuses(w.db, e);
        StatusesKeepInv(w, After(w.db, e));
    }
  }

  lemma {:induction false} RunKeepsInv(w: World, events: seq<Event>)
    requires Inv(w)
    ensures Inv(Run(w, events))
  {
    if events != [] {
      RunKeepsInv(w, events[..|events| - 1]);
      StepKeepsInv(Run(w, events[..|events| - 1]), events[|events| - 1]);
    }
  }

  // ---------- The two main theorems ----------

  /** On every run from an opening ledger, each product's stock plus what the orders still hold of it
      is its opening stock plus the net seller edits, and each slot's and each code's counter is the
      number of orders naming it, each counted once less its releases. */
  lemma {:induction false} ConservationOnEveryRun(w: World, events: seq<Event>)
    requires Opening(w)
    ensures Shaped(Run(w, events)) && Conserved(Run(w, events))
  {
    OpeningInv(w);
    RunKeepsInv(w, events);
  }

  /** In every reachable state stock is never negative, no slot is booked beyond the largest capacity
      it has had, no code is used more often than its limit, and no customer holds more usage rows
      for a code than its per-customer limit. */
  lemma {:induction false} LimitsOnEveryRun(w: World, events: seq<Event>)
    requires Opening(w)
    ensures Shaped(Run(w, events)) && StockAndSlotLimits(Run(w, events)) && CodeLimits(Run(w, events).db)
  {
    OpeningInv(w);
    RunKeepsInv(w, events);
  }
}
