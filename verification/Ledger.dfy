/** Runs of the order ledger: any sequence of checkouts, cancels, status changes, webhooks, refunds,
    stock edits and slot or code changes, with a history the program itself does not keep. */
module Ledger {
  import opened Wrappers
  import opened Entities
  import opened Cart
  import opened Checkout
  import opened Orders
  import Discounts

  /** opening: stock at the start; adjusted: net seller edits; released: how often each order's
      resources were given back; peak: the largest capacity each slot has had. */
  datatype History = History(
    opening: map<Id, int>, adjusted: map<Id, int>, released: seq<nat>, peak: map<Id, nat>)

  datatype World = World(db: Db, h: History)

  datatype Event =
    | PlaceOrder(req: Request, at: Moment)
    | CancelOwn(customer: Id, order: Id)
    | CancelForRefund(order: Id)
    | UpdateStatus(order: Id, status: OrderStatus, business: Id)
    | CreateIntent(customer: Id, order: Id, intent: Id)
    | PaymentSucceeded(intent: Id)
    | PaymentFailed(intent: Id)
    | RefundPayment(business: Id, order: Id, refund: Id)
    | UpdateStock(product: Id, operation: StockOperation, quantity: nat, business: Id)
    | CreateSlot(business: Id, slot: Id, capacity: nat)
    | UpdateSlot(business: Id, slot: Id, newCapacity: Option<nat>, active: Option<bool>)
    | CreateCode(business: Id, code: Id, terms: Discounts.Terms)

  function Kept(db: Db, r: Result<Db, OrderError>): Db {
    if r.Success? then r.value else db
  }

  /** The tables after an event; a rejected one leaves them alone. */
  function After(db: Db, e: Event): Db {
    match e
    case PlaceOrder(req, at) =>
      if WellFormed(req, at) && CheckoutTx(db, req, at).Success? then CheckoutTx(db, req, at).value else db
    case CancelOwn(customer, o) => Kept(db, CancelOwnTx(db, customer, o))
    case CancelForRefund(o) => Kept(db, CancelForRefundTx(db, o))
    case UpdateStatus(o, status, business) => Kept(db, UpdateStatusTx(db, o, status, business))
    case CreateIntent(customer, o, intent) => Kept(db, CreateIntentTx(db, customer, o, intent))
    case PaymentSucceeded(intent) => PaymentSucceededTx(db, intent)
    case PaymentFailed(intent) => PaymentFailedTx(db, intent)
    case RefundPayment(business, o, refund) => Kept(db, RefundPaymentTx(db, business, o, refund))
    case UpdateStock(p, operation, quantity, business) => Kept(db, UpdateStockTx(db, p, operation, quantity, business))
    case CreateSlot(business, s, capacity) => Kept(db, CreateSlotTx(db, business, s, capacity))
    case UpdateSlot(business, s, capacity, active) => Kept(db, UpdateSlotTx(db, business, s, capacity, active))
    case CreateCode(business, c, terms) => Kept(db, CreateCodeTx(db, business, c, terms))
  }

  predicate Releases(db: Db, e: Event, o: Id) {
    || (e.CancelOwn? && e.order == o && CancelOwnTx(db, e.customer, o).Success?)
    || (e.CancelForRefund? && e.order == o && o < |db.orders| && db.orders[o].status != CANCELLED)
  }

  function Remember(w: World, e: Event): History {
    var db' := After(w.db, e);
    match e
    case PlaceOrder(_, _) =>
      if |db'.orders| > |w.db.orders| then w.h.(released := w.h.released + [0]) else w.h
    case CancelOwn(_, o) =>
      if Releases(w.db, e, o) && o < |w.h.released| then
        w.h.(released := w.h.released[o := w.h.released[o] + 1]) else w.h
    case CancelForRefund(o) =>
      if Releases(w.db, e, o) && o < |w.h.released| then
        w.h.(released := w.h.released[o := w.h.released[o] + 1]) else w.h
    case UpdateStock(p, _, _, _) =>
      if p in w.db.products && p in w.h.adjusted && p in db'.products then
        w.h.(adjusted := w.h.adjusted[p := w.h.adjusted[p] + db'.products[p].stock - w.db.products[p].stock])
      else w.h
    case CreateSlot(_, s, _) =>
      if s !in w.db.slots && s in db'.slots && db'.slots[s].capacity >= 0 then
        w.h.(peak := w.h.peak[s := db'.slots[s].capacity]) else w.h
    case UpdateSlot(_, s, _, _) =>
      if s in w.h.peak && s in db'.slots && db'.slots[s].capacity > w.h.peak[s] then
        w.h.(peak := w.h.peak[s := db'.slots[s].capacity]) else w.h
    case _ => w.h
  }

  function Step(w: World, e: Event): World {
    World(After(w.db, e), Remember(w, e))
  }

  function Run(w: World, events: seq<Event>): World {
    if events == [] then w else Step(Run(w, events[..|events| - 1]), events[|events| - 1])
  }

  // ---------- What orders hold ----------

  datatype Resource = StockOf(product: Id) | PlaceIn(slot: Id) | UseOf(code: Id)

  function Uses(order: Order, r: Resource): nat {
    match r
    case StockOf(p) => Quantity(Lines(order.items), p)
    case PlaceIn(s) => if order.slot == Some(s) then 1 else 0
    case UseOf(c) => if order.code == Some(c) then 1 else 0
  }

  /** What an order still holds: all of its use, nothing once released, less than nothing if
      released again. */
  function Share(order: Order, releases: int, r: Resource): int {
    var uses: int := Uses(order, r);
    uses * (1 - releases)
  }

  /** The sum over orders of what each uses times (1 - its releases). */
  function Held(orders: seq<Order>, released: seq<nat>, r: Resource): int
    requires |orders| == |released|
  {
    if orders == [] then 0
    else
      var last := |orders| - 1;
      Held(orders[..last], released[..last], r) + Share(orders[last], released[last], r)
  }

  lemma {:induction false} HeldAfterAppend(orders: seq<Order>, released: seq<nat>, order: Order, r: Resource)
    requires |orders| == |released|
    ensures Held(orders + [order], released + [0], r) == Held(orders, released, r) + Uses(order, r)
  {
    assert (orders + [order])[..|orders|] == orders && (released + [0])[..|orders|] == released;
  }

  lemma {:induction false} HeldAfterRelease(orders: seq<Order>, released: seq<nat>, o: nat, changed: Order, r: Resource)
    requires o < |orders| == |released|
    requires Uses(changed, r) == Uses(orders[o], r)
    ensures Held(orders[o := changed], released[o := released[o] + 1], r)
            == Held(orders, released, r) - Uses(orders[o], r)
    ensures Held(orders[o := changed], released, r) == Held(orders, released, r)
    decreases |orders|
  {
    var last := |orders| - 1;
    if o < last {
      HeldAfterRelease(orders[..last], released[..last], o, changed, r);
      assert orders[o := changed][..last] == orders[..last][o := changed];
      assert released[o := released[o] + 1][..last] == released[..last][o := released[o] + 1];
    } else {
      assert orders[o := changed][..last] == orders[..last];
      assert released[o := released[o] + 1][..last] == released[..last];
      var u: int, k: int := Uses(orders[o], r), released[o];
      assert u * (1 - (k + 1)) == u * (1 - k) - u;
    }
  }

  lemma {:induction false} HeldOfUnnamed(orders: seq<Order>, released: seq<nat>, r: Resource)
    requires |orders| == |released|
    requires forall i :: 0 <= i < |orders| ==> Uses(orders[i], r) == 0
    ensures Held(orders, released, r) == 0
  {
    if orders != [] {
      HeldOfUnnamed(orders[..|orders| - 1], released[..|orders| - 1], r);
    }
  }

  lemma {:induction false} HeldIsNonNegative(orders: seq<Order>, released: seq<nat>, r: Resource)
    requires |orders| == |released| && forall i :: 0 <= i < |released| ==> released[i] <= 1
    ensures Held(orders, released, r) >= 0
  {
    if orders != [] {
      var last := |orders| - 1;
      HeldIsNonNegative(orders[..last], released[..last], r);
      assert released[last] == 0 || released[last] == 1;
    }
  }

  // ---------- The invariant of every run ----------

  ghost predicate Shaped(w: World) {
    && |w.h.released| == |w.db.orders|
    && w.h.opening.Keys == w.db.products.Keys && w.h.adjusted.Keys == w.db.products.Keys
    && w.h.peak.Keys == w.db.slots.Keys
    && (forall i :: 0 <= i < |w.db.orders| ==>
          && (w.db.orders[i].slot.Some? ==> w.db.orders[i].slot.value in w.db.slots)
          && (w.db.orders[i].code.Some? ==> w.db.orders[i].code.value in w.db.codes))
  }

  ghost predicate StockConserved(w: World)
    requires Shaped(w)
  {
    forall p :: p in w.db.products ==>
      w.db.products[p].stock +
        (if w.db.products[p].trackStock then Held(w.db.orders, w.h.released, StockOf(p)) else 0)
      == w.h.opening[p] + w.h.adjusted[p]
  }

  ghost predicate SlotsConserved(w: World)
    requires Shaped(w)
  {
    forall s :: s in w.db.slots ==> w.db.slots[s].booked == Held(w.db.orders, w.h.released, PlaceIn(s))
  }

  ghost predicate CodesConserved(w: World)
    requires Shaped(w)
  {
    forall c :: c in w.db.codes ==> w.db.codes[c].usedCount == Held(w.db.orders, w.h.released, UseOf(c))
  }

  ghost predicate Conserved(w: World)
    requires Shaped(w)
  {
    StockConserved(w) && SlotsConserved(w) && CodesConserved(w)
  }

  ghost predicate StockAndSlotLimits(w: World)
    requires Shaped(w)
  {
    && (forall p :: p in w.db.products ==> w.db.products[p].stock >= 0)
    && (forall s :: s in w.db.slots ==>
          w.db.slots[s].booked <= w.h.peak[s] && w.db.slots[s].capacity <= w.h.peak[s])
  }

  ghost predicate CodeLimits(db: Db) {
    forall c :: c in db.codes ==>
      && (Limited(db.codes[c].maxUses) ==> db.codes[c].usedCount <= db.codes[c].maxUses.value)
      && (Limited(db.codes[c].maxUsesPerCustomer) ==>
            forall u: Id :: |RowsOf(db.usages, c, u)| <= db.codes[c].maxUsesPerCustomer.value)
  }

  /** A usage row exists exactly for each order with a code that has not been released. */
  ghost predicate RowsMatchOrders(w: World)
    requires Shaped(w)
  {
    forall u: Usage :: u in w.db.usages <==>
      && u.order < |w.db.orders|
      && w.db.orders[u.order].code == Some(u.code)
      && w.db.orders[u.order].customer == u.user
      && w.h.released[u.order] == 0
  }

  ghost predicate PendingNeverReleased(w: World)
    requires Shaped(w)
  {
    forall i :: 0 <= i < |w.db.orders| && w.db.orders[i].status == PENDING ==> w.h.released[i] == 0
  }

  ghost predicate Inv(w: World) {
    && Shaped(w) && Conserved(w) && StockAndSlotLimits(w) && CodeLimits(w.db) && RowsMatchOrders(w)
    && PendingNeverReleased(w)
  }

  /** A ledger before any order: any products, empty slots, unused codes. */
  ghost predicate Opening(w: World) {
    && w.db.orders == [] && w.db.payments == [] && w.db.usages == {}
    && w.h.released == []
    && w.h.opening.Keys == w.db.products.Keys && w.h.adjusted.Keys == w.db.products.Keys
    && w.h.peak.Keys == w.db.slots.Keys
    && (forall p :: p in w.db.products ==>
          w.db.products[p].stock >= 0 && w.h.opening[p] == w.db.products[p].stock && w.h.adjusted[p] == 0)
    && (forall s :: s in w.db.slots ==> w.db.slots[s].booked == 0 && w.db.slots[s].capacity == w.h.peak[s])
    && (forall c :: c in w.db.codes ==> w.db.codes[c].usedCount == 0)
  }

  lemma OpeningInv(w: World)
    requires Opening(w)
    ensures Inv(w)
  {
    forall c, u: Id | c in w.db.codes ensures |RowsOf(w.db.usages, c, u)| == 0 {
      assert RowsOf(w.db.usages, c, u) == {};
    }
  }
}
