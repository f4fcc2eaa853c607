/** The other transactions on orders, payments, stock and slots, each as a function from the tables
    to the tables. A failure leaves the tables as they were. */
module Orders {
  import opened Wrappers
  import opened Entities
  import opened Cart
  import Discounts

  datatype OrderError =
    | OrderNotFound | Forbidden | NotPending | BadTransition
    | PaymentNotFound | AlreadyPaid | NothingToPay | NotRefundable | IntentTaken
    | ProductNotFound | SlotNotFound | BusinessNotFound | AlreadyExists
    | BadTerms(reason: Discounts.CodeError)

  // ---------- Releasing what an order holds (order.service.ts:368-406) ----------

  function Restock(row: Product, quantity: nat): Product {
    if row.trackStock then row.(stock := row.stock + quantity) else row
  }

  function Restocked(rows: map<Id, Product>, items: seq<Item>): map<Id, Product> {
    map p | p in rows :: Restock(rows[p], Quantity(Lines(items), p))
  }

  function Vacated(slots: map<Id, Slot>, slot: Option<Id>): map<Id, Slot> {
    if slot.Some? && slot.value in slots then
      slots[slot.value := slots[slot.value].(booked := slots[slot.value].booked - 1)]
    else slots
  }

  function Returned(codes: map<Id, Code>, code: Option<Id>): map<Id, Code> {
    if code.Some? && code.value in codes then
      codes[code.value := codes[code.value].(usedCount := codes[code.value].usedCount - 1)]
    else codes
  }

  function WithoutOrder(usages: set<Usage>, order: Id): set<Usage> {
    set u | u in usages && u.order != order
  }

  function Release(db: Db, o: Id): Db
    requires o < |db.orders|
  {
    var order := db.orders[o];
    db.(products := Restocked(db.products, order.items),
        slots := Vacated(db.slots, order.slot),
        codes := Returned(db.codes, order.code),
        usages := if order.code.Some? then WithoutOrder(db.usages, o) else db.usages)
  }

  function WithStatus(db: Db, o: Id, status: OrderStatus): Db
    requires o < |db.orders|
  {
    db.(orders := db.orders[o := db.orders[o].(status := status)])
  }

  // ---------- Cancelling (order.service.ts:323-362) and status changes (422-445) ----------

  function CancelOwnTx(db: Db, customer: Id, o: Id): Result<Db, OrderError> {
    if o >= |db.orders| then Failure(OrderNotFound)
    else if db.orders[o].customer != customer then Failure(Forbidden)
    else if db.orders[o].status != PENDING then Failure(NotPending)
    else Success(WithStatus(Release(db, o), o, CANCELLED))
  }

  function CancelForRefundTx(db: Db, o: Id): Result<Db, OrderError> {
    if o >= |db.orders| then Failure(OrderNotFound)
    else if db.orders[o].status == CANCELLED then Success(db)
    else Success(WithStatus(Release(db, o), o, CANCELLED))
  }

  function Allowed(from: OrderStatus): set<OrderStatus> {
    match from
    case PENDING => {CANCELLED}
    case PAID => {SHIPPED, CANCELLED}
    case SHIPPED => {DELIVERED, CANCELLED}
    case DELIVERED => {}
    case CANCELLED => {}
  }

  /** The order has been marked PAID and not cancelled since. */
  predicate Fulfilling(s: OrderStatus) {
    s in {PAID, SHIPPED, DELIVERED}
  }

  function UpdateStatusTx(db: Db, o: Id, status: OrderStatus, business: Id): Result<Db, OrderError> {
    if o >= |db.orders| then Failure(OrderNotFound)
    else if db.orders[o].business != business then Failure(Forbidden)
    else if status !in Allowed(db.orders[o].status) then Failure(BadTransition)
    else Success(WithStatus(db, o, status))
  }

  // ---------- Payments (payment.service.ts:46-98, 127-189) ----------

  function FindByIntent(payments: seq<Payment>, intent: Id): (k: Option<nat>)
    ensures k.Some? ==> k.value < |payments| && payments[k.value].intent == intent
    ensures k.None? ==> forall i :: 0 <= i < |payments| ==> payments[i].intent != intent
  {
    if payments == [] then None
    else if payments[|payments| - 1].intent == intent then Some(|payments| - 1)
    else FindByIntent(payments[..|payments| - 1], intent)
  }

  function FindByOrder(payments: seq<Payment>, o: Id): (k: Option<nat>)
    ensures k.Some? ==> k.value < |payments| && payments[k.value].order == o
    ensures k.None? ==> forall i :: 0 <= i < |payments| ==> payments[i].order != o
  {
    if payments == [] then None
    else if payments[|payments| - 1].order == o then Some(|payments| - 1)
    else FindByOrder(payments[..|payments| - 1], o)
  }

  /** The table's two unique columns: one record per order and per intent. */
  ghost predicate OneRecordEach(payments: seq<Payment>) {
    forall k, l :: 0 <= k < l < |payments| ==>
      payments[k].order != payments[l].order && payments[k].intent != payments[l].intent
  }

  lemma {:induction false} OnlyRecord(payments: seq<Payment>, k: nat)
    requires OneRecordEach(payments) && k < |payments|
    ensures FindByIntent(payments, payments[k].intent) == Some(k)
    ensures FindByOrder(payments, payments[k].order) == Some(k)
  {
  }

  /** The order whose payment a success delivery for `intent` would claim. */
  function ClaimedBy(db: Db, intent: Id): Option<Id> {
    match FindByIntent(db.payments, intent)
    case None => None
    case Some(k) => if db.payments[k].status == Succeeded then None else Some(db.payments[k].order)
  }

  /** `intent` is the id the payment provider returns. */
  function CreateIntentTx(db: Db, customer: Id, o: Id, intent: Id): Result<Db, OrderError> {
    if o >= |db.orders| then Failure(OrderNotFound)
    else if db.orders[o].customer != customer then Failure(Forbidden)
    else if db.orders[o].status != PENDING then Failure(NotPending)
    else
      var existing := FindByOrder(db.payments, o);
      if existing.Some? && db.payments[existing.value].status == Succeeded then Failure(AlreadyPaid)
      else if db.orders[o].total <= 0 then Failure(NothingToPay)
      else if FindByIntent(db.payments, intent).Some? then Failure(IntentTaken)
      else if existing.Some? then
        var k := existing.value;
        Success(db.(payments := db.payments[k := db.payments[k].(intent := intent, status := Pending)]))
      else
        Success(db.(payments := db.payments + [Payment(o, intent, db.orders[o].total, Pending, None)]))
  }

  function PaymentSucceededTx(db: Db, intent: Id): Db {
    match FindByIntent(db.payments, intent)
    case None => db
    case Some(k) =>
      var payment := db.payments[k];
      if payment.status == Succeeded then db
      else
        var claimed := db.(payments := db.payments[k := payment.(status := Succeeded)]);
        if payment.order < |db.orders| then WithStatus(claimed, payment.order, PAID) else claimed
  }

  function PaymentFailedTx(db: Db, intent: Id): Db {
    match FindByIntent(db.payments, intent)
    case None => db
    case Some(k) =>
      if db.payments[k].status == Succeeded then db
      else db.(payments := db.payments[k := db.payments[k].(status := Failed)])
  }

  /** The payment half of a refund; the order half is CancelForRefundTx. */
  function RefundPaymentTx(db: Db, business: Id, o: Id, refund: Id): Result<Db, OrderError> {
    if o >= |db.orders| then Failure(OrderNotFound)
    else if db.orders[o].business != business then Failure(Forbidden)
    else
      match FindByOrder(db.payments, o)
      case None => Failure(PaymentNotFound)
      case Some(k) =>
        if db.payments[k].status != Succeeded then Failure(NotRefundable)
        else Success(db.(payments := db.payments[k := db.payments[k].(status := Refunded, refund := Some(refund))]))
  }

  // ---------- Stock, slots and codes ----------

  datatype StockOperation = Set | Increment | Decrement

  function StockAfter(stock: int, operation: StockOperation, quantity: nat): int {
    match operation
    case Set => quantity
    case Increment => stock + quantity
    case Decrement => if stock - quantity < 0 then 0 else stock - quantity
  }

  function UpdateStockTx(db: Db, p: Id, operation: StockOperation, quantity: nat, business: Id)
    : Result<Db, OrderError>
  {
    if p !in db.products then Failure(ProductNotFound)
    else if db.products[p].business != Some(business) then Failure(Forbidden)
    else
      var row := db.products[p];
      Success(db.(products := db.products[p := row.(stock := StockAfter(row.stock, operation, quantity))]))
  }

  function CreateSlotTx(db: Db, business: Id, s: Id, capacity: nat): Result<Db, OrderError> {
    if business !in db.businesses then Failure(BusinessNotFound)
    else if s in db.slots then Failure(AlreadyExists)
    else Success(db.(slots := db.slots[s := Slot(business, capacity, 0, true)]))
  }

  function UpdateSlotTx(db: Db, business: Id, s: Id, capacity: Option<nat>, active: Option<bool>)
    : Result<Db, OrderError>
  {
    if s !in db.slots then Failure(SlotNotFound)
    else if db.slots[s].business != business then Failure(Forbidden)
    else
      var slot := db.slots[s];
      Success(db.(slots := db.slots[s := slot.(
        capacity := if capacity.Some? then capacity.value else slot.capacity,
        isActive := if active.Some? then active.value else slot.isActive)]))
  }

  /** `c` stands for the normalised code text, which is unique over all businesses. */
  function CreateCodeTx(db: Db, business: Id, c: Id, terms: Discounts.Terms): Result<Db, OrderError> {
    if business !in db.businesses then Failure(BusinessNotFound)
    else
      match Discounts.MakeCode(business, terms)
      case Failure(e) => Failure(BadTerms(e))
      case Success(code) =>
        if c in db.codes then Failure(AlreadyExists) else Success(db.(codes := db.codes[c := code]))
  }
}
