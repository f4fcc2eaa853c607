/** The services as the program runs them: methods that update the tables in place, step by step.
    Each is proved equal to its transaction function, so the theorems about runs are about these. */
module Services {
  import opened Wrappers
  import opened Entities
  import opened Cart
  import opened Checkout
  import opened Orders
  import Discounts

  class Database {
    var customers: set<Id>
    var businesses: map<Id, Business>
    var products: map<Id, Product>
    var slots: map<Id, Slot>
    var codes: map<Id, Code>
    var usages: set<Usage>
    var orders: seq<Order>
    var payments: seq<Payment>

    function Tables(): Db
      reads this
    {
      Db(customers, businesses, products, slots, codes, usages, orders, payments)
    }

    constructor (start: Db)
      ensures Tables() == start
    {
      customers, businesses, products, slots := start.customers, start.businesses, start.products, start.slots;
      codes, usages, orders, payments := start.codes, start.usages, start.orders, start.payments;
    }
  }

  class OrderService {
    const db: Database

    constructor (db: Database)
      ensures this.db == db
    {
      this.db := db;
    }

    /** All writes go to working copies that commit publishes together; every early return is the
        rollback. */
    method Checkout(req: Request, at: Moment) returns (r: Result<Id, CheckoutError>)
      requires WellFormed(req, at)
      modifies db
      ensures match CheckoutTx(old(db.Tables()), req, at)
              case Success(after) => r == Success(old(|db.orders|)) && db.Tables() == after
              case Failure(e) => r == Failure(e) && db.Tables() == old(db.Tables())
      ensures r.Success? <==> old(Acceptable(db.Tables(), req, at))
      ensures r.Success? ==> Effect(old(db.Tables()), db.Tables(), req)
                             && Billed(old(db.Tables()), req, at, db.orders[r.value])
    {
      CheckoutCommitsExactlyTheAcceptable(db.Tables(), req, at);
      r := CheckoutTransaction(req, at);
    }

    method CheckoutTransaction(req: Request, at: Moment) returns (r: Result<Id, CheckoutError>)
      requires WellFormed(req, at)
      modifies db
      ensures match CheckoutTx(old(db.Tables()), req, at)
              case Success(after) => r == Success(old(|db.orders|)) && db.Tables() == after
              case Failure(e) => r == Failure(e) && db.Tables() == old(db.Tables())
    {
      var business :- AdmitCart(req, at);
      var loop := ReserveItems(db.products, req.lines);
      if loop.Failure? {
        return Failure(BadLine(loop.error));
      }
      var held := loop.value;
      if !at.leadTimeMet {
        return Failure(TooSoon);
      }
      var slots :- BookSlot(req.slot);
      var itemsTotal := SumLineTotals(held.items);
      var coupon :- ApplyCode(req, business, at.now, itemsTotal);

      var saved := SaveOrder(req, business, held, slots, coupon, itemsTotal);
      r := Success(saved);
    }

    /** The order with its total and discount, its usage row, and the commit of all working copies. */
    method SaveOrder(req: Request, business: Id, held: Reservation, slots: map<Id, Slot>,
                     coupon: Option<Redemption>, itemsTotal: nat) returns (saved: Id)
      requires itemsTotal == Subtotal(held.items) && coupon.Some? == req.code.Some?
      modifies db
      ensures saved == old(|db.orders|)
      ensures db.Tables() == Place(old(db.Tables()), req, business, held, slots, coupon)
    {
      var codes, usages := db.codes, db.usages;
      saved := |db.orders|;
      var order := Order(req.customer, business, held.items, Discounts.Total(itemsTotal, 0, req.deliveryFee),
                         PENDING, req.slot, req.deliveryFee, None, 0);
      if coupon.Some? {
        codes := codes[req.code.value := coupon.value.row];
        usages := usages + {Usage(req.code.value, req.customer, saved)};
        order := order.(code := req.code, discount := coupon.value.discount,
                        total := Discounts.Total(itemsTotal, coupon.value.discount, req.deliveryFee));
      }
      db.products, db.slots, db.codes := held.rows, slots, codes;
      db.orders, db.usages := db.orders + [order], usages;
    }

    method AdmitCart(req: Request, at: Moment) returns (r: Result<Id, CheckoutError>)
      ensures r == Admit(db.Tables(), req, at)
      ensures r.Success? ==> Listed(db.products, req.lines)
    {
      if req.customer !in db.customers {
        return Failure(CustomerNotFound);
      }
      if !Listed(db.products, req.lines) {
        return Failure(CheckoutError.ProductNotFound);
      }
      var businessIds := BusinessesOf(db.Tables(), req.lines);
      if |businessIds| > 1 {
        return Failure(MixedBusinesses);
      }
      var linked := LinkOf(db.Tables(), at.firstRow);
      if linked.None? {
        return Failure(NotLinked);
      }
      var business := linked.value;
      if db.businesses[business].suspended {
        return Failure(Suspended);
      }
      if !db.businesses[business].accepting {
        return Failure(NotAccepting);
      }
      r := Success(business);
    }

    method BookSlot(asked: Option<Id>) returns (r: Result<map<Id, Slot>, CheckoutError>)
      ensures r == BookAsked(db.slots, asked)
    {
      var slots := db.slots;
      if asked.Some? {
        if asked.value !in slots {
          return Failure(CheckoutError.SlotNotFound);
        }
        var slot := slots[asked.value];
        if !slot.isActive {
          return Failure(SlotInactive);
        }
        if slot.booked >= slot.capacity {
          return Failure(SlotFull);
        }
        slots := slots[asked.value := slot.(booked := slot.booked + 1)];
      }
      r := Success(slots);
    }

    method ApplyCode(req: Request, business: Id, now: int, itemsTotal: nat)
      returns (r: Result<Option<Redemption>, CheckoutError>)
      ensures r == RedeemAsked(db.Tables(), req, business, now, itemsTotal)
      ensures r.Success? ==> r.value.Some? == req.code.Some?
    {
      if req.code.None? {
        return Success(None);
      }
      var id := req.code.value;
      var found := Discounts.Find(db.codes, id, business);
      if found.None? {
        return Failure(BadCode(Discounts.NoSuchCode));
      }
      var code := found.value;
      if !code.isActive {
        return Failure(BadCode(Discounts.Inactive));
      }
      if now < code.validFrom {
        return Failure(BadCode(Discounts.NotYetValid));
      }
      if code.validUntil.Some? && now > code.validUntil.value {
        return Failure(BadCode(Discounts.Expired));
      }
      if Limited(code.maxUses) && code.usedCount >= code.maxUses.value {
        return Failure(BadCode(Discounts.UsedUp));
      }
      if Limited(code.maxUsesPerCustomer) {
        var userUsages := set u | u in db.usages && u.code == id && u.user == req.customer;
        if |userUsages| >= code.maxUsesPerCustomer.value {
          return Failure(BadCode(Discounts.UsedUpByCustomer));
        }
      }
      if code.minimumOrder.Some? && itemsTotal < code.minimumOrder.value {
        return Failure(BadCode(Discounts.BelowMinimum));
      }
      r := Success(Some(Redemption(code.(usedCount := code.usedCount + 1), Discounts.Charge(code, itemsTotal))));
    }

    method SumLineTotals(items: seq<Item>) returns (sum: nat)
      ensures sum == Subtotal(items)
    {
      sum := 0;
      for i := 0 to |items|
        invariant sum == Subtotal(items[..i])
      {
        assert items[..i + 1][..i] == items[..i];
        sum := sum + items[i].lineTotal;
      }
      assert items[..|items|] == items;
    }

    method CancelOwnOrder(customer: Id, o: Id) returns (r: Result<Order, OrderError>)
      modifies db
      ensures match CancelOwnTx(old(db.Tables()), customer, o)
              case Success(after) => db.Tables() == after && r == Success(after.orders[o])
              case Failure(e) => r == Failure(e) && db.Tables() == old(db.Tables())
    {
      if o >= |db.orders| {
        return Failure(OrderNotFound);
      }
      var order := db.orders[o];
      if order.customer != customer {
        return Failure(Forbidden);
      }
      if order.status != PENDING {
        return Failure(NotPending);
      }
      ReleaseOrderResources(o, order);
      order := order.(status := CANCELLED);
      db.orders := db.orders[o := order];
      r := Success(order);
    }

    /** A repeated call is a no-op once the order is CANCELLED. */
    method CancelForRefund(o: Id) returns (r: Result<(), OrderError>)
      modifies db
      ensures match CancelForRefundTx(old(db.Tables()), o)
              case Success(after) => db.Tables() == after && r == Success(())
              case Failure(e) => r == Failure(e) && db.Tables() == old(db.Tables())
    {
      if o >= |db.orders| {
        return Failure(OrderNotFound);
      }
      var order := db.orders[o];
      if order.status == CANCELLED {
        return Success(());
      }
      ReleaseOrderResources(o, order);
      db.orders := db.orders[o := order.(status := CANCELLED)];
      r := Success(());
    }

    /** The increments, the two decrements and the usage-row delete. */
    method ReleaseOrderResources(o: Id, order: Order)
      requires o < |db.orders| && db.orders[o] == order
      modifies db`products, db`slots, db`codes, db`usages
      ensures db.Tables() == Release(old(db.Tables()), o)
    {
      RestoreStock(order.items);
      if order.slot.Some? && order.slot.value in db.slots {
        var slot := db.slots[order.slot.value];
        db.slots := db.slots[order.slot.value := slot.(booked := slot.booked - 1)];
      }
      if order.code.Some? {
        if order.code.value in db.codes {
          var code := db.codes[order.code.value];
          db.codes := db.codes[order.code.value := code.(usedCount := code.usedCount - 1)];
        }
        db.usages := set u | u in db.usages && u.order != o;
      }
    }

    method RestoreStock(items: seq<Item>)
      modifies db`products
      ensures db.products == Restocked(old(db.products), items)
    {
      for i := 0 to |items|
        invariant db.products == Restocked(old(db.products), items[..i])
      {
        var line := items[i].line;
        RestockedByOne(old(db.products), items[..i + 1]);
        assert items[..i + 1][..i] == items[..i];
        if line.product in db.products && db.products[line.product].trackStock {
          Increment(line.product, line.quantity);
        }
      }
      assert items[..|items|] == items;
    }

    /** One increment of stockQuantity in the table. */
    method Increment(p: Id, quantity: nat)
      requires p in db.products
      modifies db`products
      ensures db.products == old(db.products)[p := old(db.products)[p].(stock := old(db.products)[p].stock + quantity)]
    {
      var product := db.products[p];
      db.products := db.products[p := product.(stock := product.stock + quantity)];
    }

    method UpdateStatus(o: Id, status: OrderStatus, business: Id) returns (r: Result<Order, OrderError>)
      modifies db
      ensures match UpdateStatusTx(old(db.Tables()), o, status, business)
              case Success(after) => db.Tables() == after && r == Success(after.orders[o])
              case Failure(e) => r == Failure(e) && db.Tables() == old(db.Tables())
    {
      if o >= |db.orders| {
        return Failure(OrderNotFound);
      }
      var order := db.orders[o];
      if order.business != business {
        return Failure(Forbidden);
      }
      if status !in Allowed(order.status) {
        return Failure(BadTransition);
      }
      order := order.(status := status);
      db.orders := db.orders[o := order];
      r := Success(order);
    }
  }

  lemma RestockedByOne(rows: map<Id, Product>, items: seq<Item>)
    requires items != []
    ensures var init, line := items[..|items| - 1], items[|items| - 1].line;
            var before := Restocked(rows, init);
            Restocked(rows, items) ==
            if line.product in before then before[line.product := Restock(before[line.product], line.quantity)]
            else before
  {
    assert Lines(items)[..|items| - 1] == Lines(items[..|items| - 1]);
  }

  class PaymentService {
    const db: Database
    const orderService: OrderService

    constructor (orders: OrderService)
      ensures orderService == orders && db == orders.db
    {
      orderService, db := orders, orders.db;
    }

    method CreatePaymentIntent(customer: Id, o: Id, intent: Id) returns (r: Result<Id, OrderError>)
      modifies db
      ensures match CreateIntentTx(old(db.Tables()), customer, o, intent)
              case Success(after) => r == Success(intent) && db.Tables() == after
              case Failure(e) => r == Failure(e) && db.Tables() == old(db.Tables())
    {
      if o >= |db.orders| {
        return Failure(OrderNotFound);
      }
      var order := db.orders[o];
      if order.customer != customer {
        return Failure(Forbidden);
      }
      if order.status != PENDING {
        return Failure(NotPending);
      }
      var existing := FindByOrder(db.payments, o);
      if existing.Some? && db.payments[existing.value].status == Succeeded {
        return Failure(AlreadyPaid);
      }
      if order.total <= 0 {
        return Failure(NothingToPay);
      }
      if FindByIntent(db.payments, intent).Some? {
        return Failure(IntentTaken);
      }
      if existing.Some? {
        var payment := db.payments[existing.value];
        db.payments := db.payments[existing.value := payment.(intent := intent, status := Pending)];
      } else {
        db.payments := db.payments + [Payment(o, intent, order.total, Pending, None)];
      }
      r := Success(intent);
    }

    method HandlePaymentSucceeded(intent: Id)
      modifies db
      ensures db.Tables() == PaymentSucceededTx(old(db.Tables()), intent)
    {
      var k := FindByIntent(db.payments, intent);
      if k.None? {
        return;
      }
      var payment := db.payments[k.value];
      if payment.status == Succeeded {
        return;
      }
      db.payments := db.payments[k.value := payment.(status := Succeeded)];
      if payment.order < |db.orders| {
        db.orders := db.orders[payment.order := db.orders[payment.order].(status := PAID)];
      }
    }

    method HandlePaymentFailed(intent: Id)
      modifies db
      ensures db.Tables() == PaymentFailedTx(old(db.Tables()), intent)
    {
      var k := FindByIntent(db.payments, intent);
      if k.None? || db.payments[k.value].status == Succeeded {
        return;
      }
      db.payments := db.payments[k.value := db.payments[k.value].(status := Failed)];
    }

    /** Marks the payment refunded, then cancels the order in a transaction of its own. */
    method Refund(business: Id, o: Id, refund: Id) returns (r: Result<Id, OrderError>)
      requires orderService.db == db
      modifies db
      ensures match RefundPaymentTx(old(db.Tables()), business, o, refund)
              case Success(marked) =>
                CancelForRefundTx(marked, o).Success? && r == Success(refund) &&
                db.Tables() == CancelForRefundTx(marked, o).value
              case Failure(e) => r == Failure(e) && db.Tables() == old(db.Tables())
    {
      if o >= |db.orders| {
        return Failure(OrderNotFound);
      }
      if db.orders[o].business != business {
        return Failure(Forbidden);
      }
      var k := FindByOrder(db.payments, o);
      if k.None? {
        return Failure(PaymentNotFound);
      }
      var payment := db.payments[k.value];
      if payment.status != Succeeded {
        return Failure(NotRefundable);
      }
      db.payments := db.payments[k.value := payment.(status := Refunded, refund := Some(refund))];
      var cancelled := orderService.CancelForRefund(o);
      r := Success(refund);
    }
  }

  class CatalogueService {
    const db: Database

    constructor (db: Database)
      ensures this.db == db
    {
      this.db := db;
    }

    /** ProductService.updateStock. */
    method UpdateStock(p: Id, operation: StockOperation, quantity: nat, business: Id)
      returns (r: Result<Product, OrderError>)
      modifies db
      ensures match UpdateStockTx(old(db.Tables()), p, operation, quantity, business)
              case Success(after) => db.Tables() == after && r == Success(after.products[p])
              case Failure(e) => r == Failure(e) && db.Tables() == old(db.Tables())
    {
      if p !in db.products {
        return Failure(OrderError.ProductNotFound);
      }
      var product := db.products[p];
      if product.business != Some(business) {
        return Failure(Forbidden);
      }
      match operation {
        case Set => product := product.(stock := quantity);
        case Increment => product := product.(stock := product.stock + quantity);
        case Decrement =>
          var left := product.stock - quantity;
          product := product.(stock := if left < 0 then 0 else left);
      }
      db.products := db.products[p := product];
      r := Success(product);
    }

    /** DeliveryService.createSlot and updateSlot. */
    method CreateSlot(business: Id, s: Id, capacity: nat) returns (r: Result<Slot, OrderError>)
      modifies db
      ensures match CreateSlotTx(old(db.Tables()), business, s, capacity)
              case Success(after) => db.Tables() == after && r == Success(after.slots[s])
              case Failure(e) => r == Failure(e) && db.Tables() == old(db.Tables())
    {
      if business !in db.businesses {
        return Failure(BusinessNotFound);
      }
      if s in db.slots {
        return Failure(AlreadyExists);
      }
      var slot := Slot(business, capacity, 0, true);
      db.slots := db.slots[s := slot];
      r := Success(slot);
    }

    method UpdateSlot(business: Id, s: Id, capacity: Option<nat>, active: Option<bool>)
      returns (r: Result<Slot, OrderError>)
      modifies db
      ensures match UpdateSlotTx(old(db.Tables()), business, s, capacity, active)
              case Success(after) => db.Tables() == after && r == Success(after.slots[s])
              case Failure(e) => r == Failure(e) && db.Tables() == old(db.Tables())
    {
      if s !in db.slots {
        return Failure(OrderError.SlotNotFound);
      }
      var slot := db.slots[s];
      if slot.business != business {
        return Failure(Forbidden);
      }
      if capacity.Some? {
        slot := slot.(capacity := capacity.value);
      }
      if active.Some? {
        slot := slot.(isActive := active.value);
      }
      db.slots := db.slots[s := slot];
      r := Success(slot);
    }

    /** DiscountService.create. */
    method CreateCode(business: Id, c: Id, terms: Discounts.Terms) returns (r: Result<Code, OrderError>)
      modifies db
      ensures match CreateCodeTx(old(db.Tables()), business, c, terms)
              case Success(after) => db.Tables() == after && r == Success(after.codes[c])
              case Failure(e) => r == Failure(e) && db.Tables() == old(db.Tables())
    {
      if business !in db.businesses {
        return Failure(BusinessNotFound);
      }
      var made := Discounts.MakeCode(business, terms);
      if made.Failure? {
        return Failure(BadTerms(made.error));
      }
      if c in db.codes {
        return Failure(AlreadyExists);
      }
      db.codes := db.codes[c := made.value];
      r := Success(made.value);
    }
  }
}
