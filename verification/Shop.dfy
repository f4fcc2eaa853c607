/** The services together, one request at a time. The history of the ledger's runs is carried along, so that
    what is proved of runs is proved of the tables these classes leave. */
module Shop {
  import opened Wrappers
  import opened Entities
  import opened Orders
  import opened Ledger
  import opened LedgerInvariant
  import Checkout
  import Discounts
  import Services

  datatype Request =
    | Buy(req: Checkout.Request, at: Checkout.Moment)
    | Cancel(customer: Id, order: Id)
    | ChangeStatus(order: Id, status: OrderStatus, business: Id)
    | Pay(customer: Id, order: Id, intent: Id)
    | Succeeded(intent: Id)
    | Failed(intent: Id)
    | Refund(business: Id, order: Id, refund: Id)
    | EditStock(product: Id, operation: StockOperation, quantity: nat, business: Id)
    | AddSlot(business: Id, slot: Id, capacity: nat)
    | EditSlot(business: Id, slot: Id, newCapacity: Option<nat>, active: Option<bool>)
    | AddCode(business: Id, code: Id, terms: Discounts.Terms)

  /** The events of the ledger that a request amounts to: a refund that goes through is two. */
  function Events(db: Db, q: Request): seq<Event> {
    match q
    case Buy(req, at) => [PlaceOrder(req, at)]
    case Cancel(customer, o) => [CancelOwn(customer, o)]
    case ChangeStatus(o, status, business) => [UpdateStatus(o, status, business)]
    case Pay(customer, o, intent) => [CreateIntent(customer, o, intent)]
    case Succeeded(intent) => [PaymentSucceeded(intent)]
    case Failed(intent) => [PaymentFailed(intent)]
    case Refund(business, o, refund) =>
      [RefundPayment(business, o, refund)] +
      if RefundPaymentTx(db, business, o, refund).Success? then [CancelForRefund(o)] else []
    case EditStock(p, operation, quantity, business) => [Event.UpdateStock(p, operation, quantity, business)]
    case AddSlot(business, s, capacity) => [Event.CreateSlot(business, s, capacity)]
    case EditSlot(business, s, capacity, active) => [Event.UpdateSlot(business, s, capacity, active)]
    case AddCode(business, c, terms) => [Event.CreateCode(business, c, terms)]
  }

  lemma RunOne(w: World, e: Event)
    ensures Run(w, [e]) == Step(w, e)
  {
    assert [e][..0] == [];
  }

  lemma RunTwo(w: World, e: Event, f: Event)
    ensures Run(w, [e, f]) == Step(Step(w, e), f)
  {
    assert [e, f][..1] == [e];
    RunOne(w, e);
  }

  lemma RunMore(w: World, a: seq<Event>, b: seq<Event>)
    ensures Run(w, a + b) == Run(Run(w, a), b)
  {
    if b == [] {
      assert a + b == a;
    } else {
      assert (a + b)[..|a + b| - 1] == a + b[..|b| - 1];
      RunMore(w, a, b[..|b| - 1]);
    }
  }

  class Service {
    const db: Services.Database
    const orderService: Services.OrderService
    const payments: Services.PaymentService
    const catalogue: Services.CatalogueService
    ghost var world: World

    ghost predicate Valid()
      reads this, db
    {
      && orderService.db == db && payments.db == db && payments.orderService == orderService && catalogue.db == db
      && world.db == db.Tables() && Inv(world)
    }

    /** Opens on tables with stock but no orders yet. */
    constructor (ghost opening: World, tables: Db)
      requires opening.db == tables && Opening(opening)
      ensures Valid() && world == opening && fresh(db)
    {
      var database := new Services.Database(tables);
      var orders := new Services.OrderService(database);
      payments := new Services.PaymentService(orders);
      catalogue := new Services.CatalogueService(database);
      db, orderService, world := database, orders, opening;
      OpeningInv(opening);
    }

    /** One request. Afterwards the tables are those of the ledger's run extended by its events, and the
        ledger's invariant - conservation, limits, usage rows - holds of them. */
    method Handle(q: Request)
      requires Valid()
      modifies this`world, db
      ensures Valid() && world == Run(old(world), Events(old(db.Tables()), q))
    {
      ghost var events := Events(db.Tables(), q);
      RunKeepsInv(world, events);
      if q.Refund? {
        HandleRefund(q.business, q.order, q.refund, world);
      } else {
        RunOne(world, events[0]);
        if q.Buy? || q.Cancel? || q.ChangeStatus? {
          HandleOrder(q, world.db);
        } else if q.Pay? || q.Succeeded? || q.Failed? {
          HandlePayment(q, world.db);
        } else {
          HandleCatalogue(q, world.db);
        }
      }
      world := Run(world, events);
    }

    method HandleOrder(q: Request, ghost tables: Db)
      requires orderService.db == db && (q.Buy? || q.Cancel? || q.ChangeStatus?) && tables == db.Tables()
      modifies db
      ensures db.Tables() == After(tables, Events(tables, q)[0])
    {
      match q
      case Buy(req, at) =>
        if exists i :: 0 <= i < |req.lines| && req.lines[i].product == at.firstRow {
          var r := orderService.Checkout(req, at);
        }
      case Cancel(customer, o) => var r := orderService.CancelOwnOrder(customer, o);
      case ChangeStatus(o, status, business) => var r := orderService.UpdateStatus(o, status, business);
      case _ =>
    }

    method HandlePayment(q: Request, ghost tables: Db)
      requires payments.db == db && (q.Pay? || q.Succeeded? || q.Failed?) && tables == db.Tables()
      modifies db
      ensures db.Tables() == After(tables, Events(tables, q)[0])
    {
      match q
      case Pay(customer, o, intent) => var r := payments.CreatePaymentIntent(customer, o, intent);
      case Succeeded(intent) => payments.HandlePaymentSucceeded(intent);
      case Failed(intent) => payments.HandlePaymentFailed(intent);
      case _ =>
    }

    method HandleRefund(business: Id, o: Id, refund: Id, ghost w: World)
      requires payments.db == db && payments.orderService.db == db && w.db == db.Tables()
      modifies db
      ensures db.Tables() == Run(w, Events(w.db, Refund(business, o, refund))).db
    {
      ghost var first, second := RefundPayment(business, o, refund), CancelForRefund(o);
      RunTwo(w, first, second);
      RunOne(w, first);
      var r := payments.Refund(business, o, refund);
    }

    method HandleCatalogue(q: Request, ghost tables: Db)
      requires catalogue.db == db && (q.EditStock? || q.AddSlot? || q.EditSlot? || q.AddCode?) && tables == db.Tables()
      modifies db
      ensures db.Tables() == After(tables, Events(tables, q)[0])
    {
      match q
      case EditStock(p, operation, quantity, business) =>
        var r := catalogue.UpdateStock(p, operation, quantity, business);
      case AddSlot(business, s, capacity) => var r := catalogue.CreateSlot(business, s, capacity);
      case EditSlot(business, s, capacity, active) => var r := catalogue.UpdateSlot(business, s, capacity, active);
      case AddCode(business, c, terms) => var r := catalogue.CreateCode(business, c, terms);
      case _ =>
    }

    /** Any number of requests: the tables at the end are conserved and within the limits. */
    method Serve(requests: seq<Request>) returns (ghost events: seq<Event>)
      requires Valid()
      modifies this`world, db
      ensures Valid() && world == Run(old(world), events)
      ensures Shaped(world) && Conserved(world) && StockAndSlotLimits(world) && CodeLimits(db.Tables())
    {
      events := [];
      for i := 0 to |requests|
        invariant Valid() && world == Run(old(world), events)
      {
        ghost var more := Events(db.Tables(), requests[i]);
        RunMore(old(world), events, more);
        Handle(requests[i]);
        events := events + more;
      }
    }
  }
}
