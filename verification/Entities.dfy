/** The rows the order ledger reads and writes. A uuid is a number, money is integer pennies, and a
    nullable column is an Option. Order ids are positions in the append-only order table, which is
    how the freshness of generated ids is modelled. */
module Entities {
  import opened Wrappers

  type Id = nat

  datatype Business = Business(suspended: bool, accepting: bool)

  datatype Product = Product(
    business: Option<Id>, price: nat, stock: int, trackStock: bool, isActive: bool,
    maxOrderQuantity: Option<int>)

  datatype Slot = Slot(business: Id, capacity: int, booked: int, isActive: bool)

  datatype DiscountKind = Percentage | FixedAmount

  /** `value` is hundredths of a percent for a Percentage code and pennies for a FixedAmount one:
      both are the decimal(10,2) column times 100. */
  datatype Code = Code(
    business: Id, kind: DiscountKind, value: nat, minimumOrder: Option<nat>, maxUses: Option<nat>,
    usedCount: int, maxUsesPerCustomer: Option<nat>, validFrom: int, validUntil: Option<int>,
    isActive: bool)

  datatype Usage = Usage(code: Id, user: Id, order: Id)

  datatype Line = Line(product: Id, quantity: nat)

  datatype Item = Item(line: Line, unitPrice: nat, lineTotal: nat)

  datatype OrderStatus = PENDING | PAID | SHIPPED | DELIVERED | CANCELLED

  datatype Order = Order(
    customer: Id, business: Id, items: seq<Item>, total: int, status: OrderStatus,
    slot: Option<Id>, deliveryFee: nat, code: Option<Id>, discount: nat)

  datatype PaymentStatus = Pending | Succeeded | Failed | Refunded

  datatype Payment = Payment(order: Id, intent: Id, amount: int, status: PaymentStatus, refund: Option<Id>)

  /** All the tables. */
  datatype Db = Db(
    customers: set<Id>, businesses: map<Id, Business>, products: map<Id, Product>,
    slots: map<Id, Slot>, codes: map<Id, Code>, usages: set<Usage>,
    orders: seq<Order>, payments: seq<Payment>)

  /** JavaScript truthiness of a nullable integer column: null and 0 both mean "no limit". */
  predicate Limited(limit: Option<int>) {
    limit.Some? && limit.value != 0
  }

  function Lines(items: seq<Item>): (lines: seq<Line>)
    ensures |lines| == |items|
    ensures forall i :: 0 <= i < |items| ==> lines[i] == items[i].line
  {
    seq(|items|, i requires 0 <= i < |items| => items[i].line)
  }
}
