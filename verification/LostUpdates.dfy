/** Seller edits that overlap checkouts and releases (src/product/product.service.ts:219-250,
    src/delivery/delivery.service.ts:50-64). An edit reads the whole row without a lock and later saves it,
    the count it read included: a product's stock, changed as asked, or a slot's booked count, as it was.
    Checkouts and releases move the count in between, each under the row's lock. */
module LostUpdates {
  import opened Wrappers
  import opened Entities
  import Checkout
  import Orders

  datatype Change = Stock(operation: Orders.StockOperation, quantity: nat) | KeepCount

  datatype Call =
    | Edit(change: Change)                // the read comes next
    | EditRead(change: Change, seen: int) // the save comes next
    | EditSaved

  /** History: moved is the sum of what checkouts and releases did, asked what the edits meant to do to the
      count they read, lost what the count had moved between their reads and their saves. */
  datatype System = System(count: int, calls: seq<Call>, moved: int, asked: int, lost: int)

  datatype Action = Next(i: nat) | MoveCount(delta: int)

  function Changed(seen: int, change: Change): int {
    match change
    case Stock(operation, quantity) => Orders.StockAfter(seen, operation, quantity)
    case KeepCount => seen
  }

  /** A step that is not possible now leaves the system as it is. */
  function Step(sys: System, a: Action): System {
    match a
    case MoveCount(delta) => sys.(count := sys.count + delta, moved := sys.moved + delta)
    case Next(i) =>
      if i >= |sys.calls| then sys
      else
        match sys.calls[i]
        case Edit(change) => sys.(calls := sys.calls[i := EditRead(change, sys.count)])
        case EditRead(change, seen) =>
          var saved := Changed(seen, change);
          System(saved, sys.calls[i := EditSaved], sys.moved, sys.asked + saved - seen, sys.lost + sys.count - seen)
        case EditSaved => sys
  }

  function Run(sys: System, actions: seq<Action>): System {
    if actions == [] then sys else Step(Run(sys, actions[..|actions| - 1]), actions[|actions| - 1])
  }

  predicate Start(sys: System) {
    && sys.moved == 0 && sys.asked == 0 && sys.lost == 0
    && forall i :: 0 <= i < |sys.calls| ==> sys.calls[i].Edit?
  }

  /** On every run the count is the opening count plus what checkouts, releases and edits meant to do to it,
      less what the edits overwrote. So it is conserved exactly when nothing was overwritten in all. */
  lemma {:induction false} CountIsConservedLessTheLost(sys: System, actions: seq<Action>)
    requires Start(sys)
    ensures var end := Run(sys, actions);
            && end.count == sys.count + end.moved + end.asked - end.lost
            && (end.count == sys.count + end.moved + end.asked <==> end.lost == 0)
  {
    if actions != [] {
      CountIsConservedLessTheLost(sys, actions[..|actions| - 1]);
    }
  }

  /** A save overwrites something exactly when the count is no longer what it read. */
  predicate Overwrites(sys: System, a: Action) {
    a.Next? && a.i < |sys.calls| && sys.calls[a.i].EditRead? && sys.calls[a.i].seen != sys.count
  }

  predicate OverwritesAt(sys: System, actions: seq<Action>, k: nat)
    requires k < |actions|
  {
    Overwrites(Run(sys, actions[..k]), actions[k])
  }

  predicate ConservedAt(start: System, sys: System) {
    sys.count == start.count + sys.moved + sys.asked
  }

  predicate ConservedAfter(sys: System, actions: seq<Action>, k: nat)
    requires k <= |actions|
  {
    ConservedAt(sys, Run(sys, actions[..k]))
  }

  lemma ConservedNext(sys: System, actions: seq<Action>, k: nat)
    requires k < |actions| && ConservedAfter(sys, actions, k)
    ensures ConservedAfter(sys, actions, k + 1) <==> !OverwritesAt(sys, actions, k)
  {
    assert actions[..k + 1][..k] == actions[..k];
  }

  lemma {:induction false} ConservedUpTo(sys: System, actions: seq<Action>, k: nat)
    requires Start(sys) && k <= |actions| && forall j :: 0 <= j < k ==> !OverwritesAt(sys, actions, j)
    ensures ConservedAfter(sys, actions, k)
  {
    if k > 0 {
      ConservedUpTo(sys, actions, k - 1);
      ConservedNext(sys, actions, k - 1);
    }
  }

  /** Over runs: the count is conserved at every moment exactly when no edit saves over a count that has
      moved since it read. */
  lemma ConservedExactlyWithoutOverwrites(sys: System, actions: seq<Action>)
    requires Start(sys)
    ensures (forall k :: 0 <= k <= |actions| ==> ConservedAfter(sys, actions, k))
            <==> forall k :: 0 <= k < |actions| ==> !OverwritesAt(sys, actions, k)
  {
    if forall k :: 0 <= k <= |actions| ==> ConservedAfter(sys, actions, k) {
      forall k | 0 <= k < |actions| ensures !OverwritesAt(sys, actions, k) {
        assert ConservedAfter(sys, actions, k) && ConservedAfter(sys, actions, k + 1);
        ConservedNext(sys, actions, k);
      }
    }
    if forall k :: 0 <= k < |actions| ==> !OverwritesAt(sys, actions, k) {
      forall k | 0 <= k <= |actions| ensures ConservedAfter(sys, actions, k) {
        ConservedUpTo(sys, actions, k);
      }
    }
  }

  /** An edit that runs alone is the ledger's, on the edited row. */
  lemma LoneStockEditIsTheTransaction(db: Db, p: Id, operation: Orders.StockOperation, quantity: nat, business: Id)
    requires Orders.UpdateStockTx(db, p, operation, quantity, business).Success?
    ensures var sys := System(db.products[p].stock, [Edit(Stock(operation, quantity))], 0, 0, 0);
            var end := Step(Step(sys, Next(0)), Next(0));
            && end.count == Orders.UpdateStockTx(db, p, operation, quantity, business).value.products[p].stock
            && end.lost == 0
  {
    var sys := System(db.products[p].stock, [Edit(Stock(operation, quantity))], 0, 0, 0);
    assert Step(sys, Next(0)).calls == [EditRead(Stock(operation, quantity), sys.count)];
  }

  /** Units sold between an increment's read and its save are back in stock. */
  lemma StaleIncrementForgetsSales(stock: nat, sold: int, quantity: nat)
    requires 0 <= sold <= stock
    ensures var sys := System(stock, [Edit(Stock(Orders.Increment, quantity))], 0, 0, 0);
            var end := Step(Step(Step(sys, Next(0)), MoveCount(-sold)), Next(0));
            end.count == stock + quantity && end.moved == -sold && end.lost == -sold
  {
    var sys := System(stock, [Edit(Stock(Orders.Increment, quantity))], 0, 0, 0);
    assert Step(sys, Next(0)).calls == [EditRead(Stock(Orders.Increment, quantity), stock)];
  }

  /** The last place of a slot is booked twice when an edit read the slot before the first booking and saves
      after it: the second checkout's own test passes, though the slot was full. */
  lemma StaleSlotEditOverbooks(slot: Slot)
    requires slot.isActive && slot.booked == slot.capacity - 1
    ensures var first := Checkout.Book(Some(slot));
            && first.Success? && Checkout.Book(Some(first.value)) == Failure(Checkout.SlotFull)
            && var start := System(slot.booked, [Edit(KeepCount)], 0, 0, 0);
            && var end := Step(Step(Step(start, Next(0)), MoveCount(1)), Next(0));
            && end.moved == 1 && end.lost == 1
            && Checkout.Book(Some(first.value.(booked := end.count))).Success?
  {
    var sys := System(slot.booked, [Edit(KeepCount)], 0, 0, 0);
    assert Step(sys, Next(0)).calls == [EditRead(KeepCount, slot.booked)];
  }
}
