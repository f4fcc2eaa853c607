/** The checkout loop over the cart (src/order/order.service.ts:100-138): a line-by-line loop that
    decrements shared product rows, and the aggregate check it amounts to. */
module Cart {
  import opened Wrappers
  import opened Entities

  datatype LineError =
    | Unavailable(product: Id)
    | OverMaximum(product: Id)
    | InsufficientStock(product: Id)

  /** The product rows after the loop and the order items it built. */
  datatype Reservation = Reservation(rows: map<Id, Product>, items: seq<Item>)

  predicate Listed(rows: map<Id, Product>, lines: seq<Line>) {
    forall i :: 0 <= i < |lines| ==> lines[i].product in rows
  }

  // ---------- The loop, one line at a time ----------

  function CheckLine(row: Product, line: Line): Option<LineError> {
    if !row.isActive then Some(Unavailable(line.product))
    else if Limited(row.maxOrderQuantity) && line.quantity > row.maxOrderQuantity.value then
      Some(OverMaximum(line.product))
    else if row.trackStock && row.stock < line.quantity then Some(InsufficientStock(line.product))
    else None
  }

  function Price(row: Product, line: Line): Item {
    Item(line, row.price, row.price * line.quantity)
  }

  function Take(row: Product, quantity: int): Product {
    if row.trackStock then row.(stock := row.stock - quantity) else row
  }

  function Reserve(rows: map<Id, Product>, lines: seq<Line>): (r: Result<Reservation, LineError>)
    requires Listed(rows, lines)
    ensures r.Success? ==> r.value.rows.Keys == rows.Keys
  {
    if lines == [] then Success(Reservation(rows, []))
    else
      var line := lines[|lines| - 1];
      var before :- Reserve(rows, lines[..|lines| - 1]);
      var row := before.rows[line.product];
      match CheckLine(row, line)
      case Some(e) => Failure(e)
      case None =>
        Success(Reservation(before.rows[line.product := Take(row, line.quantity)],
                            before.items + [Price(row, line)]))
  }

  // ---------- The aggregate reading ----------

  /** How many units of `p` the lines ask for in all. */
  function Quantity(lines: seq<Line>, p: Id): nat {
    if lines == [] then 0
    else
      var last := lines[|lines| - 1];
      Quantity(lines[..|lines| - 1], p) + if last.product == p then last.quantity else 0
  }

  /** Every line is active and within its own maximum, and each tracked product has stock for all
      its lines together. */
  predicate Fits(rows: map<Id, Product>, lines: seq<Line>)
    requires Listed(rows, lines)
  {
    forall i :: 0 <= i < |lines| ==>
      var row := rows[lines[i].product];
      && row.isActive
      && (Limited(row.maxOrderQuantity) ==> lines[i].quantity <= row.maxOrderQuantity.value)
      && (row.trackStock ==> Quantity(lines, lines[i].product) <= row.stock)
  }

  function Taken(rows: map<Id, Product>, lines: seq<Line>): map<Id, Product> {
    map p | p in rows :: Take(rows[p], Quantity(lines, p))
  }

  function Priced(rows: map<Id, Product>, lines: seq<Line>): seq<Item>
    requires Listed(rows, lines)
  {
    seq(|lines|, i requires 0 <= i < |lines| => Price(rows[lines[i].product], lines[i]))
  }

  // ---------- The loop refines the aggregate check ----------

  lemma {:induction false} QuantityPrefix(lines: seq<Line>, k: nat, p: Id)
    requires k <= |lines|
    ensures Quantity(lines[..k], p) <= Quantity(lines, p)
    decreases |lines|
  {
    if k < |lines| {
      QuantityPrefix(lines[..|lines| - 1], k, p);
      assert lines[..|lines| - 1][..k] == lines[..k];
    } else if lines != [] {
      QuantityPrefix(lines[..|lines| - 1], |lines| - 1, p);
      assert lines[..|lines| - 1][..|lines| - 1] == lines[..|lines| - 1];
      assert lines[..k] == lines;
    }
  }

  lemma {:induction false} QuantityOfUnlisted(lines: seq<Line>, p: Id)
    requires forall i :: 0 <= i < |lines| ==> lines[i].product != p
    ensures Quantity(lines, p) == 0
  {
    if lines != [] {
      QuantityOfUnlisted(lines[..|lines| - 1], p);
    }
  }

  lemma FitsExtends(rows: map<Id, Product>, lines: seq<Line>)
    requires Listed(rows, lines) && lines != []
    ensures Fits(rows, lines) <==>
            var init, last := lines[..|lines| - 1], lines[|lines| - 1];
            Fits(rows, init) && CheckLine(Taken(rows, init)[last.product], last).None?
  {
    var init, last := lines[..|lines| - 1], lines[|lines| - 1];
    if Fits(rows, lines) {
      forall i | 0 <= i < |init|
        ensures rows[init[i].product].trackStock ==>
                  Quantity(init, init[i].product) <= rows[init[i].product].stock
      {
        assert init[i] == lines[i];
        QuantityPrefix(lines, |lines| - 1, init[i].product);
      }
      assert lines[|lines| - 1] == last;
    }
    if Fits(rows, init) && CheckLine(Taken(rows, init)[last.product], last).None? {
      forall i | 0 <= i < |lines|
        ensures var row := rows[lines[i].product];
                && row.isActive
                && (Limited(row.maxOrderQuantity) ==> lines[i].quantity <= row.maxOrderQuantity.value)
                && (row.trackStock ==> Quantity(lines, lines[i].product) <= row.stock)
      {
        if i < |init| {
          assert init[i] == lines[i];
        }
      }
    }
  }

  /** For any cart, with products repeated in any way, the loop accepts exactly the carts that fit
      in aggregate, and leaves each tracked product its stock less everything the cart asked of it. */
  lemma {:induction false} LoopRefinesAggregate(rows: map<Id, Product>, lines: seq<Line>)
    requires Listed(rows, lines)
    ensures Reserve(rows, lines).Success? <==> Fits(rows, lines)
    ensures Fits(rows, lines) ==>
              Reserve(rows, lines) == Success(Reservation(Taken(rows, lines), Priced(rows, lines)))
  {
    if lines == [] {
      assert Taken(rows, lines) == rows;
    } else {
      var init, last := lines[..|lines| - 1], lines[|lines| - 1];
      LoopRefinesAggregate(rows, init);
      FitsExtends(rows, lines);
      if Fits(rows, lines) {
        var before := Taken(rows, init);
        assert Taken(rows, lines) == before[last.product := Take(before[last.product], last.quantity)];
        assert Priced(rows, lines) == Priced(rows, init) + [Price(before[last.product], last)];
      }
    }
  }

  /** A rejected cart is rejected at its first line that no longer fits, with that line's error. */
  lemma {:induction false} RejectsAtFirstMisfit(rows: map<Id, Product>, lines: seq<Line>) returns (k: nat)
    requires Listed(rows, lines) && !Fits(rows, lines)
    ensures k < |lines| && Fits(rows, lines[..k]) && !Fits(rows, lines[..k + 1])
    ensures var error := CheckLine(Taken(rows, lines[..k])[lines[k].product], lines[k]);
            error.Some? && Reserve(rows, lines) == Failure(error.value)
  {
    var init := lines[..|lines| - 1];
    if Fits(rows, init) {
      k := |init|;
      FitsExtends(rows, lines);
      LoopRefinesAggregate(rows, init);
      assert lines[..k + 1] == lines;
    } else {
      k := RejectsAtFirstMisfit(rows, init);
      assert init[..k] == lines[..k] && init[..k + 1] == lines[..k + 1];
    }
  }

  lemma {:induction false} QuantityConcat(a: seq<Line>, b: seq<Line>, p: Id)
    ensures Quantity(a + b, p) == Quantity(a, p) + Quantity(b, p)
  {
    if b == [] {
      assert a + b == a;
    } else {
      var init := b[..|b| - 1];
      assert (a + b)[..|a + b| - 1] == a + init;
      QuantityConcat(a, init, p);
    }
  }

  lemma QuantityWithout(lines: seq<Line>, i: nat, p: Id)
    requires i < |lines|
    ensures Quantity(lines, p) ==
            Quantity(lines[..i] + lines[i + 1..], p) + if lines[i].product == p then lines[i].quantity else 0
  {
    assert lines == lines[..i] + [lines[i]] + lines[i + 1..];
    QuantityConcat(lines[..i] + [lines[i]], lines[i + 1..], p);
    QuantityConcat(lines[..i], [lines[i]], p);
    QuantityConcat(lines[..i], lines[i + 1..], p);
    assert [lines[i]][..0] == [];
  }

  lemma RestIsPermutation(lines: seq<Line>, other: seq<Line>, i: nat)
    requires multiset(lines) == multiset(other) && lines != [] && i < |other| && other[i] == lines[|lines| - 1]
    ensures multiset(lines[..|lines| - 1]) == multiset(other[..i] + other[i + 1..])
  {
    var init, last := lines[..|lines| - 1], lines[|lines| - 1];
    var head, tail := other[..i], other[i + 1..];
    assert lines == init + [last];
    assert other == head + ([last] + tail);
    assert multiset(other) == multiset(head) + (multiset{last} + multiset(tail));
    CancelOne(multiset(init), multiset(head), multiset(tail), last);
  }

  lemma CancelOne(a: multiset<Line>, b: multiset<Line>, c: multiset<Line>, x: Line)
    requires a + multiset{x} == b + (multiset{x} + c)
    ensures a == b + c
  {
    assert a == (a + multiset{x}) - multiset{x};
    assert b + c == (b + (multiset{x} + c)) - multiset{x};
  }

  lemma {:induction false} QuantityOfPermutation(lines: seq<Line>, other: seq<Line>, p: Id)
    requires multiset(lines) == multiset(other)
    ensures Quantity(lines, p) == Quantity(other, p)
    decreases |lines|
  {
    if lines == [] {
      assert |multiset(other)| == 0;
    } else {
      assert lines[|lines| - 1] in multiset(other);
      var i :| 0 <= i < |other| && other[i] == lines[|lines| - 1];
      RestIsPermutation(lines, other, i);
      QuantityOfPermutation(lines[..|lines| - 1], other[..i] + other[i + 1..], p);
      QuantityWithout(other, i, p);
    }
  }

  lemma PermutationListed(rows: map<Id, Product>, lines: seq<Line>, other: seq<Line>)
    requires Listed(rows, lines) && multiset(lines) == multiset(other)
    ensures Listed(rows, other)
  {
    forall i | 0 <= i < |other| ensures other[i].product in rows {
      assert other[i] in multiset(other);
      assert other[i] in lines;
    }
  }

  lemma PermutationFits(rows: map<Id, Product>, lines: seq<Line>, other: seq<Line>)
    requires Listed(rows, lines) && Listed(rows, other) && multiset(lines) == multiset(other)
    requires Fits(rows, lines)
    ensures Fits(rows, other)
  {
    forall i | 0 <= i < |other|
      ensures var row := rows[other[i].product];
              && row.isActive
              && (Limited(row.maxOrderQuantity) ==> other[i].quantity <= row.maxOrderQuantity.value)
              && (row.trackStock ==> Quantity(other, other[i].product) <= row.stock)
    {
      assert other[i] in multiset(other);
      var j :| 0 <= j < |lines| && lines[j] == other[i];
      QuantityOfPermutation(lines, other, other[i].product);
    }
  }

  /** Listing the same lines in another order changes neither acceptance nor the stock left. */
  lemma {:induction false} LineOrderIsIrrelevant(rows: map<Id, Product>, lines: seq<Line>, other: seq<Line>)
    requires Listed(rows, lines) && multiset(lines) == multiset(other)
    ensures Listed(rows, other)
    ensures Reserve(rows, lines).Success? <==> Reserve(rows, other).Success?
    ensures Reserve(rows, lines).Success? ==>
              Reserve(rows, lines).value.rows == Reserve(rows, other).value.rows
  {
    PermutationListed(rows, lines, other);
    LoopRefinesAggregate(rows, lines);
    LoopRefinesAggregate(rows, other);
    if Fits(rows, lines) {
      PermutationFits(rows, lines, other);
    }
    if Fits(rows, other) {
      PermutationFits(rows, other, lines);
    }
    forall p: Id ensures Quantity(lines, p) == Quantity(other, p) {
      QuantityOfPermutation(lines, other, p);
    }
    assert Taken(rows, lines) == Taken(rows, other);
  }

  lemma ReserveOneMore(rows: map<Id, Product>, lines: seq<Line>, i: nat)
    requires Listed(rows, lines) && i < |lines| && Reserve(rows, lines[..i]).Success?
    ensures var before := Reserve(rows, lines[..i]).value;
            lines[i].product in before.rows &&
            Reserve(rows, lines[..i + 1]) ==
              match CheckLine(before.rows[lines[i].product], lines[i])
              case Some(e) => Failure(e)
              case None =>
                var row := before.rows[lines[i].product];
                Success(Reservation(before.rows[lines[i].product := Take(row, lines[i].quantity)],
                                    before.items + [Price(row, lines[i])]))
  {
    assert lines[..i + 1][..i] == lines[..i];
  }

  /** The loop of checkout: validates each line against the rows as the earlier lines left them,
      decrements tracked stock and collects the order items. */
  method ReserveItems(products: map<Id, Product>, lines: seq<Line>) returns (r: Result<Reservation, LineError>)
    requires Listed(products, lines)
    ensures r == Reserve(products, lines)
    ensures r.Success? <==> Fits(products, lines)
    ensures r.Success? ==> r.value == Reservation(Taken(products, lines), Priced(products, lines))
    ensures r.Success? ==> r.value.rows.Keys == products.Keys && |r.value.items| == |lines|
    ensures r.Success? ==> forall p :: p in products ==>
              r.value.rows[p] == products[p].(
                stock := products[p].stock - if products[p].trackStock then Quantity(lines, p) else 0)
    ensures r.Success? ==> forall i :: 0 <= i < |lines| ==>
              var item, price := r.value.items[i], products[lines[i].product].price;
              item.line == lines[i] && item.unitPrice == price && item.lineTotal == price * lines[i].quantity
  {
    LoopRefinesAggregate(products, lines);
    var rows: map<Id, Product> := products;
    var items: seq<Item> := [];
    for i := 0 to |lines|
      invariant Reserve(products, lines[..i]) == Success(Reservation(rows, items))
    {
      ReserveOneMore(products, lines, i);
      var line := lines[i];
      var product := rows[line.product];
      if !product.isActive {
        FailureStays(products, lines, i + 1);
        return Failure(Unavailable(line.product));
      }
      if Limited(product.maxOrderQuantity) && line.quantity > product.maxOrderQuantity.value {
        FailureStays(products, lines, i + 1);
        return Failure(OverMaximum(line.product));
      }
      if product.trackStock {
        if product.stock < line.quantity {
          FailureStays(products, lines, i + 1);
          return Failure(InsufficientStock(line.product));
        }
        rows := rows[line.product := product.(stock := product.stock - line.quantity)];
      } else {
        assert rows == rows[line.product := product];
      }
      items := items + [Item(line, product.price, product.price * line.quantity)];
    }
    assert lines[..|lines|] == lines;
    r := Success(Reservation(rows, items));
  }

  lemma {:induction false} FailureStays(rows: map<Id, Product>, lines: seq<Line>, k: nat)
    requires Listed(rows, lines) && k <= |lines| && Reserve(rows, lines[..k]).Failure?
    ensures Reserve(rows, lines) == Reserve(rows, lines[..k])
    decreases |lines|
  {
    if k == |lines| {
      assert lines[..k] == lines;
    } else {
      assert lines[..|lines| - 1][..k] == lines[..k];
      FailureStays(rows, lines[..|lines| - 1], k);
    }
  }
}
