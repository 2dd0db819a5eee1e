/**
 * The two running aggregates an order touches, as the order handlers and the
 * order importer update them: product stock, changed one `product.update`
 * call per order line, and a customer's spending, visit and loyalty counters.
 */
module Ledger {
  import opened Wrappers
  import opened Entities

  /** `Math.floor` of an amount, in whole currency units: the loyalty points it earns. */
  function WholeUnits(amount: Cents): (r: int)
    ensures r * 100 <= amount < r * 100 + 100
  {
    amount / 100
  }

  /** An order's total: the sum of unit price times quantity over its lines. */
  function OrderTotal(lines: seq<OrderItem>): Cents {
    if lines == [] then 0
    else OrderTotal(lines[..|lines| - 1]) + lines[|lines| - 1].price * lines[|lines| - 1].quantity
  }

  /** How many units of product `id` the lines hold altogether. */
  function Quantity(lines: seq<OrderItem>, id: Id): int {
    if lines == [] then 0
    else Quantity(lines[..|lines| - 1], id)
         + (if lines[|lines| - 1].productId == id then lines[|lines| - 1].quantity else 0)
  }

  /** One `stock: {increment: delta}` update of one product. */
  datatype StockMove = StockMove(productId: Id, delta: int)

  /** The updates an order's creation makes: each line's quantity leaves the stock. */
  function Sold(lines: seq<OrderItem>): (r: seq<StockMove>)
    ensures |r| == |lines|
  {
    seq(|lines|, i requires 0 <= i < |lines| => StockMove(lines[i].productId, -lines[i].quantity))
  }

  /** The updates an order's deletion makes: each line's quantity goes back. */
  function Returned(lines: seq<OrderItem>): (r: seq<StockMove>)
    ensures |r| == |lines|
  {
    seq(|lines|, i requires 0 <= i < |lines| => StockMove(lines[i].productId, lines[i].quantity))
  }

  /** The sum of the changes the moves make to product `id`. */
  function NetDelta(moves: seq<StockMove>, id: Id): int {
    if moves == [] then 0
    else NetDelta(moves[..|moves| - 1], id)
         + (if moves[|moves| - 1].productId == id then moves[|moves| - 1].delta else 0)
  }

  /** Every move names a product of the table. */
  predicate AllPresent(products: map<Id, Product>, moves: seq<StockMove>) {
    forall i :: 0 <= i < |moves| ==> moves[i].productId in products
  }

  /**
   * The stock updates made one after another, as the handlers' loops of
   * `product.update` calls make them. An update of a product that is no
   * longer in the table throws, which ends the loop: the flag says whether
   * every update went through, and the table holds the updates made before.
   */
  function ApplyMoves(products: map<Id, Product>, moves: seq<StockMove>): (r: (map<Id, Product>, bool))
    ensures r.0.Keys == products.Keys
    ensures r.1 <==> AllPresent(products, moves)
  {
    if moves == [] then (products, true)
    else
      var before := ApplyMoves(products, moves[..|moves| - 1]);
      var m := moves[|moves| - 1];
      assert AllPresent(products, moves) <==> AllPresent(products, moves[..|moves| - 1]) && m.productId in products;
      if !before.1 || m.productId !in before.0 then (before.0, false)
      else (before.0[m.productId := before.0[m.productId].(stock := before.0[m.productId].stock + m.delta)], true)
  }

  /** When every update goes through, each product's stock has moved by the sum of its changes. */
  lemma {:induction false} ApplyMovesEffect(products: map<Id, Product>, moves: seq<StockMove>, id: Id)
    requires AllPresent(products, moves) && id in products
    ensures ApplyMoves(products, moves).0[id]
            == products[id].(stock := products[id].stock + NetDelta(moves, id))
  {
    if moves != [] {
      var n := |moves| - 1;
      assert AllPresent(products, moves[..n]);
      ApplyMovesEffect(products, moves[..n], id);
    }
  }

  /** One more update: what the first `i + 1` moves do, given what the first `i` did. */
  lemma ApplyMovesStep(products: map<Id, Product>, moves: seq<StockMove>, i: nat)
    requires i < |moves|
    ensures var before := ApplyMoves(products, moves[..i]);
      var m := moves[i];
      ApplyMoves(products, moves[..i + 1])
        == if !before.1 || m.productId !in before.0 then (before.0, false)
           else (before.0[m.productId := before.0[m.productId].(stock := before.0[m.productId].stock + m.delta)], true)
  {
    assert moves[..i + 1][..i] == moves[..i];
  }

  /** Once an update has failed, the later ones are not made. */
  lemma {:induction false} ApplyMovesStops(products: map<Id, Product>, moves: seq<StockMove>, k: nat)
    requires k <= |moves|
    requires !ApplyMoves(products, moves[..k]).1
    ensures ApplyMoves(products, moves) == ApplyMoves(products, moves[..k])
  {
    if k < |moves| {
      var shorter := moves[..|moves| - 1];
      assert shorter[..k] == moves[..k];
      ApplyMovesStops(products, shorter, k);
    } else {
      assert moves[..k] == moves;
    }
  }

  /** The updates of a creation take from each product exactly the quantity its lines hold. */
  lemma {:induction false} SoldQuantity(lines: seq<OrderItem>, id: Id)
    ensures NetDelta(Sold(lines), id) == -Quantity(lines, id)
  {
    if lines != [] {
      var n := |lines| - 1;
      assert Sold(lines)[..n] == Sold(lines[..n]);
      SoldQuantity(lines[..n], id);
    }
  }

  /** The updates of a deletion give back to each product exactly the quantity its lines hold. */
  lemma {:induction false} ReturnedQuantity(lines: seq<OrderItem>, id: Id)
    ensures NetDelta(Returned(lines), id) == Quantity(lines, id)
  {
    if lines != [] {
      var n := |lines| - 1;
      assert Returned(lines)[..n] == Returned(lines[..n]);
      ReturnedQuantity(lines[..n], id);
    }
  }

  /** Stock conservation: giving back an order's lines after selling them
      leaves every product of the table as it was. */
  lemma RestockUndoesSale(products: map<Id, Product>, lines: seq<OrderItem>)
    requires forall i :: 0 <= i < |lines| ==> lines[i].productId in products
    ensures ApplyMoves(ApplyMoves(products, Sold(lines)).0, Returned(lines)) == (products, true)
  {
    var sold := ApplyMoves(products, Sold(lines));
    assert AllPresent(products, Sold(lines));
    assert sold.1 && sold.0.Keys == products.Keys;
    assert AllPresent(sold.0, Returned(lines));
    var back := ApplyMoves(sold.0, Returned(lines));
    assert back.1 && back.0.Keys == products.Keys;
    forall id | id in products
      ensures back.0[id] == products[id]
    {
      SoldQuantity(lines, id);
      ReturnedQuantity(lines, id);
      ApplyMovesEffect(products, Sold(lines), id);
      ApplyMovesEffect(sold.0, Returned(lines), id);
      assert sold.0[id].stock == products[id].stock - Quantity(lines, id);
      assert back.0[id].stock == sold.0[id].stock + Quantity(lines, id);
    }
    assert back.0 == products;
  }

  /** What an order's creation adds to its customer: spent, a visit, points, the visit time. */
  function RecordOrder(c: Customer, total: Cents, at: Instant): Customer {
    c.(totalSpent := c.totalSpent + total,
       visitCount := c.visitCount + 1,
       loyaltyPoints := c.loyaltyPoints + WholeUnits(total),
       lastVisit := Some(at))
  }

  /** What an order's deletion takes back from its customer; `lastVisit` is left as it is. */
  function RevertOrder(c: Customer, total: Cents): Customer {
    c.(totalSpent := c.totalSpent - total,
       visitCount := c.visitCount - 1,
       loyaltyPoints := c.loyaltyPoints - WholeUnits(total))
  }

  /** Reverting an order restores every aggregate but the last visit. */
  lemma RevertUndoesRecord(c: Customer, total: Cents, at: Instant)
    ensures RevertOrder(RecordOrder(c, total, at), total) == c.(lastVisit := Some(at))
  {
  }

  /** A customer after a run of orders with the given totals. */
  function RecordAll(c: Customer, totals: seq<Cents>, at: Instant): Customer {
    if totals == [] then c
    else RecordOrder(RecordAll(c, totals[..|totals| - 1], at), totals[|totals| - 1], at)
  }

  function Sum(totals: seq<Cents>): Cents {
    if totals == [] then 0 else Sum(totals[..|totals| - 1]) + totals[|totals| - 1]
  }

  function SumUnits(totals: seq<Cents>): int {
    if totals == [] then 0 else SumUnits(totals[..|totals| - 1]) + WholeUnits(totals[|totals| - 1])
  }

  /** The aggregates after a run of orders are the sums over the run. */
  lemma {:induction false} RecordAllSums(c: Customer, totals: seq<Cents>, at: Instant)
    ensures RecordAll(c, totals, at).totalSpent == c.totalSpent + Sum(totals)
    ensures RecordAll(c, totals, at).visitCount == c.visitCount + |totals|
    ensures RecordAll(c, totals, at).loyaltyPoints == c.loyaltyPoints + SumUnits(totals)
  {
    if totals != [] {
      RecordAllSums(c, totals[..|totals| - 1], at);
    }
  }

  lemma {:induction false} SumsSplit(a: seq<Cents>, b: seq<Cents>)
    ensures Sum(a + b) == Sum(a) + Sum(b)
    ensures SumUnits(a + b) == SumUnits(a) + SumUnits(b)
  {
    if b != [] {
      assert (a + b)[..|a + b| - 1] == a + b[..|b| - 1];
      SumsSplit(a, b[..|b| - 1]);
    } else {
      assert a + b == a;
    }
  }

  /** Aggregate consistency: after orders with totals t1..tN, deleting order k
      leaves the aggregates of the other N - 1 orders. */
  lemma RevertOneOfMany(c: Customer, totals: seq<Cents>, k: nat, at: Instant)
    requires k < |totals|
    ensures var rest := totals[..k] + totals[k + 1..];
      var after := RevertOrder(RecordAll(c, totals, at), totals[k]);
      && after.totalSpent == RecordAll(c, rest, at).totalSpent
      && after.visitCount == RecordAll(c, rest, at).visitCount
      && after.loyaltyPoints == RecordAll(c, rest, at).loyaltyPoints
  {
    var rest := totals[..k] + totals[k + 1..];
    RecordAllSums(c, totals, at);
    RecordAllSums(c, rest, at);
    assert totals == totals[..k] + [totals[k]] + totals[k + 1..];
    SumsSplit(totals[..k] + [totals[k]], totals[k + 1..]);
    SumsSplit(totals[..k], [totals[k]]);
    SumsSplit(totals[..k], totals[k + 1..]);
    assert Sum([totals[k]]) == totals[k] by {
      assert [totals[k]][..0] == [];
    }
    assert SumUnits([totals[k]]) == WholeUnits(totals[k]) by {
      assert [totals[k]][..0] == [];
    }
  }
}
