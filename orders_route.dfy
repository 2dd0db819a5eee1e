/**
 * The orders endpoint: list, create, change status, delete. Creating an order
 * checks the customer and every line first, then stores the order, takes the
 * ordered quantities out of stock and adds the order to the customer's
 * aggregates; deleting one gives the stock back and takes the order out of
 * the aggregates again, except for the customer's last visit.
 *
 * Each handler is a pure function from the store's contents to the reply and
 * the new contents, and a method on the store that does the same in place,
 * one store call after another.
 */
module OrdersRoute {
  import opened Wrappers
  import opened Entities
  import opened Ledger
  import opened Database
  import Text

  /** One requested line: `{productId, quantity}`. */
  datatype ItemRequest = ItemRequest(productId: Id, quantity: int)

  /** The body of a create request; a missing `items` is the empty list. */
  datatype OrderRequest = OrderRequest(
    customerId: Option<Id>,
    items: seq<ItemRequest>,
    status: Option<string>,
    paymentMethod: Option<string>)

  /** The outcome of the item loop: the lines to store and their total, or the reply that ends the request. */
  datatype Pricing = Priced(total: Cents, lines: seq<OrderItem>) | Rejected(response: Response)

  /** A line the item loop lets through: the product belongs to the tenant and its stock covers the quantity. */
  predicate Available(products: map<Id, Product>, tenant: TenantId, item: ItemRequest) {
    && item.productId in products
    && products[item.productId].owner == tenant
    && products[item.productId].stock >= item.quantity
  }

  /** The line stored for a request line: the quantity, and the product's price at this moment. */
  function LineFor(products: map<Id, Product>, item: ItemRequest): OrderItem
    requires item.productId in products
  {
    OrderItem(item.productId, item.quantity, products[item.productId].price)
  }

  /**
   * The item loop: looks up each line's product within the tenant and checks
   * its stock, in request order, stopping at the first line that fails. Every
   * line is checked against the stock as it was before the request, so two
   * lines of the same product are checked separately.
   */
  function PriceItems(products: map<Id, Product>, tenant: TenantId, items: seq<ItemRequest>): (r: Pricing)
    ensures r.Rejected? ==> r.response.Error? && r.response.status in {400, 404}
  {
    if items == [] then Priced(0, [])
    else
      var n := |items| - 1;
      var item := items[n];
      match PriceItems(products, tenant, items[..n])
      case Rejected(response) => Rejected(response)
      case Priced(total, lines) =>
        if item.productId !in products || products[item.productId].owner != tenant then
          Rejected(Error(404, "Product " + Text.NatToString(item.productId) + " not found"))
        else if products[item.productId].stock < item.quantity then
          Rejected(Error(400, "Insufficient stock for " + products[item.productId].name))
        else
          var line := LineFor(products, item);
          Priced(total + line.price * line.quantity, lines + [line])
  }

  /** The item loop succeeds exactly when every line is available. */
  lemma {:induction false} PriceItemsAcceptsAll(products: map<Id, Product>, tenant: TenantId, items: seq<ItemRequest>)
    ensures PriceItems(products, tenant, items).Priced?
      <==> forall i :: 0 <= i < |items| ==> Available(products, tenant, items[i])
  {
    if items != [] {
      var n := |items| - 1;
      var front := items[..n];
      PriceItemsAcceptsAll(products, tenant, front);
      assert forall i :: 0 <= i < n ==> front[i] == items[i];
    }
  }

  /** When the item loop succeeds it gives one line per request line, each at
      its product's current price, and their total. */
  lemma {:induction false} PriceItemsLines(products: map<Id, Product>, tenant: TenantId, items: seq<ItemRequest>)
    requires PriceItems(products, tenant, items).Priced?
    ensures |PriceItems(products, tenant, items).lines| == |items|
    ensures PriceItems(products, tenant, items).total == OrderTotal(PriceItems(products, tenant, items).lines)
    ensures forall i :: 0 <= i < |items| ==>
      items[i].productId in products && PriceItems(products, tenant, items).lines[i] == LineFor(products, items[i])
  {
    if items != [] {
      var n := |items| - 1;
      var front := items[..n];
      var before := PriceItems(products, tenant, front);
      assert before.Priced?;
      PriceItemsLines(products, tenant, front);
      var lines := before.lines + [LineFor(products, items[n])];
      assert PriceItems(products, tenant, items).lines == lines;
      assert lines[..n] == before.lines;
      assert forall i :: 0 <= i < n ==> front[i] == items[i];
    }
  }

  /** The loop stops at the first line that fails: what happens after it does not matter. */
  lemma {:induction false} PriceItemsStops(products: map<Id, Product>, tenant: TenantId, items: seq<ItemRequest>, k: nat)
    requires k <= |items|
    requires PriceItems(products, tenant, items[..k]).Rejected?
    ensures PriceItems(products, tenant, items) == PriceItems(products, tenant, items[..k])
  {
    if k < |items| {
      var shorter := items[..|items| - 1];
      assert shorter[..k] == items[..k];
      PriceItemsStops(products, tenant, shorter, k);
    } else {
      assert items[..k] == items;
    }
  }

  predicate OwnsCustomer(t: Tables, tenant: TenantId, id: Id) {
    id in t.customers && t.customers[id].owner == Some(tenant)
  }

  predicate OwnsOrder(t: Tables, tenant: TenantId, id: Id) {
    id in t.orders && t.orders[id].owner == tenant
  }

  /** POST: what creating an order replies and leaves in the store. */
  function CreateOrder(t: Tables, session: Option<TenantId>, req: OrderRequest, now: int): (Response, Tables) {
    if session.None? then (Unauthorized, t)
    else if req.customerId.None? || req.items == [] then
      (Error(400, "Customer and items are required"), t)
    else if !OwnsCustomer(t, session.value, req.customerId.value) then
      (Error(404, "Customer not found"), t)
    else
      match PriceItems(t.products, session.value, req.items)
      case Rejected(response) => (response, t)
      case Priced(total, lines) =>
        var cid := req.customerId.value;
        var order := Order(session.value, cid, total,
                           OrDefault(req.status, "pending"), OrDefault(req.paymentMethod, "cash"),
                           Clock(now), lines);
        (Ok(201, t.nextId),
         Tables(t.customers[cid := RecordOrder(t.customers[cid], total, Clock(now))],
                ApplyMoves(t.products, Sold(lines)).0,
                t.orders[t.nextId := order],
                t.nextId + 1))
  }

  /** PUT: what changing an order's status replies and leaves in the store. An
      absent status is an update with nothing to write. */
  function UpdateStatus(t: Tables, session: Option<TenantId>, id: Option<Id>, status: Option<string>): (Response, Tables) {
    if session.None? then (Unauthorized, t)
    else if id.None? then (Error(400, "Order ID is required"), t)
    else if !OwnsOrder(t, session.value, id.value) then (Error(404, "Order not found or access denied"), t)
    else if status.None? then (Ok(200, id.value), t)
    else (Ok(200, id.value), t.(orders := t.orders[id.value := t.orders[id.value].(status := status.value)]))
  }

  /**
   * DELETE: what deleting an order replies and leaves in the store. If one of
   * the order's products has been deleted since, its update throws: the reply
   * is a server error and the stock given back before it stays given back.
   */
  function DeleteOrder(t: Tables, session: Option<TenantId>, id: Option<Id>): (Response, Tables) {
    if session.None? then (Unauthorized, t)
    else if id.None? then (Error(400, "Order ID is required"), t)
    else if !OwnsOrder(t, session.value, id.value) then (Error(404, "Order not found or access denied"), t)
    else
      var order := t.orders[id.value];
      var restocked := ApplyMoves(t.products, Returned(order.items));
      if !restocked.1 || order.customerId !in t.customers then
        (Error(500, "Failed to delete order"), t.(products := restocked.0))
      else
        (Ok(200, id.value),
         t.(products := restocked.0,
            customers := t.customers[order.customerId := RevertOrder(t.customers[order.customerId], order.total)],
            orders := t.orders - {id.value}))
  }

  /** GET: the tenant's orders, narrowed to one customer and to one status when those are given. */
  function ListOrders(t: Tables, session: Option<TenantId>, customerId: Option<Id>, status: Option<string>): (r: Option<set<Id>>)
    ensures r.None? <==> session.None?
    ensures r.Some? ==> forall id :: id in r.value ==> OwnsOrder(t, session.value, id)
  {
    if session.None? then None
    else Some(set id | id in t.orders
                       && t.orders[id].owner == session.value
                       && (customerId.None? || t.orders[id].customerId == customerId.value)
                       && (!Truthy(status) || t.orders[id].status == status.value))
  }

  /** Without filters the listing is every order of the tenant, and nothing else. */
  lemma ListOrdersAllOwned(t: Tables, tenant: TenantId, id: Id)
    ensures id in ListOrders(t, Some(tenant), None, None).value <==> OwnsOrder(t, tenant, id)
  {
  }

  /** A given customer keeps the orders of that customer, a non-empty status
      the orders with that status; the listing is exactly the tenant's orders
      that pass both. */
  lemma ListOrdersFilters(t: Tables, tenant: TenantId, customerId: Option<Id>, status: Option<string>, id: Id)
    ensures id in ListOrders(t, Some(tenant), customerId, status).value <==>
      && OwnsOrder(t, tenant, id)
      && (customerId.Some? ==> t.orders[id].customerId == customerId.value)
      && (Truthy(status) ==> t.orders[id].status == status.value)
  {
  }

  // ---------------------------------------------------------------------
  // What the handlers promise

  /** A request without a tenant, without a customer or lines, or naming a
      customer of another tenant is refused and changes nothing. */
  lemma CreateOrderRefusals(t: Tables, session: Option<TenantId>, req: OrderRequest, now: int)
    ensures session.None? ==> CreateOrder(t, session, req, now) == (Unauthorized, t)
    ensures session.Some? && (req.customerId.None? || req.items == []) ==>
      CreateOrder(t, session, req, now) == (Error(400, "Customer and items are required"), t)
    ensures session.Some? && req.customerId.Some? && req.items != [] && !OwnsCustomer(t, session.value, req.customerId.value) ==>
      CreateOrder(t, session, req, now) == (Error(404, "Customer not found"), t)
    ensures CreateOrder(t, session, req, now).0.Error? ==> CreateOrder(t, session, req, now).1 == t
  {
  }

  /** All-or-nothing: if any line names an unknown or foreign product or asks
      for more than its stock, the order is refused and nothing changes. */
  lemma CreateOrderChecksEveryLine(t: Tables, tenant: TenantId, req: OrderRequest, now: int, j: nat)
    requires req.customerId.Some? && OwnsCustomer(t, tenant, req.customerId.value)
    requires j < |req.items| && !Available(t.products, tenant, req.items[j])
    ensures CreateOrder(t, Some(tenant), req, now).0.Error?
    ensures CreateOrder(t, Some(tenant), req, now).0.status in {400, 404}
    ensures CreateOrder(t, Some(tenant), req, now).1 == t
  {
    PriceItemsAcceptsAll(t.products, tenant, req.items);
  }

  /** A created order: its total is the sum of price times quantity, its lines
      carry the products' current prices, its status and payment method take
      their defaults, its date is the clock's reading, each product loses the
      quantity ordered, the customer's aggregates grow by the order, and the
      counter advances by one. */
  lemma CreateOrderEffect(t: Tables, tenant: TenantId, req: OrderRequest, now: int)
    requires CreateOrder(t, Some(tenant), req, now).0.Ok?
    ensures var (resp, t') := CreateOrder(t, Some(tenant), req, now);
      var cid := req.customerId.value;
      var order := t'.orders[t.nextId];
      && resp == Ok(201, t.nextId)
      && t'.orders == t.orders[t.nextId := order]
      && order.owner == tenant && order.customerId == cid
      && order.total == OrderTotal(order.items)
      && |order.items| == |req.items|
      && (forall i :: 0 <= i < |req.items| ==>
            order.items[i].productId == req.items[i].productId
            && order.items[i].quantity == req.items[i].quantity
            && req.items[i].productId in t.products
            && order.items[i].price == t.products[req.items[i].productId].price)
      && order.status == OrDefault(req.status, "pending")
      && order.paymentMethod == OrDefault(req.paymentMethod, "cash")
      && order.orderDate == Clock(now)
      && t'.nextId == t.nextId + 1
      && t'.products.Keys == t.products.Keys
      && (forall p :: p in t.products ==>
            t'.products[p] == t.products[p].(stock := t.products[p].stock - Quantity(order.items, p)))
      && cid in t.customers
      && t'.customers == t.customers[cid := RecordOrder(t.customers[cid], order.total, Clock(now))]
      && t'.customers[cid].loyaltyPoints == t.customers[cid].loyaltyPoints + WholeUnits(order.total)
  {
    var pricing := PriceItems(t.products, tenant, req.items);
    var order := Order(tenant, req.customerId.value, pricing.total,
                       OrDefault(req.status, "pending"), OrDefault(req.paymentMethod, "cash"),
                       Clock(now), pricing.lines);
    PriceItemsLines(t.products, tenant, req.items);
    CreateOrderPlaces(t, tenant, req, now);
    PlacedStock(t, order, now);
  }

  /** Every line is checked against the stock as read before the order, and
      the decrements come later, so two lines of one product that each fit
      the stock are accepted together and leave it below zero. */
  lemma RepeatedLinesOversell(t: Tables, tenant: TenantId, cid: Id, pid: Id, now: int)
    requires OwnsCustomer(t, tenant, cid)
    requires pid in t.products && t.products[pid].owner == tenant && t.products[pid].stock == 10
    ensures var req := OrderRequest(Some(cid), [ItemRequest(pid, 6), ItemRequest(pid, 6)], None, None);
      var (resp, t') := CreateOrder(t, Some(tenant), req, now);
      && resp.Ok?
      && t'.products[pid].stock == -2
  {
    var req := OrderRequest(Some(cid), [ItemRequest(pid, 6), ItemRequest(pid, 6)], None, None);
    PriceItemsAcceptsAll(t.products, tenant, req.items);
    CreateOrderEffect(t, tenant, req, now);
    var order := CreateOrder(t, Some(tenant), req, now).1.orders[t.nextId];
    var first := order.items[..1];
    assert first[..0] == [];
    assert Quantity(first, pid) == 6;
    assert order.items[..|order.items| - 1] == first;
    assert Quantity(order.items, pid) == 12;
  }

  /** Storing an order takes each product's ordered quantity out of its stock. */
  lemma PlacedStock(t: Tables, order: Order, now: int)
    requires order.customerId in t.customers
    requires forall i :: 0 <= i < |order.items| ==> order.items[i].productId in t.products
    ensures Placed(t, order, now).products.Keys == t.products.Keys
    ensures forall p :: p in t.products ==>
      Placed(t, order, now).products[p] == t.products[p].(stock := t.products[p].stock - Quantity(order.items, p))
  {
    assert AllPresent(t.products, Sold(order.items));
    forall p | p in t.products
      ensures ApplyMoves(t.products, Sold(order.items)).0[p]
              == t.products[p].(stock := t.products[p].stock - Quantity(order.items, p))
    {
      SoldQuantity(order.items, p);
      ApplyMovesEffect(t.products, Sold(order.items), p);
    }
  }

  /** Changing a status touches only that order's status. */
  lemma UpdateStatusEffect(t: Tables, session: Option<TenantId>, id: Option<Id>, status: Option<string>)
    ensures var (resp, t') := UpdateStatus(t, session, id, status);
      && (resp.Ok? <==> session.Some? && id.Some? && OwnsOrder(t, session.value, id.value))
      && t'.products == t.products && t'.customers == t.customers && t'.nextId == t.nextId
      && t'.orders.Keys == t.orders.Keys
      && (forall o :: o in t.orders ==> t'.orders[o].(status := t.orders[o].status) == t.orders[o])
      && (resp.Ok? && status.Some? ==> t'.orders[id.value].status == status.value)
      && (resp.Error? ==> t' == t)
  {
  }

  /** Deleting an order gives each line's quantity back, takes the order's
      total, one visit and its loyalty points from the customer, keeps the last
      visit, and removes the order. */
  lemma DeleteOrderEffect(t: Tables, tenant: TenantId, id: Id)
    requires OwnsOrder(t, tenant, id)
    requires forall i :: 0 <= i < |t.orders[id].items| ==> t.orders[id].items[i].productId in t.products
    requires t.orders[id].customerId in t.customers
    ensures var (resp, t') := DeleteOrder(t, Some(tenant), Some(id));
      var order := t.orders[id];
      var c := t.customers[order.customerId];
      && resp == Ok(200, id)
      && t'.orders == t.orders - {id}
      && t'.products.Keys == t.products.Keys
      && (forall p :: p in t.products ==>
            t'.products[p] == t.products[p].(stock := t.products[p].stock + Quantity(order.items, p)))
      && t'.customers == t.customers[order.customerId := RevertOrder(c, order.total)]
      && t'.customers[order.customerId].lastVisit == c.lastVisit
  {
    var order := t.orders[id];
    assert AllPresent(t.products, Returned(order.items));
    forall p | p in t.products
      ensures ApplyMoves(t.products, Returned(order.items)).0[p]
              == t.products[p].(stock := t.products[p].stock + Quantity(order.items, p))
    {
      ReturnedQuantity(order.items, p);
      ApplyMovesEffect(t.products, Returned(order.items), p);
    }
  }

  /** Tenant isolation: an order of another tenant can be neither changed nor
      deleted; the reply is the same as for an order that does not exist. */
  lemma ForeignOrderNotFound(t: Tables, tenant: TenantId, id: Id, status: Option<string>)
    requires !OwnsOrder(t, tenant, id)
    ensures UpdateStatus(t, Some(tenant), Some(id), status) == (Error(404, "Order not found or access denied"), t)
    ensures DeleteOrder(t, Some(tenant), Some(id)) == (Error(404, "Order not found or access denied"), t)
  {
  }

  /** Creating an order and deleting it again restores every product's stock,
      the customer's total spent, visit count and loyalty points, and the
      order table; only the customer's last visit keeps the new date. */
  lemma CreateThenDeleteRestores(t: Tables, tenant: TenantId, req: OrderRequest, now: int)
    requires Valid(t)
    requires CreateOrder(t, Some(tenant), req, now).0.Ok?
    ensures var (created, t1) := CreateOrder(t, Some(tenant), req, now);
      var (deleted, t2) := DeleteOrder(t1, Some(tenant), Some(created.id));
      var cid := req.customerId.value;
      && deleted == Ok(200, created.id)
      && t2.products == t.products
      && t2.orders == t.orders
      && t2.customers == t.customers[cid := t.customers[cid].(lastVisit := Some(Clock(now)))]
  {
    var pricing := PriceItems(t.products, tenant, req.items);
    var cid := req.customerId.value;
    var order := Order(tenant, cid, pricing.total,
                       OrDefault(req.status, "pending"), OrDefault(req.paymentMethod, "cash"),
                       Clock(now), pricing.lines);
    PriceItemsLines(t.products, tenant, req.items);
    CreateOrderPlaces(t, tenant, req, now);
    DeletePlacedRestores(t, order, now);
  }

  /** A create whose customer and lines pass stores the order the item loop priced. */
  lemma CreateOrderPlaces(t: Tables, tenant: TenantId, req: OrderRequest, now: int)
    requires req.customerId.Some? && req.items != [] && OwnsCustomer(t, tenant, req.customerId.value)
    requires PriceItems(t.products, tenant, req.items).Priced?
    ensures var pricing := PriceItems(t.products, tenant, req.items);
      var order := Order(tenant, req.customerId.value, pricing.total,
                         OrDefault(req.status, "pending"), OrDefault(req.paymentMethod, "cash"),
                         Clock(now), pricing.lines);
      CreateOrder(t, Some(tenant), req, now) == (Ok(201, t.nextId), Placed(t, order, now))
  {
  }

  /** The store after `order` is stored under the next identifier, its lines
      taken out of stock and its customer credited. */
  function Placed(t: Tables, order: Order, now: int): Tables
    requires order.customerId in t.customers
  {
    Tables(t.customers[order.customerId := RecordOrder(t.customers[order.customerId], order.total, Clock(now))],
           ApplyMoves(t.products, Sold(order.items)).0,
           t.orders[t.nextId := order],
           t.nextId + 1)
  }

  lemma DeletePlacedRestores(t: Tables, order: Order, now: int)
    requires Valid(t)
    requires order.customerId in t.customers
    requires forall i :: 0 <= i < |order.items| ==> order.items[i].productId in t.products
    ensures var cid := order.customerId;
      DeleteOrder(Placed(t, order, now), Some(order.owner), Some(t.nextId))
        == (Ok(200, t.nextId),
            Tables(t.customers[cid := t.customers[cid].(lastVisit := Some(Clock(now)))], t.products, t.orders, t.nextId + 1))
  {
    var id, cid := t.nextId, order.customerId;
    var t1 := Placed(t, order, now);
    assert OwnsOrder(t1, order.owner, id) && t1.orders[id] == order;
    RestockUndoesSale(t.products, order.items);
    assert ApplyMoves(t1.products, Returned(order.items)) == (t.products, true);
    RevertUndoesRecord(t.customers[cid], order.total, Clock(now));
    assert t1.customers[cid := RevertOrder(t1.customers[cid], order.total)]
        == t.customers[cid := t.customers[cid].(lastVisit := Some(Clock(now)))];
    assert id !in t.orders;
    assert t1.orders - {id} == t.orders;
  }

  /** Every order handler keeps the store invariant. */
  lemma OrderHandlersKeepValid(t: Tables, session: Option<TenantId>, req: OrderRequest, now: int, id: Option<Id>, status: Option<string>)
    requires Valid(t)
    ensures Valid(CreateOrder(t, session, req, now).1)
    ensures Valid(UpdateStatus(t, session, id, status).1)
    ensures Valid(DeleteOrder(t, session, id).1)
  {
    CreateOrderKeepsValid(t, session, req, now);
    DeleteOrderKeepsValid(t, session, id);
  }

  lemma CreateOrderKeepsValid(t: Tables, session: Option<TenantId>, req: OrderRequest, now: int)
    requires Valid(t)
    ensures Valid(CreateOrder(t, session, req, now).1)
  {
    var (resp, t') := CreateOrder(t, session, req, now);
    if resp.Ok? {
      assert t'.products.Keys == t.products.Keys by {
        CreateOrderEffect(t, session.value, req, now);
      }
    }
  }

  lemma DeleteOrderKeepsValid(t: Tables, session: Option<TenantId>, id: Option<Id>)
    requires Valid(t)
    ensures Valid(DeleteOrder(t, session, id).1)
  {
    var (resp, t') := DeleteOrder(t, session, id);
    if resp.Ok? {
      forall o | o in t'.orders
        ensures t'.orders[o].customerId in t'.customers
      {
        assert t'.orders[o] == t.orders[o];
      }
    }
  }

  // ---------------------------------------------------------------------
  // The handlers, as they run against the store

  /** The item loop of the create handler, as it runs. */
  method CheckItems(products: map<Id, Product>, tenant: TenantId, items: seq<ItemRequest>) returns (r: Pricing)
    ensures r == PriceItems(products, tenant, items)
  {
    var total := 0;
    var lines: seq<OrderItem> := [];
    var i := 0;
    while i < |items|
      invariant 0 <= i <= |items|
      invariant PriceItems(products, tenant, items[..i]) == Priced(total, lines)
    {
      var item := items[i];
      if !(item.productId in products && products[item.productId].owner == tenant) {
        PriceItemsUnknownProduct(products, tenant, items, i);
        return Rejected(Error(404, "Product " + Text.NatToString(item.productId) + " not found"));
      }
      var product := products[item.productId];
      if product.stock < item.quantity {
        PriceItemsShortStock(products, tenant, items, i);
        return Rejected(Error(400, "Insufficient stock for " + product.name));
      }
      PriceItemsAccepts(products, tenant, items, i);
      total := total + product.price * item.quantity;
      lines := lines + [LineFor(products, item)];
      i := i + 1;
    }
    assert items[..i] == items;
    r := Priced(total, lines);
  }

  /** One more line of the item loop, given what the lines before it gave. */
  lemma PriceItemsStep(products: map<Id, Product>, tenant: TenantId, items: seq<ItemRequest>, i: nat)
    requires i < |items|
    requires PriceItems(products, tenant, items[..i]).Priced?
    ensures var before := PriceItems(products, tenant, items[..i]);
      var item := items[i];
      PriceItems(products, tenant, items[..i + 1])
        == if item.productId !in products || products[item.productId].owner != tenant then
             Rejected(Error(404, "Product " + Text.NatToString(item.productId) + " not found"))
           else if products[item.productId].stock < item.quantity then
             Rejected(Error(400, "Insufficient stock for " + products[item.productId].name))
           else
             Priced(before.total + products[item.productId].price * item.quantity,
                    before.lines + [LineFor(products, item)])
  {
    assert items[..i + 1][..i] == items[..i];
    assert items[..i + 1][i] == items[i];
  }

  /** A line naming no product of the tenant ends the loop with a 404, whatever follows. */
  lemma PriceItemsUnknownProduct(products: map<Id, Product>, tenant: TenantId, items: seq<ItemRequest>, i: nat)
    requires i < |items|
    requires PriceItems(products, tenant, items[..i]).Priced?
    requires items[i].productId !in products || products[items[i].productId].owner != tenant
    ensures PriceItems(products, tenant, items)
         == Rejected(Error(404, "Product " + Text.NatToString(items[i].productId) + " not found"))
  {
    PriceItemsStep(products, tenant, items, i);
    PriceItemsStops(products, tenant, items, i + 1);
  }

  /** A line asking for more than the stock ends the loop with a 400, whatever follows. */
  lemma PriceItemsShortStock(products: map<Id, Product>, tenant: TenantId, items: seq<ItemRequest>, i: nat)
    requires i < |items|
    requires PriceItems(products, tenant, items[..i]).Priced?
    requires items[i].productId in products && products[items[i].productId].owner == tenant
    requires products[items[i].productId].stock < items[i].quantity
    ensures PriceItems(products, tenant, items)
         == Rejected(Error(400, "Insufficient stock for " + products[items[i].productId].name))
  {
    PriceItemsStep(products, tenant, items, i);
    PriceItemsStops(products, tenant, items, i + 1);
  }

  /** A line that passes adds its line and its amount. */
  lemma PriceItemsAccepts(products: map<Id, Product>, tenant: TenantId, items: seq<ItemRequest>, i: nat)
    requires i < |items|
    requires PriceItems(products, tenant, items[..i]).Priced?
    requires Available(products, tenant, items[i])
    ensures var before := PriceItems(products, tenant, items[..i]);
      PriceItems(products, tenant, items[..i + 1])
        == Priced(before.total + products[items[i].productId].price * items[i].quantity,
                  before.lines + [LineFor(products, items[i])])
  {
    PriceItemsStep(products, tenant, items, i);
  }

  /** One `product.update` per move, in order; stops at the first product that is gone. */
  method ApplyStockMoves(db: Store, moves: seq<StockMove>) returns (ok: bool)
    modifies db`products
    ensures (db.products, ok) == ApplyMoves(old(db.products), moves)
  {
    var products := db.products;
    ghost var start := products;
    ok := true;
    var i := 0;
    while i < |moves| && ok
      invariant 0 <= i <= |moves|
      invariant (products, ok) == ApplyMoves(start, moves[..i])
      invariant !ok ==> (products, ok) == ApplyMoves(start, moves)
    {
      var m := moves[i];
      ApplyMovesStep(start, moves, i);
      if m.productId in products {
        products := products[m.productId := products[m.productId].(stock := products[m.productId].stock + m.delta)];
      } else {
        ok := false;
        ApplyMovesStops(start, moves, i + 1);
      }
      i := i + 1;
    }
    if ok {
      assert moves[..i] == moves;
    }
    db.products := products;
  }

  method Post(db: Store, session: Option<TenantId>, req: OrderRequest, now: int) returns (resp: Response)
    modifies db
    ensures (resp, db.Snapshot()) == CreateOrder(old(db.Snapshot()), session, req, now)
  {
    if session.None? {
      return Unauthorized;
    }
    if req.customerId.None? || req.items == [] {
      return Error(400, "Customer and items are required");
    }
    var tenant, cid := session.value, req.customerId.value;
    if !(cid in db.customers && db.customers[cid].owner == Some(tenant)) {
      return Error(404, "Customer not found");
    }
    ghost var t := db.Snapshot();
    var pricing := CheckItems(db.products, tenant, req.items);
    if pricing.Rejected? {
      return pricing.response;
    }
    var order := Order(tenant, cid, pricing.total,
                       OrDefault(req.status, "pending"), OrDefault(req.paymentMethod, "cash"),
                       Clock(now), pricing.lines);
    CreateOrderPlaces(t, tenant, req, now);
    var id := Place(db, order, now);
    resp := Ok(201, id);
  }

  /** The writes of a create: the order, its stock updates, its customer's aggregates. */
  method Place(db: Store, order: Order, now: int) returns (id: Id)
    requires order.customerId in db.customers
    modifies db
    ensures id == old(db.nextId)
    ensures db.Snapshot() == Placed(old(db.Snapshot()), order, now)
  {
    var customer := db.customers[order.customerId];
    id := db.NewId();
    db.orders := db.orders[id := order];
    var _ := ApplyStockMoves(db, Sold(order.items));
    db.customers := db.customers[order.customerId := RecordOrder(customer, order.total, Clock(now))];
  }

  method Put(db: Store, session: Option<TenantId>, id: Option<Id>, status: Option<string>) returns (resp: Response)
    modifies db
    ensures (resp, db.Snapshot()) == UpdateStatus(old(db.Snapshot()), session, id, status)
  {
    if session.None? {
      return Unauthorized;
    }
    if id.None? {
      return Error(400, "Order ID is required");
    }
    if !(id.value in db.orders && db.orders[id.value].owner == session.value) {
      return Error(404, "Order not found or access denied");
    }
    if status.Some? {
      db.orders := db.orders[id.value := db.orders[id.value].(status := status.value)];
    }
    resp := Ok(200, id.value);
  }

  method Delete(db: Store, session: Option<TenantId>, id: Option<Id>) returns (resp: Response)
    modifies db
    ensures (resp, db.Snapshot()) == DeleteOrder(old(db.Snapshot()), session, id)
  {
    if session.None? {
      return Unauthorized;
    }
    if id.None? {
      return Error(400, "Order ID is required");
    }
    if !(id.value in db.orders && db.orders[id.value].owner == session.value) {
      return Error(404, "Order not found or access denied");
    }
    var order := db.orders[id.value];
    var restocked := ApplyStockMoves(db, Returned(order.items));
    if !restocked || order.customerId !in db.customers {
      return Error(500, "Failed to delete order");
    }
    db.customers := db.customers[order.customerId := RevertOrder(db.customers[order.customerId], order.total)];
    db.orders := db.orders - {id.value};
    resp := Ok(200, id.value);
  }
}
