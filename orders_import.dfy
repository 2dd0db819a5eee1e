/**
 * The order importer: one order of one line per row, the customer found by
 * email and the product by name among the tenant's records. Rows are
 * independent: a row that fails is counted and reported, and the next row
 * runs. Stock is taken without looking at it first.
 *
 * What the store throws is not modelled beyond this: `storeErrors` maps the
 * index of a row whose order the store refuses to create to the text it
 * throws; that row then changes nothing.
 */
module OrdersImport {
  import opened Wrappers
  import opened Entities
  import opened Ledger
  import opened Database

  /** One row: `quantity` arrives already parsed. */
  datatype OrderRow = OrderRow(
    customerEmail: Option<string>,
    productName: Option<string>,
    quantity: int,
    orderDate: Option<string>,
    status: Option<string>,
    paymentMethod: Option<string>)

  /** The tenant's customer with the email; an absent email matches any of the tenant's customers. */
  function FindCustomer(t: Tables, tenant: TenantId, email: Option<string>): (r: Option<Id>)
    ensures r.Some? ==> r.value in t.customers && t.customers[r.value].owner == Some(tenant)
    ensures r.Some? && email.Some? ==> t.customers[r.value].email == email.value
    ensures r.None? <==> !exists c :: c in t.customers && t.customers[c].owner == Some(tenant)
                                       && (email.None? || t.customers[c].email == email.value)
  {
    FirstWhere(t.customers, (c: Customer) => c.owner == Some(tenant) && (email.None? || c.email == email.value))
  }

  /** The tenant's product with the name; an absent name matches any of the tenant's products. */
  function FindProduct(t: Tables, tenant: TenantId, name: Option<string>): (r: Option<Id>)
    ensures r.Some? ==> r.value in t.products && t.products[r.value].owner == tenant
    ensures r.Some? && name.Some? ==> t.products[r.value].name == name.value
    ensures r.None? <==> !exists p :: p in t.products && t.products[p].owner == tenant
                                      && (name.None? || t.products[p].name == name.value)
  {
    FirstWhere(t.products, (p: Product) => p.owner == tenant && (name.None? || p.name == name.value))
  }

  /** The order date: the row's date when it has one, otherwise the clock. */
  function DateOf(row: OrderRow, now: int): Instant {
    if Truthy(row.orderDate) then FromText(row.orderDate.value) else Clock(now)
  }

  /** What one row does to the store. */
  function ImportRow(t: Tables, tenant: TenantId, row: OrderRow, now: int, storeError: Option<string>): (RowOutcome, Tables) {
    var customer := FindCustomer(t, tenant, row.customerEmail);
    if customer.None? then (Failed(Printed(row.customerEmail) + ": Customer not found"), t)
    else
      var product := FindProduct(t, tenant, row.productName);
      if product.None? then (Failed(Printed(row.productName) + ": Product not found"), t)
      else if storeError.Some? then (Failed("Order error: " + storeError.value), t)
      else
        var (cid, pid) := (customer.value, product.value);
        var p := t.products[pid];
        var total := p.price * row.quantity;
        var date := DateOf(row, now);
        var order := Order(tenant, cid, total, OrDefault(row.status, "completed"),
                           OrDefault(row.paymentMethod, "cash"), date,
                           [OrderItem(pid, row.quantity, p.price)]);
        (Done,
         Tables(t.customers[cid := RecordOrder(t.customers[cid], total, date)],
                t.products[pid := p.(stock := p.stock - row.quantity)],
                t.orders[t.nextId := order],
                t.nextId + 1))
  }

  /** The loop over the rows, in order. */
  function ImportRows(t: Tables, tenant: TenantId, rows: seq<OrderRow>, now: int, storeErrors: map<nat, string>): (r: (ImportResult, Tables))
    ensures r.0.success + r.0.failed == |rows|
    ensures |r.0.errors| == r.0.failed
  {
    if rows == [] then (ImportResult(0, 0, []), t)
    else
      var n := |rows| - 1;
      var (result, t') := ImportRows(t, tenant, rows[..n], now, storeErrors);
      var (outcome, t'') := ImportRow(t', tenant, rows[n], now, if n in storeErrors then Some(storeErrors[n]) else None);
      (Tally(result, outcome), t'')
  }

  /** POST: the whole request. */
  function ImportOrders(t: Tables, session: Option<TenantId>, orders: Option<seq<OrderRow>>, now: int, storeErrors: map<nat, string>): (ImportReply, Tables) {
    if session.None? then (Refused(Unauthorized), t)
    else if orders.None? || orders.value == [] then (Refused(Error(400, "No order data provided")), t)
    else
      var (result, t') := ImportRows(t, session.value, orders.value, now, storeErrors);
      (Imported(result), t')
  }

  // ---------------------------------------------------------------------
  // What the importer promises

  /** A request without a tenant, or without rows, is refused and changes nothing. */
  lemma ImportOrdersRefusals(t: Tables, session: Option<TenantId>, orders: Option<seq<OrderRow>>, now: int, storeErrors: map<nat, string>)
    ensures session.None? ==> ImportOrders(t, session, orders, now, storeErrors) == (Refused(Unauthorized), t)
    ensures session.Some? && (orders.None? || orders.value == []) ==>
      ImportOrders(t, session, orders, now, storeErrors) == (Refused(Error(400, "No order data provided")), t)
  {
  }

  /** A row whose customer or product the tenant does not have fails with the
      row's email or product name in the message, and changes nothing. */
  lemma RowNotFound(t: Tables, tenant: TenantId, row: OrderRow, now: int, storeError: Option<string>)
    requires row.customerEmail.Some? && row.productName.Some?
    ensures (forall c :: c in t.customers && t.customers[c].owner == Some(tenant) ==> t.customers[c].email != row.customerEmail.value) ==>
      ImportRow(t, tenant, row, now, storeError) == (Failed(row.customerEmail.value + ": Customer not found"), t)
    ensures ((exists c :: c in t.customers && t.customers[c].owner == Some(tenant) && t.customers[c].email == row.customerEmail.value)
             && forall p :: p in t.products && t.products[p].owner == tenant ==> t.products[p].name != row.productName.value) ==>
      ImportRow(t, tenant, row, now, storeError) == (Failed(row.productName.value + ": Product not found"), t)
    ensures ImportRow(t, tenant, row, now, storeError).0.Failed? ==> ImportRow(t, tenant, row, now, storeError).1 == t
  {
  }

  /** A row that goes through stores one order of one line priced at the
      product's price, takes the quantity from the product's stock unchecked,
      and adds the order to the customer, dated by the row or the clock. */
  lemma RowEffect(t: Tables, tenant: TenantId, row: OrderRow, now: int)
    requires ImportRow(t, tenant, row, now, None).0.Done?
    ensures var (_, t') := ImportRow(t, tenant, row, now, None);
      var cid := FindCustomer(t, tenant, row.customerEmail).value;
      var pid := FindProduct(t, tenant, row.productName).value;
      var order := t'.orders[t.nextId];
      var date := if Truthy(row.orderDate) then FromText(row.orderDate.value) else Clock(now);
      && t'.orders == t.orders[t.nextId := order]
      && order.owner == tenant && order.customerId == cid
      && order.items == [OrderItem(pid, row.quantity, t.products[pid].price)]
      && order.total == t.products[pid].price * row.quantity
      && order.total == OrderTotal(order.items)
      && order.status == OrDefault(row.status, "completed")
      && order.paymentMethod == OrDefault(row.paymentMethod, "cash")
      && order.orderDate == date
      && t'.products == t.products[pid := t.products[pid].(stock := t.products[pid].stock - row.quantity)]
      && t'.customers[cid].totalSpent == t.customers[cid].totalSpent + order.total
      && t'.customers[cid].visitCount == t.customers[cid].visitCount + 1
      && t'.customers[cid].loyaltyPoints == t.customers[cid].loyaltyPoints + WholeUnits(order.total)
      && t'.customers[cid].lastVisit == Some(date)
      && cid in t.customers
      && t'.customers == t.customers[cid := RecordOrder(t.customers[cid], order.total, date)]
      && t'.nextId == t.nextId + 1
  {
    var (_, t') := ImportRow(t, tenant, row, now, None);
    var order := t'.orders[t.nextId];
    assert order.items[..0] == [];
  }

  /** The importer makes no stock check at all: a row for more than the
      stock goes through and leaves the stock negative. */
  lemma ImportDrivesStockNegative(t: Tables, tenant: TenantId, row: OrderRow, now: int)
    requires ImportRow(t, tenant, row, now, None).0.Done?
    requires var pid := FindProduct(t, tenant, row.productName).value;
      0 <= t.products[pid].stock < row.quantity
    ensures var pid := FindProduct(t, tenant, row.productName).value;
      ImportRow(t, tenant, row, now, None).1.products[pid].stock < 0
  {
  }

  /** A row that fails leaves the store as it was, and the rows after it run
      against that store: the batch continues exactly as if the row were absent. */
  lemma {:induction false} FailedRowIsSkipped(t: Tables, tenant: TenantId, rows: seq<OrderRow>, now: int, storeErrors: map<nat, string>, k: nat)
    requires k < |rows|
    requires var t' := ImportRows(t, tenant, rows[..k], now, storeErrors).1;
      ImportRow(t', tenant, rows[k], now, if k in storeErrors then Some(storeErrors[k]) else None).0.Failed?
    ensures ImportRows(t, tenant, rows[..k + 1], now, storeErrors).1 == ImportRows(t, tenant, rows[..k], now, storeErrors).1
    ensures ImportRows(t, tenant, rows[..k + 1], now, storeErrors).0.failed == ImportRows(t, tenant, rows[..k], now, storeErrors).0.failed + 1
  {
    assert rows[..k + 1][..k] == rows[..k];
  }

  /** The importer keeps the store invariant. */
  lemma {:induction false} ImportRowsKeepValid(t: Tables, tenant: TenantId, rows: seq<OrderRow>, now: int, storeErrors: map<nat, string>)
    requires Valid(t)
    ensures Valid(ImportRows(t, tenant, rows, now, storeErrors).1)
  {
    if rows != [] {
      var n := |rows| - 1;
      ImportRowsKeepValid(t, tenant, rows[..n], now, storeErrors);
      var mid := ImportRows(t, tenant, rows[..n], now, storeErrors).1;
      ImportRowKeepsValid(mid, tenant, rows[n], now, if n in storeErrors then Some(storeErrors[n]) else None);
    }
  }

  lemma ImportRowKeepsValid(t: Tables, tenant: TenantId, row: OrderRow, now: int, storeError: Option<string>)
    requires Valid(t)
    ensures Valid(ImportRow(t, tenant, row, now, storeError).1)
  {
  }

  // ---------------------------------------------------------------------
  // The importer, as it runs against the store

  method ImportOneRow(db: Store, tenant: TenantId, row: OrderRow, now: int, storeError: Option<string>) returns (outcome: RowOutcome)
    modifies db
    ensures (outcome, db.Snapshot()) == ImportRow(old(db.Snapshot()), tenant, row, now, storeError)
  {
    var customer := FindCustomer(db.Snapshot(), tenant, row.customerEmail);
    if customer.None? {
      return Failed(Printed(row.customerEmail) + ": Customer not found");
    }
    var product := FindProduct(db.Snapshot(), tenant, row.productName);
    if product.None? {
      return Failed(Printed(row.productName) + ": Product not found");
    }
    if storeError.Some? {
      return Failed("Order error: " + storeError.value);
    }
    var cid, pid := customer.value, product.value;
    var p := db.products[pid];
    var total := p.price * row.quantity;
    var date := Clock(now);
    if Truthy(row.orderDate) {
      date := FromText(row.orderDate.value);
    }
    var id := db.NewId();
    db.orders := db.orders[id := Order(tenant, cid, total, OrDefault(row.status, "completed"),
                                       OrDefault(row.paymentMethod, "cash"), date,
                                       [OrderItem(pid, row.quantity, p.price)])];
    db.products := db.products[pid := p.(stock := p.stock - row.quantity)];
    db.customers := db.customers[cid := RecordOrder(db.customers[cid], total, date)];
    outcome := Done;
  }

  method Post(db: Store, session: Option<TenantId>, orders: Option<seq<OrderRow>>, now: int, storeErrors: map<nat, string>) returns (reply: ImportReply)
    modifies db
    ensures (reply, db.Snapshot()) == ImportOrders(old(db.Snapshot()), session, orders, now, storeErrors)
  {
    if session.None? {
      return Refused(Unauthorized);
    }
    if orders.None? || orders.value == [] {
      return Refused(Error(400, "No order data provided"));
    }
    var rows := orders.value;
    ghost var t0 := db.Snapshot();
    var results := ImportResult(0, 0, []);
    var i := 0;
    while i < |rows|
      invariant 0 <= i <= |rows|
      invariant (results, db.Snapshot()) == ImportRows(t0, session.value, rows[..i], now, storeErrors)
    {
      ImportRowsStep(t0, session.value, rows, i, now, storeErrors);
      var outcome := ImportOneRow(db, session.value, rows[i], now, if i in storeErrors then Some(storeErrors[i]) else None);
      results := Tally(results, outcome);
      i := i + 1;
    }
    assert rows[..i] == rows;
    reply := Imported(results);
  }

  /** One more row of the loop, given what the rows before it did. */
  lemma ImportRowsStep(t: Tables, tenant: TenantId, rows: seq<OrderRow>, i: nat, now: int, storeErrors: map<nat, string>)
    requires i < |rows|
    ensures var (result, t') := ImportRows(t, tenant, rows[..i], now, storeErrors);
      var (outcome, t'') := ImportRow(t', tenant, rows[i], now, if i in storeErrors then Some(storeErrors[i]) else None);
      ImportRows(t, tenant, rows[..i + 1], now, storeErrors) == (Tally(result, outcome), t'')
  {
    assert rows[..i + 1][..i] == rows[..i];
  }
}
