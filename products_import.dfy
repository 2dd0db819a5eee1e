/**
 * The product importer: one product of the tenant per row, with no
 * validation and no duplicate check. A row fails only when the store throws:
 * when a field the store needs (name, category, price, cost) is absent, or
 * for a reason of its own, given by `storeErrors` as the text thrown for that
 * row's index.
 */
module ProductsImport {
  import opened Wrappers
  import opened Entities
  import opened Database

  /** One row; the numbers arrive already parsed, absent or unparsable as `None`. */
  datatype ProductRow = ProductRow(
    name: Option<string>,
    description: Option<string>,
    category: Option<string>,
    price: Option<Cents>,
    cost: Option<Cents>,
    stock: Option<int>)

  /** The store refuses the row's create. */
  predicate Throws(row: ProductRow, index: nat, storeErrors: map<nat, string>) {
    row.name.None? || row.category.None? || row.price.None? || row.cost.None? || index in storeErrors
  }

  /** The product a row creates: the tenant's, active, with the row's name,
      category, price and cost, its description or null, and its stock or none. */
  function NewProduct(tenant: TenantId, row: ProductRow): (p: Product)
    requires row.name.Some? && row.category.Some? && row.price.Some? && row.cost.Some?
    ensures p.owner == tenant && p.isActive && p.name == row.name.value
    ensures p.stock == (if row.stock.Some? then row.stock.value else 0)
    ensures p.category == row.category.value && p.description == OrNull(row.description)
    ensures p.price == row.price.value && p.cost == row.cost.value
  {
    Product(tenant, row.name.value, OrNull(row.description), row.category.value,
            row.price.value, row.cost.value, row.stock.GetOr(0), true)
  }

  /** What one row does to the store. */
  function ImportRow(t: Tables, tenant: TenantId, row: ProductRow, index: nat, storeErrors: map<nat, string>): (RowOutcome, Tables) {
    if Throws(row, index, storeErrors) then (Failed(Printed(row.name) + ": " + Thrown(storeErrors, index)), t)
    else (Done, t.(products := t.products[t.nextId := NewProduct(tenant, row)], nextId := t.nextId + 1))
  }

  /** The loop over the rows, in order. */
  function ImportRows(t: Tables, tenant: TenantId, rows: seq<ProductRow>, storeErrors: map<nat, string>): (r: (ImportResult, Tables))
    ensures r.0.success + r.0.failed == |rows|
    ensures |r.0.errors| == r.0.failed
  {
    if rows == [] then (ImportResult(0, 0, []), t)
    else
      var n := |rows| - 1;
      var (result, t') := ImportRows(t, tenant, rows[..n], storeErrors);
      var (outcome, t'') := ImportRow(t', tenant, rows[n], n, storeErrors);
      (Tally(result, outcome), t'')
  }

  /** POST: the whole request. */
  function ImportProducts(t: Tables, session: Option<TenantId>, products: Option<seq<ProductRow>>, storeErrors: map<nat, string>): (ImportReply, Tables) {
    if session.None? then (Refused(Unauthorized), t)
    else if products.None? || products.value == [] then (Refused(Error(400, "No product data provided")), t)
    else
      var (result, t') := ImportRows(t, session.value, products.value, storeErrors);
      (Imported(result), t')
  }

  /** The rows the store accepts. */
  function Accepted(rows: seq<ProductRow>, storeErrors: map<nat, string>): nat {
    if rows == [] then 0
    else Accepted(rows[..|rows| - 1], storeErrors) + (if Throws(rows[|rows| - 1], |rows| - 1, storeErrors) then 0 else 1)
  }

  // ---------------------------------------------------------------------
  // What the importer promises

  /** A request without a tenant, or without rows, is refused and changes nothing. */
  lemma ImportProductsRefusals(t: Tables, session: Option<TenantId>, products: Option<seq<ProductRow>>, storeErrors: map<nat, string>)
    ensures session.None? ==> ImportProducts(t, session, products, storeErrors) == (Refused(Unauthorized), t)
    ensures session.Some? && (products.None? || products.value == []) ==>
      ImportProducts(t, session, products, storeErrors) == (Refused(Error(400, "No product data provided")), t)
  {
  }

  /** Rows are independent: a row's fate depends on that row alone, so
      exactly the rows the store accepts are counted as imported, and each
      of them adds one product to the table. */
  lemma {:induction false} ImportedAreAccepted(t: Tables, tenant: TenantId, rows: seq<ProductRow>, storeErrors: map<nat, string>)
    requires Valid(t)
    ensures var (result, t') := ImportRows(t, tenant, rows, storeErrors);
      && result.success == Accepted(rows, storeErrors)
      && |t'.products| == |t.products| + result.success
      && t'.nextId == t.nextId + result.success
      && Valid(t')
  {
    if rows != [] {
      var n := |rows| - 1;
      ImportedAreAccepted(t, tenant, rows[..n], storeErrors);
      var mid := ImportRows(t, tenant, rows[..n], storeErrors).1;
      assert mid.nextId !in mid.products;
    }
  }

  /** Every row the store accepts creates exactly `NewProduct` of the row at
      the next id, which advances by one, and changes nothing else. */
  lemma RowEffect(t: Tables, tenant: TenantId, row: ProductRow, index: nat, storeErrors: map<nat, string>)
    requires !Throws(row, index, storeErrors)
    ensures var (outcome, t') := ImportRow(t, tenant, row, index, storeErrors);
      var p := t'.products[t.nextId];
      && outcome == Done
      && t'.products == t.products[t.nextId := p]
      && t'.customers == t.customers && t'.orders == t.orders
      && p.owner == tenant && p.isActive
      && p.price == row.price.value && p.cost == row.cost.value
      && p.stock == (if row.stock.Some? then row.stock.value else 0)
      && p == NewProduct(tenant, row)
      && t'.nextId == t.nextId + 1
  {
  }

  /** Nothing is checked: a second row with the name of an existing product,
      a negative price and a negative cost is imported all the same. */
  lemma NoValidation(t: Tables, tenant: TenantId, row: ProductRow, index: nat, existing: Id)
    requires existing in t.products && t.products[existing].owner == tenant
    requires row.name == Some(t.products[existing].name) && row.category.Some?
    requires row.price == Some(-1) && row.cost == Some(-1)
    ensures ImportRow(t, tenant, row, index, map[]).0 == Done
  {
  }

  // ---------------------------------------------------------------------
  // The importer, as it runs against the store

  /** One row: a `product.create` call, or the message of what it threw. */
  method ImportOneRow(db: Store, tenant: TenantId, row: ProductRow, index: nat, storeErrors: map<nat, string>) returns (outcome: RowOutcome)
    modifies db
    ensures (outcome, db.Snapshot()) == ImportRow(old(db.Snapshot()), tenant, row, index, storeErrors)
  {
    if Throws(row, index, storeErrors) {
      return Failed(Printed(row.name) + ": " + Thrown(storeErrors, index));
    }
    var id := db.NewId();
    db.products := db.products[id := NewProduct(tenant, row)];
    outcome := Done;
  }

  method Post(db: Store, session: Option<TenantId>, products: Option<seq<ProductRow>>, storeErrors: map<nat, string>) returns (reply: ImportReply)
    modifies db
    ensures (reply, db.Snapshot()) == ImportProducts(old(db.Snapshot()), session, products, storeErrors)
  {
    if session.None? {
      return Refused(Unauthorized);
    }
    if products.None? || products.value == [] {
      return Refused(Error(400, "No product data provided"));
    }
    var rows := products.value;
    ghost var t0 := db.Snapshot();
    var results := ImportResult(0, 0, []);
    var i := 0;
    while i < |rows|
      invariant 0 <= i <= |rows|
      invariant (results, db.Snapshot()) == ImportRows(t0, session.value, rows[..i], storeErrors)
    {
      ImportRowsStep(t0, session.value, rows, i, storeErrors);
      var outcome := ImportOneRow(db, session.value, rows[i], i, storeErrors);
      results := Tally(results, outcome);
      i := i + 1;
    }
    assert rows[..i] == rows;
    reply := Imported(results);
  }

  /** One more row of the loop, given what the rows before it did. */
  lemma ImportRowsStep(t: Tables, tenant: TenantId, rows: seq<ProductRow>, i: nat, storeErrors: map<nat, string>)
    requires i < |rows|
    ensures var (result, t') := ImportRows(t, tenant, rows[..i], storeErrors);
      var (outcome, t'') := ImportRow(t', tenant, rows[i], i, storeErrors);
      ImportRows(t, tenant, rows[..i + 1], storeErrors) == (Tally(result, outcome), t'')
  {
    assert rows[..i + 1][..i] == rows[..i];
  }
}
