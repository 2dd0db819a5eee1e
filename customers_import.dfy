/**
 * The customer importer: one customer per row, with the history the row
 * carries. It asks for no session and gives its customers no owner; the
 * duplicate lookup is on the email alone, across every tenant.
 *
 * A row throws when its email is absent (the unique lookup needs one), when
 * its name is absent (the store needs one), or when the store refuses the
 * row's create for a reason of its own: `storeErrors` maps the index of such a
 * row to the text thrown.
 */
module CustomersImport {
  import opened Wrappers
  import opened Entities
  import opened Ledger
  import opened Database
  import Text

  /** One row; the numbers arrive already parsed, absent or empty as `None`. */
  datatype CustomerRow = CustomerRow(
    name: Option<string>,
    email: Option<string>,
    phone: Option<string>,
    address: Option<string>,
    totalSpent: Option<Cents>,
    loyaltyPoints: Option<int>,
    visitCount: Option<int>,
    lastVisit: Option<string>)

  /** The unique lookup: some customer, of any tenant or none, has the email. */
  predicate EmailExists(t: Tables, email: string) {
    exists c :: c in t.customers && t.customers[c].email == email
  }

  /** The last visit a row records: none when absent or when it reads "never" in any case. */
  function LastVisitOf(row: CustomerRow): (r: Option<Instant>)
    ensures r.Some? <==> Truthy(row.lastVisit) && Text.ToLower(row.lastVisit.value) != "never"
    ensures r.Some? ==> r.value == FromText(row.lastVisit.value)
  {
    if Truthy(row.lastVisit) && Text.ToLower(row.lastVisit.value) != "never" then Some(FromText(row.lastVisit.value))
    else None
  }

  /** The customer a row creates. */
  function NewCustomer(row: CustomerRow): Customer
    requires row.name.Some? && row.email.Some?
  {
    var spent := row.totalSpent.GetOr(0);
    Customer(None, row.name.value, row.email.value, OrNull(row.phone), OrNull(row.address),
             spent, row.visitCount.GetOr(0), row.loyaltyPoints.GetOr(WholeUnits(spent)), LastVisitOf(row))
  }

  /** What one row does to the store. */
  function ImportRow(t: Tables, row: CustomerRow, index: nat, storeErrors: map<nat, string>): (RowOutcome, Tables) {
    if row.email.None? then (Failed(Printed(row.name) + ": " + Thrown(storeErrors, index)), t)
    else if EmailExists(t, row.email.value) then (Failed(row.email.value + ": Email already exists"), t)
    else if row.name.None? || index in storeErrors then (Failed(Printed(row.name) + ": " + Thrown(storeErrors, index)), t)
    else (Done, t.(customers := t.customers[t.nextId := NewCustomer(row)], nextId := t.nextId + 1))
  }

  /** The loop over the rows, in order. */
  function ImportRows(t: Tables, rows: seq<CustomerRow>, storeErrors: map<nat, string>): (r: (ImportResult, Tables))
    ensures r.0.success + r.0.failed == |rows|
    ensures |r.0.errors| == r.0.failed
  {
    if rows == [] then (ImportResult(0, 0, []), t)
    else
      var n := |rows| - 1;
      var (result, t') := ImportRows(t, rows[..n], storeErrors);
      var (outcome, t'') := ImportRow(t', rows[n], n, storeErrors);
      (Tally(result, outcome), t'')
  }

  /** POST: the whole request. */
  function ImportCustomers(t: Tables, customers: Option<seq<CustomerRow>>, storeErrors: map<nat, string>): (ImportReply, Tables) {
    if customers.None? || customers.value == [] then (Refused(Error(400, "No customer data provided")), t)
    else
      var (result, t') := ImportRows(t, customers.value, storeErrors);
      (Imported(result), t')
  }

  // ---------------------------------------------------------------------
  // What the importer promises

  /** A request without rows is refused and changes nothing. */
  lemma ImportCustomersRefusal(t: Tables, customers: Option<seq<CustomerRow>>, storeErrors: map<nat, string>)
    ensures (customers.None? || customers.value == []) ==>
      ImportCustomers(t, customers, storeErrors) == (Refused(Error(400, "No customer data provided")), t)
    ensures (customers.Some? && customers.value != []) ==> ImportCustomers(t, customers, storeErrors).0.Imported?
  {
  }

  /** A row whose email some customer already has, whatever its tenant,
      fails and creates nothing. */
  lemma DuplicateRowFails(t: Tables, row: CustomerRow, index: nat, storeErrors: map<nat, string>, other: Id)
    requires row.email.Some? && other in t.customers && t.customers[other].email == row.email.value
    ensures ImportRow(t, row, index, storeErrors) == (Failed(row.email.value + ": Email already exists"), t)
  {
  }

  /** A created customer has no owner, the row's name and email, its phone
      and address or null, the row's history, a total spent of 0, no visits
      and the whole currency units of the total spent as points when the row
      gives none, the row's last visit read as a date, or none when it gives
      none or "never"; the counter advances by one. */
  lemma RowDefaults(t: Tables, row: CustomerRow, index: nat, storeErrors: map<nat, string>)
    requires ImportRow(t, row, index, storeErrors).0.Done?
    ensures var (_, t') := ImportRow(t, row, index, storeErrors);
      var c := t'.customers[t.nextId];
      && t'.customers == t.customers[t.nextId := c]
      && t'.products == t.products && t'.orders == t.orders
      && c.owner.None? && c.email == row.email.value && c.name == row.name.value
      && c.totalSpent == (if row.totalSpent.Some? then row.totalSpent.value else 0)
      && c.visitCount == (if row.visitCount.Some? then row.visitCount.value else 0)
      && c.loyaltyPoints == (if row.loyaltyPoints.Some? then row.loyaltyPoints.value else WholeUnits(c.totalSpent))
      && (c.lastVisit.None? <==> !Truthy(row.lastVisit) || Text.ToLower(row.lastVisit.value) == "never")
      && c.lastVisit == LastVisitOf(row)
      && c.phone == OrNull(row.phone) && c.address == OrNull(row.address)
      && t'.nextId == t.nextId + 1
  {
  }

  /** Rows run one after another, so a row repeating the email of an earlier
      row of the same batch that was imported fails. */
  lemma RepeatedEmailFails(t: Tables, rows: seq<CustomerRow>, storeErrors: map<nat, string>, j: nat, k: nat)
    requires Valid(t)
    requires j < k < |rows|
    requires rows[j].email.Some? && rows[k].email == rows[j].email
    requires ImportRow(ImportRows(t, rows[..j], storeErrors).1, rows[j], j, storeErrors).0.Done?
    ensures var t' := ImportRows(t, rows[..k], storeErrors).1;
      ImportRow(t', rows[k], k, storeErrors) == (Failed(rows[j].email.value + ": Email already exists"), t')
  {
    var before := ImportRows(t, rows[..j], storeErrors).1;
    assert rows[..j + 1][..j] == rows[..j];
    var after := ImportRows(t, rows[..j + 1], storeErrors).1;
    assert after == ImportRow(before, rows[j], j, storeErrors).1;
    assert before.nextId in after.customers && after.customers[before.nextId].email == rows[j].email.value;
    ImportRowsOnlyAddsFrom(t, rows, storeErrors, j + 1, k);
  }

  /** The importer never removes or changes a customer, it only adds: what
      holds at one point of the batch still holds at any later point. */
  lemma {:induction false} ImportRowsOnlyAddsFrom(t: Tables, rows: seq<CustomerRow>, storeErrors: map<nat, string>, i: nat, k: nat)
    requires Valid(t)
    requires i <= k <= |rows|
    ensures forall c :: c in ImportRows(t, rows[..i], storeErrors).1.customers ==>
      && c in ImportRows(t, rows[..k], storeErrors).1.customers
      && ImportRows(t, rows[..k], storeErrors).1.customers[c] == ImportRows(t, rows[..i], storeErrors).1.customers[c]
    decreases k - i
  {
    if i < k {
      ImportRowsOnlyAddsFrom(t, rows, storeErrors, i, k - 1);
      ImportRowsStep(t, rows, k - 1, storeErrors);
      ImportRowsKeepValid(t, rows[..k - 1], storeErrors);
      var m := ImportRows(t, rows[..k - 1], storeErrors).1;
      ImportRowOnlyAdds(m, rows[k - 1], k - 1, storeErrors);
    }
  }

  /** One row never removes or changes a customer. */
  lemma ImportRowOnlyAdds(t: Tables, row: CustomerRow, index: nat, storeErrors: map<nat, string>)
    requires Valid(t)
    ensures forall c :: c in t.customers ==>
      c in ImportRow(t, row, index, storeErrors).1.customers
      && ImportRow(t, row, index, storeErrors).1.customers[c] == t.customers[c]
  {
    assert t.nextId !in t.customers;
  }

  /** The importer keeps the store invariant. */
  lemma {:induction false} ImportRowsKeepValid(t: Tables, rows: seq<CustomerRow>, storeErrors: map<nat, string>)
    requires Valid(t)
    ensures Valid(ImportRows(t, rows, storeErrors).1)
  {
    if rows != [] {
      var n := |rows| - 1;
      ImportRowsKeepValid(t, rows[..n], storeErrors);
    }
  }

  // ---------------------------------------------------------------------
  // The importer, as it runs against the store

  method ImportOneRow(db: Store, row: CustomerRow, index: nat, storeErrors: map<nat, string>) returns (outcome: RowOutcome)
    modifies db
    ensures (outcome, db.Snapshot()) == ImportRow(old(db.Snapshot()), row, index, storeErrors)
  {
    if row.email.None? {
      return Failed(Printed(row.name) + ": " + Thrown(storeErrors, index));
    }
    if exists c :: c in db.customers && db.customers[c].email == row.email.value {
      return Failed(row.email.value + ": Email already exists");
    }
    if row.name.None? || index in storeErrors {
      return Failed(Printed(row.name) + ": " + Thrown(storeErrors, index));
    }
    var id := db.NewId();
    db.customers := db.customers[id := NewCustomer(row)];
    outcome := Done;
  }

  method Post(db: Store, customers: Option<seq<CustomerRow>>, storeErrors: map<nat, string>) returns (reply: ImportReply)
    modifies db
    ensures (reply, db.Snapshot()) == ImportCustomers(old(db.Snapshot()), customers, storeErrors)
  {
    if customers.None? || customers.value == [] {
      return Refused(Error(400, "No customer data provided"));
    }
    var rows := customers.value;
    ghost var t0 := db.Snapshot();
    var results := ImportResult(0, 0, []);
    var i := 0;
    while i < |rows|
      invariant 0 <= i <= |rows|
      invariant (results, db.Snapshot()) == ImportRows(t0, rows[..i], storeErrors)
    {
      ImportRowsStep(t0, rows, i, storeErrors);
      var outcome := ImportOneRow(db, rows[i], i, storeErrors);
      results := Tally(results, outcome);
      i := i + 1;
    }
    assert rows[..i] == rows;
    reply := Imported(results);
  }

  /** One more row of the loop, given what the rows before it did. */
  lemma ImportRowsStep(t: Tables, rows: seq<CustomerRow>, i: nat, storeErrors: map<nat, string>)
    requires i < |rows|
    ensures var (result, t') := ImportRows(t, rows[..i], storeErrors);
      var (outcome, t'') := ImportRow(t', rows[i], i, storeErrors);
      ImportRows(t, rows[..i + 1], storeErrors) == (Tally(result, outcome), t'')
  {
    assert rows[..i + 1][..i] == rows[..i];
  }
}
