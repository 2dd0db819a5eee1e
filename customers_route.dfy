/**
 * The customers endpoint: create, update and delete a tenant's customers.
 * Emails are unique among one tenant's customers; a customer with orders
 * cannot be deleted. The aggregates over a customer's orders are only ever
 * written by the order handlers and importers, never here.
 */
module CustomersRoute {
  import opened Wrappers
  import opened Entities
  import opened Database

  /** The body of a create or update request; every field may be absent. */
  datatype CustomerRequest = CustomerRequest(
    id: Option<Id>,
    name: Option<string>,
    email: Option<string>,
    phone: Option<string>,
    address: Option<string>)

  predicate OwnsCustomer(t: Tables, tenant: TenantId, id: Id) {
    id in t.customers && t.customers[id].owner == Some(tenant)
  }

  /**
   * The duplicate lookup: some customer of the tenant, other than `except`,
   * has the email. The store drops a filter whose value is undefined, so an
   * absent email matches every customer of the tenant.
   */
  predicate EmailTaken(customers: map<Id, Customer>, tenant: TenantId, email: Option<string>, except: Option<Id>) {
    exists id :: id in customers
      && customers[id].owner == Some(tenant)
      && (email.None? || customers[id].email == email.value)
      && (except.None? || id != except.value)
  }

  /** The customer a create request stores: no orders yet, absent contact details null. */
  function NewCustomer(tenant: TenantId, name: string, email: string, phone: Option<string>, address: Option<string>): Customer {
    Customer(Some(tenant), name, email, OrNull(phone), OrNull(address), 0, 0, 0, None)
  }

  /** The update's data: absent name and email are left as they are, contact details become null when empty. */
  function Edited(c: Customer, req: CustomerRequest): Customer {
    c.(name := req.name.GetOr(c.name),
       email := req.email.GetOr(c.email),
       phone := OrNull(req.phone),
       address := OrNull(req.address))
  }

  /** Whether some order, of any tenant, is placed by the customer. */
  predicate HasOrders(t: Tables, id: Id) {
    exists o :: o in t.orders && t.orders[o].customerId == id
  }

  /** POST: what creating a customer replies and leaves in the store. */
  function CreateCustomer(t: Tables, session: Option<TenantId>, req: CustomerRequest): (Response, Tables) {
    if session.None? then (Unauthorized, t)
    else if !Truthy(req.name) || !Truthy(req.email) then (Error(400, "Name and email are required"), t)
    else if EmailTaken(t.customers, session.value, req.email, None) then
      (Error(400, "A customer with this email already exists"), t)
    else
      (Ok(201, t.nextId),
       t.(customers := t.customers[t.nextId := NewCustomer(session.value, req.name.value, req.email.value, req.phone, req.address)],
          nextId := t.nextId + 1))
  }

  /** PUT: what updating a customer replies and leaves in the store. The
      duplicate lookup runs unless the request repeats the stored email. */
  function UpdateCustomer(t: Tables, session: Option<TenantId>, req: CustomerRequest): (Response, Tables) {
    if session.None? then (Unauthorized, t)
    else if req.id.None? then (Error(400, "Customer ID is required"), t)
    else if !OwnsCustomer(t, session.value, req.id.value) then (Error(404, "Customer not found or access denied"), t)
    else
      var id := req.id.value;
      if req.email != Some(t.customers[id].email) && EmailTaken(t.customers, session.value, req.email, Some(id)) then
        (Error(400, "A customer with this email already exists"), t)
      else
        (Ok(200, id), t.(customers := t.customers[id := Edited(t.customers[id], req)]))
  }

  /** DELETE: what deleting a customer replies and leaves in the store. */
  function DeleteCustomer(t: Tables, session: Option<TenantId>, id: Option<Id>): (Response, Tables) {
    if session.None? then (Unauthorized, t)
    else if id.None? then (Error(400, "Customer ID is required"), t)
    else if !OwnsCustomer(t, session.value, id.value) then (Error(404, "Customer not found or access denied"), t)
    else if HasOrders(t, id.value) then (Error(400, "Cannot delete customer with existing orders"), t)
    else (Ok(200, id.value), t.(customers := t.customers - {id.value}))
  }

  /** No two customers with the same owner share an email; the customers the
      importer creates, which have no owner, count as one more owner. */
  ghost predicate EmailsUnique(customers: map<Id, Customer>) {
    forall a, b :: a in customers && b in customers && a != b && customers[a].owner == customers[b].owner
      ==> customers[a].email != customers[b].email
  }

  // ---------------------------------------------------------------------
  // What the handlers promise

  /** A create without a tenant, without a name or email, or with an email the
      tenant already uses is refused and changes nothing. */
  lemma CreateCustomerRefusals(t: Tables, session: Option<TenantId>, req: CustomerRequest)
    ensures session.None? ==> CreateCustomer(t, session, req) == (Unauthorized, t)
    ensures session.Some? && (!Truthy(req.name) || !Truthy(req.email)) ==>
      CreateCustomer(t, session, req) == (Error(400, "Name and email are required"), t)
    ensures (session.Some? && Truthy(req.name) && Truthy(req.email)
             && exists c :: c in t.customers && t.customers[c].owner == session && t.customers[c].email == req.email.value)
      ==> CreateCustomer(t, session, req) == (Error(400, "A customer with this email already exists"), t)
    ensures CreateCustomer(t, session, req).0.Error? ==> CreateCustomer(t, session, req).1 == t
  {
  }

  /** Uniqueness is per tenant: an email only other tenants use is accepted,
      and the new customer starts with no orders; an absent or empty phone or
      address is stored as null, any other as given. */
  lemma CreateCustomerAccepts(t: Tables, tenant: TenantId, req: CustomerRequest)
    requires Truthy(req.name) && Truthy(req.email)
    requires forall c :: c in t.customers && t.customers[c].owner == Some(tenant) ==> t.customers[c].email != req.email.value
    ensures var (resp, t') := CreateCustomer(t, Some(tenant), req);
      var c := t'.customers[t.nextId];
      && resp == Ok(201, t.nextId)
      && t'.customers == t.customers[t.nextId := c]
      && t'.products == t.products && t'.orders == t.orders
      && c.owner == Some(tenant) && c.name == req.name.value && c.email == req.email.value
      && c.totalSpent == 0 && c.visitCount == 0 && c.loyaltyPoints == 0 && c.lastVisit.None?
      && c.phone == OrNull(req.phone) && c.address == OrNull(req.address)
      && (c.phone.None? <==> !Truthy(req.phone))
      && (c.address.None? <==> !Truthy(req.address))
  {
  }

  /** An update without an id is refused, one of another tenant's customer
      is answered as if the customer did not exist, and neither changes anything. */
  lemma UpdateCustomerRefusals(t: Tables, tenant: TenantId, req: CustomerRequest)
    ensures req.id.None? ==> UpdateCustomer(t, Some(tenant), req) == (Error(400, "Customer ID is required"), t)
    ensures req.id.Some? && !OwnsCustomer(t, tenant, req.id.value) ==>
      UpdateCustomer(t, Some(tenant), req) == (Error(404, "Customer not found or access denied"), t)
    ensures UpdateCustomer(t, Some(tenant), req).0.Error? ==> UpdateCustomer(t, Some(tenant), req).1 == t
  {
  }

  /** Changing the email to one another customer of the tenant holds is refused. */
  lemma UpdateToTakenEmail(t: Tables, tenant: TenantId, req: CustomerRequest, other: Id)
    requires req.id.Some? && OwnsCustomer(t, tenant, req.id.value)
    requires req.email.Some? && req.email.value != t.customers[req.id.value].email
    requires OwnsCustomer(t, tenant, other) && other != req.id.value && t.customers[other].email == req.email.value
    ensures UpdateCustomer(t, Some(tenant), req) == (Error(400, "A customer with this email already exists"), t)
  {
  }

  /** Keeping the stored email skips the duplicate lookup. The update writes
      the name, email, phone and address and nothing else; a phone or address
      left out or empty is written as null, erasing the stored one: the aggregates
      stay, and so does every other record. */
  lemma UpdateCustomerEffect(t: Tables, tenant: TenantId, req: CustomerRequest)
    requires req.id.Some? && OwnsCustomer(t, tenant, req.id.value)
    requires req.email == Some(t.customers[req.id.value].email) || !EmailTaken(t.customers, tenant, req.email, req.id)
    ensures var (resp, t') := UpdateCustomer(t, Some(tenant), req);
      var id := req.id.value;
      var (old_, new_) := (t.customers[id], t'.customers[id]);
      && resp == Ok(200, id)
      && t'.customers == t.customers[id := new_]
      && t'.products == t.products && t'.orders == t.orders && t'.nextId == t.nextId
      && new_.owner == old_.owner
      && new_.totalSpent == old_.totalSpent && new_.visitCount == old_.visitCount
      && new_.loyaltyPoints == old_.loyaltyPoints && new_.lastVisit == old_.lastVisit
      && new_.email == (if req.email.Some? then req.email.value else old_.email)
      && new_.name == (if req.name.Some? then req.name.value else old_.name)
      && new_.phone == OrNull(req.phone) && new_.address == OrNull(req.address)
  {
  }

  /** An update that leaves the email out runs the duplicate lookup without an
      email filter, so it is refused whenever the tenant has another customer. */
  lemma UpdateWithoutEmail(t: Tables, tenant: TenantId, req: CustomerRequest, other: Id)
    requires req.id.Some? && OwnsCustomer(t, tenant, req.id.value) && req.email.None?
    requires OwnsCustomer(t, tenant, other) && other != req.id.value
    ensures UpdateCustomer(t, Some(tenant), req) == (Error(400, "A customer with this email already exists"), t)
  {
  }

  /** Delete refuses another tenant's customer and a customer with orders;
      otherwise it removes exactly that customer. */
  lemma DeleteCustomerEffect(t: Tables, tenant: TenantId, id: Id)
    ensures !OwnsCustomer(t, tenant, id) ==>
      DeleteCustomer(t, Some(tenant), Some(id)) == (Error(404, "Customer not found or access denied"), t)
    ensures OwnsCustomer(t, tenant, id) && (exists o :: o in t.orders && t.orders[o].customerId == id) ==>
      DeleteCustomer(t, Some(tenant), Some(id)) == (Error(400, "Cannot delete customer with existing orders"), t)
    ensures DeleteCustomer(t, Some(tenant), Some(id)).0.Ok? ==>
      DeleteCustomer(t, Some(tenant), Some(id)).1 == t.(customers := t.customers - {id})
      && OwnsCustomer(t, tenant, id)
  {
  }

  /** Every customer handler keeps the store invariant: in particular no
      order is left pointing at a deleted customer. */
  lemma CustomerHandlersKeepValid(t: Tables, session: Option<TenantId>, req: CustomerRequest, id: Option<Id>)
    requires Valid(t)
    ensures Valid(CreateCustomer(t, session, req).1)
    ensures Valid(UpdateCustomer(t, session, req).1)
    ensures Valid(DeleteCustomer(t, session, id).1)
  {
    CreateKeepsValid(t, session, req);
    UpdateKeepsValid(t, session, req);
    DeleteKeepsValid(t, session, id);
  }

  lemma CreateKeepsValid(t: Tables, session: Option<TenantId>, req: CustomerRequest)
    requires Valid(t)
    ensures Valid(CreateCustomer(t, session, req).1)
  {
  }

  lemma UpdateKeepsValid(t: Tables, session: Option<TenantId>, req: CustomerRequest)
    requires Valid(t)
    ensures Valid(UpdateCustomer(t, session, req).1)
  {
  }

  lemma DeleteKeepsValid(t: Tables, session: Option<TenantId>, id: Option<Id>)
    requires Valid(t)
    ensures Valid(DeleteCustomer(t, session, id).1)
  {
    var (resp, t') := DeleteCustomer(t, session, id);
    if resp.Ok? {
      forall o | o in t'.orders
        ensures t'.orders[o].customerId in t'.customers
      {
        assert t.orders[o].customerId != id.value;
      }
    }
  }

  /** Creating a customer keeps emails unique per owner. */
  lemma CreateKeepsEmailsUnique(t: Tables, session: Option<TenantId>, req: CustomerRequest)
    requires Valid(t) && EmailsUnique(t.customers)
    ensures EmailsUnique(CreateCustomer(t, session, req).1.customers)
  {
    var (created, t1) := CreateCustomer(t, session, req);
    if created.Ok? {
      var n := t.nextId;
      assert n !in t.customers;
      var c := t1.customers[n];
      assert t1.customers == t.customers[n := c];
      assert c.owner == session && c.email == req.email.value;
      forall a | a in t.customers && t.customers[a].owner == session
        ensures t.customers[a].email != c.email
      {
      }
    }
  }

  /** Updating a customer keeps emails unique per owner. */
  lemma UpdateKeepsEmailsUnique(t: Tables, session: Option<TenantId>, req: CustomerRequest)
    requires EmailsUnique(t.customers)
    ensures EmailsUnique(UpdateCustomer(t, session, req).1.customers)
  {
    var (updated, t2) := UpdateCustomer(t, session, req);
    if updated.Ok? {
      var u := req.id.value;
      var c := t2.customers[u];
      assert t2.customers == t.customers[u := c];
      assert c.owner == t.customers[u].owner == session;
      if req.email.Some? && req.email.value != t.customers[u].email {
        forall a | a in t.customers && a != u && t.customers[a].owner == session
          ensures t.customers[a].email != c.email
        {
        }
      } else {
        assert c.email == t.customers[u].email;
      }
    }
  }

  /** Deleting a customer keeps emails unique per owner. */
  lemma DeleteKeepsEmailsUnique(t: Tables, session: Option<TenantId>, id: Option<Id>)
    requires EmailsUnique(t.customers)
    ensures EmailsUnique(DeleteCustomer(t, session, id).1.customers)
  {
  }

  // ---------------------------------------------------------------------
  // The handlers, as they run against the store

  method Post(db: Store, session: Option<TenantId>, req: CustomerRequest) returns (resp: Response)
    modifies db
    ensures (resp, db.Snapshot()) == CreateCustomer(old(db.Snapshot()), session, req)
  {
    if session.None? {
      return Unauthorized;
    }
    if !Truthy(req.name) || !Truthy(req.email) {
      return Error(400, "Name and email are required");
    }
    if EmailTaken(db.customers, session.value, req.email, None) {
      return Error(400, "A customer with this email already exists");
    }
    var id := db.NewId();
    db.customers := db.customers[id := NewCustomer(session.value, req.name.value, req.email.value, req.phone, req.address)];
    resp := Ok(201, id);
  }

  method Put(db: Store, session: Option<TenantId>, req: CustomerRequest) returns (resp: Response)
    modifies db
    ensures (resp, db.Snapshot()) == UpdateCustomer(old(db.Snapshot()), session, req)
  {
    if session.None? {
      return Unauthorized;
    }
    if req.id.None? {
      return Error(400, "Customer ID is required");
    }
    var id := req.id.value;
    if !(id in db.customers && db.customers[id].owner == session) {
      return Error(404, "Customer not found or access denied");
    }
    var existing := db.customers[id];
    if req.email != Some(existing.email) {
      if EmailTaken(db.customers, session.value, req.email, Some(id)) {
        return Error(400, "A customer with this email already exists");
      }
    }
    db.customers := db.customers[id := Edited(existing, req)];
    resp := Ok(200, id);
  }

  method Delete(db: Store, session: Option<TenantId>, id: Option<Id>) returns (resp: Response)
    modifies db
    ensures (resp, db.Snapshot()) == DeleteCustomer(old(db.Snapshot()), session, id)
  {
    if session.None? {
      return Unauthorized;
    }
    if id.None? {
      return Error(400, "Customer ID is required");
    }
    if !(id.value in db.customers && db.customers[id.value].owner == session) {
      return Error(404, "Customer not found or access denied");
    }
    if exists o :: o in db.orders && db.orders[o].customerId == id.value {
      return Error(400, "Cannot delete customer with existing orders");
    }
    db.customers := db.customers - {id.value};
    resp := Ok(200, id.value);
  }
}
