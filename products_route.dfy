/**
 * The products endpoint: list a tenant's products by name, create one with a
 * checked price and cost, overwrite one, delete one. Numbers arrive already
 * parsed: an absent or unparsable number is `None`.
 */
module ProductsRoute {
  import opened Wrappers
  import opened Entities
  import opened Database

  /** The body of a create or update request. */
  datatype ProductRequest = ProductRequest(
    id: Option<Id>,
    name: Option<string>,
    description: Option<string>,
    category: Option<string>,
    price: Option<Cents>,
    cost: Option<Cents>,
    stock: Option<int>)

  predicate OwnsProduct(t: Tables, tenant: TenantId, id: Id) {
    id in t.products && t.products[id].owner == tenant
  }

  /** `parseInt(stock) || 0`: an absent stock is 0. */
  function StockOrZero(stock: Option<int>): (r: int)
    ensures stock.Some? ==> r == stock.value
    ensures stock.None? ==> r == 0
  {
    stock.GetOr(0)
  }

  /** The product a create request stores: the tenant's, active, with the given stock or none. */
  function NewProduct(tenant: TenantId, req: ProductRequest): Product
    requires req.name.Some? && req.category.Some? && req.price.Some? && req.cost.Some?
  {
    Product(tenant, req.name.value, OrNull(req.description), req.category.value,
            req.price.value, req.cost.value, StockOrZero(req.stock), true)
  }

  /** The update's data: absent name and category are left as they are,
      everything else is overwritten. */
  function Overwritten(p: Product, req: ProductRequest): Product
    requires req.price.Some? && req.cost.Some? && req.stock.Some?
  {
    p.(name := req.name.GetOr(p.name),
       description := OrNull(req.description),
       category := req.category.GetOr(p.category),
       price := req.price.value,
       cost := req.cost.value,
       stock := req.stock.value)
  }

  /** POST: what creating a product replies and leaves in the store. */
  function CreateProduct(t: Tables, session: Option<TenantId>, req: ProductRequest): (Response, Tables) {
    if session.None? then (Unauthorized, t)
    else if !Truthy(req.name) || !Truthy(req.category) || req.price.None? || req.cost.None? then
      (Error(400, "Name, category, price, and cost are required"), t)
    else if req.price.value <= 0 || req.cost.value < 0 then (Error(400, "Invalid price or cost"), t)
    else
      (Ok(201, t.nextId),
       t.(products := t.products[t.nextId := NewProduct(session.value, req)], nextId := t.nextId + 1))
  }

  /**
   * PUT: what overwriting a product replies and leaves in the store. Nothing
   * is validated; a missing price, cost or stock reaches the store as NaN,
   * which it refuses, and the handler answers with a server error.
   */
  function UpdateProduct(t: Tables, session: Option<TenantId>, req: ProductRequest): (Response, Tables) {
    if session.None? then (Unauthorized, t)
    else if req.id.None? then (Error(400, "Product ID is required"), t)
    else if !OwnsProduct(t, session.value, req.id.value) then (Error(404, "Product not found or access denied"), t)
    else if req.price.None? || req.cost.None? || req.stock.None? then (Error(500, "Failed to update product"), t)
    else
      var id := req.id.value;
      (Ok(200, id), t.(products := t.products[id := Overwritten(t.products[id], req)]))
  }

  /** DELETE: removes an owned product; orders that list it are not looked at. */
  function DeleteProduct(t: Tables, session: Option<TenantId>, id: Option<Id>): (Response, Tables) {
    if session.None? then (Unauthorized, t)
    else if id.None? then (Error(400, "Product ID is required"), t)
    else if !OwnsProduct(t, session.value, id.value) then (Error(404, "Product not found or access denied"), t)
    else (Ok(200, id.value), t.(products := t.products - {id.value}))
  }

  // ---------------------------------------------------------------------
  // Ordering by name

  /** The order of names: by character code, a proper prefix first. */
  predicate NameLess(a: string, b: string) {
    if a == [] then b != []
    else if b == [] then false
    else if a[0] != b[0] then a[0] < b[0]
    else NameLess(a[1..], b[1..])
  }

  /** Of two different names, one comes first. */
  lemma {:induction false} NameLessTotal(a: string, b: string)
    requires a != b
    ensures NameLess(a, b) || NameLess(b, a)
  {
    if a != [] && b != [] && a[0] == b[0] {
      assert a == [a[0]] + a[1..] && b == [b[0]] + b[1..];
      NameLessTotal(a[1..], b[1..]);
    }
  }

  /** The order of names is transitive. */
  lemma {:induction false} NameLessTransitive(a: string, b: string, c: string)
    requires NameLess(a, b) && NameLess(b, c)
    ensures NameLess(a, c)
  {
    if a != [] && b != [] && c != [] && a[0] == b[0] == c[0] {
      NameLessTransitive(a[1..], b[1..], c[1..]);
    }
  }

  /** Product `i` is listed no later than product `j`: by name, and by identifier among equal names. */
  predicate ListedBefore(products: map<Id, Product>, i: Id, j: Id)
    requires i in products && j in products
  {
    NameLess(products[i].name, products[j].name)
    || (products[i].name == products[j].name && i <= j)
  }

  /** Of two products, one is listed no later than the other. */
  lemma ListedBeforeTotal(products: map<Id, Product>, i: Id, j: Id)
    requires i in products && j in products
    ensures ListedBefore(products, i, j) || ListedBefore(products, j, i)
  {
    if products[i].name != products[j].name {
      NameLessTotal(products[i].name, products[j].name);
    }
  }

  predicate SortedByName(products: map<Id, Product>, s: seq<Id>)
    requires forall k :: 0 <= k < |s| ==> s[k] in products
  {
    forall k :: 0 < k < |s| ==> ListedBefore(products, s[k - 1], s[k])
  }

  /** Puts `x` into a list sorted by name, at its place. */
  function Insert(products: map<Id, Product>, x: Id, s: seq<Id>): (r: seq<Id>)
    requires x in products && forall k :: 0 <= k < |s| ==> s[k] in products
    requires SortedByName(products, s)
    ensures |r| == |s| + 1
    ensures forall y :: y in r <==> y == x || y in s
    ensures forall k :: 0 <= k < |r| ==> r[k] in products
    ensures r[0] == x || (s != [] && r[0] == s[0])
    ensures SortedByName(products, r)
    ensures x !in s && (forall a, b :: 0 <= a < b < |s| ==> s[a] != s[b]) ==>
      forall a, b :: 0 <= a < b < |r| ==> r[a] != r[b]
  {
    if s == [] then [x]
    else if ListedBefore(products, x, s[0]) then [x] + s
    else
      ListedBeforeTotal(products, x, s[0]);
      var rest := Insert(products, x, s[1..]);
      assert (x !in s && forall a, b :: 0 <= a < b < |s| ==> s[a] != s[b]) ==> s[0] !in s[1..] && s[0] !in rest;
      [s[0]] + rest
  }

  /** The identifiers of a set of products, sorted by name. */
  function SortByName(products: map<Id, Product>, ids: set<Id>): (r: seq<Id>)
    requires ids <= products.Keys
    ensures |r| == |ids|
    ensures forall y :: y in r <==> y in ids
    ensures forall k :: 0 <= k < |r| ==> r[k] in products
    ensures SortedByName(products, r)
    ensures forall a, b :: 0 <= a < b < |r| ==> r[a] != r[b]
    decreases ids
  {
    if ids == {} then []
    else
      var x := Least(ids);
      Insert(products, x, SortByName(products, ids - {x}))
  }

  /** GET: the tenant's products sorted by name. */
  function ListProducts(t: Tables, session: Option<TenantId>): (r: Option<seq<Id>>)
    ensures r.None? <==> session.None?
    ensures r.Some? ==> forall id :: id in r.value <==> OwnsProduct(t, session.value, id)
    ensures r.Some? ==> forall a, b :: 0 <= a < b < |r.value| ==> r.value[a] != r.value[b]
    ensures r.Some? ==> forall k :: 0 <= k < |r.value| ==> r.value[k] in t.products
    ensures r.Some? ==> SortedByName(t.products, r.value)
  {
    if session.None? then None
    else Some(SortByName(t.products, set id | id in t.products && t.products[id].owner == session.value))
  }

  /** The listing is in name order throughout, not only between neighbours. */
  lemma {:induction false} ListedInNameOrder(products: map<Id, Product>, s: seq<Id>, a: nat, b: nat)
    requires forall k :: 0 <= k < |s| ==> s[k] in products
    requires SortedByName(products, s)
    requires a <= b < |s|
    ensures products[s[a]].name == products[s[b]].name || NameLess(products[s[a]].name, products[s[b]].name)
    decreases b - a
  {
    if a < b {
      ListedInNameOrder(products, s, a + 1, b);
      var (x, y, z) := (products[s[a]].name, products[s[a + 1]].name, products[s[b]].name);
      if x != y && y != z {
        NameLessTransitive(x, y, z);
      }
    }
  }

  // ---------------------------------------------------------------------
  // What the handlers promise

  /** A create without a name, category, price or cost, or with a price not
      above zero or a negative cost, is refused and changes nothing. */
  lemma CreateProductRefusals(t: Tables, tenant: TenantId, req: ProductRequest)
    ensures (!Truthy(req.name) || !Truthy(req.category) || req.price.None? || req.cost.None?) ==>
      CreateProduct(t, Some(tenant), req) == (Error(400, "Name, category, price, and cost are required"), t)
    ensures (Truthy(req.name) && Truthy(req.category) && req.price.Some? && req.cost.Some?
             && (req.price.value <= 0 || req.cost.value < 0)) ==>
      CreateProduct(t, Some(tenant), req) == (Error(400, "Invalid price or cost"), t)
    ensures CreateProduct(t, Some(tenant), req).0.Error? ==> CreateProduct(t, Some(tenant), req).1 == t
  {
  }

  /** A created product takes the next id, belongs to the tenant, is active,
      has the given name and category, the description or null, a positive
      price, a cost of at least zero and the given stock or none. */
  lemma CreateProductEffect(t: Tables, tenant: TenantId, req: ProductRequest)
    requires CreateProduct(t, Some(tenant), req).0.Ok?
    ensures var (resp, t') := CreateProduct(t, Some(tenant), req);
      var p := t'.products[t.nextId];
      && resp == Ok(201, t.nextId)
      && t'.products == t.products[t.nextId := p]
      && t'.customers == t.customers && t'.orders == t.orders
      && p.owner == tenant && p.isActive
      && p.price > 0 && p.cost >= 0
      && p.price == req.price.value && p.cost == req.cost.value
      && p.stock == (if req.stock.Some? then req.stock.value else 0)
      && p.name == req.name.value && p.category == req.category.value
      && p.description == OrNull(req.description)
      && t'.nextId == t.nextId + 1
  {
  }

  /** An update without an id is a 400 and one of another tenant's product is
      answered as if it did not exist. A missing price, cost or stock makes the
      store refuse the write: a 500 with nothing changed. Otherwise the
      request's fields are written as they come, unchecked (an absent name or
      category keeps the old one, an empty description becomes null), and
      nothing but that product changes. */
  lemma UpdateProductEffect(t: Tables, tenant: TenantId, req: ProductRequest)
    ensures req.id.None? ==> UpdateProduct(t, Some(tenant), req) == (Error(400, "Product ID is required"), t)
    ensures req.id.Some? && !OwnsProduct(t, tenant, req.id.value) ==>
      UpdateProduct(t, Some(tenant), req) == (Error(404, "Product not found or access denied"), t)
    ensures req.id.Some? && OwnsProduct(t, tenant, req.id.value)
            && (req.price.None? || req.cost.None? || req.stock.None?) ==>
      UpdateProduct(t, Some(tenant), req) == (Error(500, "Failed to update product"), t)
    ensures (req.id.Some? && OwnsProduct(t, tenant, req.id.value) && req.price.Some? && req.cost.Some? && req.stock.Some?) ==>
      var (resp, t') := UpdateProduct(t, Some(tenant), req);
      var id := req.id.value;
      var old_ := t.products[id];
      var p := t'.products[id];
      && resp == Ok(200, id)
      && t'.products == t.products[id := p]
      && t'.customers == t.customers && t'.orders == t.orders && t'.nextId == t.nextId
      && p.owner == tenant && p.isActive == old_.isActive
      && p.name == req.name.GetOr(old_.name) && p.category == req.category.GetOr(old_.category)
      && p.description == OrNull(req.description)
      && p.price == req.price.value && p.cost == req.cost.value && p.stock == req.stock.value
  {
  }

  /** The update writes a zero or negative price that the create handler refuses. */
  lemma UpdateAcceptsWhatCreateRefuses(t: Tables, tenant: TenantId, req: ProductRequest)
    requires req.id.Some? && OwnsProduct(t, tenant, req.id.value)
    requires Truthy(req.name) && Truthy(req.category) && req.cost == Some(0) && req.stock.Some?
    requires req.price == Some(0)
    ensures CreateProduct(t, Some(tenant), req).0 == Error(400, "Invalid price or cost")
    ensures UpdateProduct(t, Some(tenant), req).0 == Ok(200, req.id.value)
    ensures UpdateProduct(t, Some(tenant), req).1.products[req.id.value].price == 0
  {
  }

  /** Delete removes exactly an owned product, even one that orders still list. */
  lemma DeleteProductEffect(t: Tables, tenant: TenantId, id: Id)
    ensures !OwnsProduct(t, tenant, id) ==>
      DeleteProduct(t, Some(tenant), Some(id)) == (Error(404, "Product not found or access denied"), t)
    ensures OwnsProduct(t, tenant, id) ==>
      DeleteProduct(t, Some(tenant), Some(id)) == (Ok(200, id), t.(products := t.products - {id}))
  {
  }

  /** Every product handler keeps the store invariant. */
  lemma ProductHandlersKeepValid(t: Tables, session: Option<TenantId>, req: ProductRequest, id: Option<Id>)
    requires Valid(t)
    ensures Valid(CreateProduct(t, session, req).1)
    ensures Valid(UpdateProduct(t, session, req).1)
    ensures Valid(DeleteProduct(t, session, id).1)
  {
    CreateProductKeepsValid(t, session, req);
    UpdateProductKeepsValid(t, session, req);
  }

  lemma CreateProductKeepsValid(t: Tables, session: Option<TenantId>, req: ProductRequest)
    requires Valid(t)
    ensures Valid(CreateProduct(t, session, req).1)
  {
  }

  lemma UpdateProductKeepsValid(t: Tables, session: Option<TenantId>, req: ProductRequest)
    requires Valid(t)
    ensures Valid(UpdateProduct(t, session, req).1)
  {
  }

  // ---------------------------------------------------------------------
  // The handlers, as they run against the store

  method Post(db: Store, session: Option<TenantId>, req: ProductRequest) returns (resp: Response)
    modifies db
    ensures (resp, db.Snapshot()) == CreateProduct(old(db.Snapshot()), session, req)
  {
    if session.None? {
      return Unauthorized;
    }
    if !Truthy(req.name) || !Truthy(req.category) || req.price.None? || req.cost.None? {
      return Error(400, "Name, category, price, and cost are required");
    }
    if req.price.value <= 0 || req.cost.value < 0 {
      return Error(400, "Invalid price or cost");
    }
    var id := db.NewId();
    db.products := db.products[id := NewProduct(session.value, req)];
    resp := Ok(201, id);
  }

  method Put(db: Store, session: Option<TenantId>, req: ProductRequest) returns (resp: Response)
    modifies db
    ensures (resp, db.Snapshot()) == UpdateProduct(old(db.Snapshot()), session, req)
  {
    if session.None? {
      return Unauthorized;
    }
    if req.id.None? {
      return Error(400, "Product ID is required");
    }
    var id := req.id.value;
    if !(id in db.products && db.products[id].owner == session.value) {
      return Error(404, "Product not found or access denied");
    }
    if req.price.None? || req.cost.None? || req.stock.None? {
      return Error(500, "Failed to update product");
    }
    db.products := db.products[id := Overwritten(db.products[id], req)];
    resp := Ok(200, id);
  }

  method Delete(db: Store, session: Option<TenantId>, id: Option<Id>) returns (resp: Response)
    modifies db
    ensures (resp, db.Snapshot()) == DeleteProduct(old(db.Snapshot()), session, id)
  {
    if session.None? {
      return Unauthorized;
    }
    if id.None? {
      return Error(400, "Product ID is required");
    }
    if !(id.value in db.products && db.products[id.value].owner == session.value) {
      return Error(404, "Product not found or access denied");
    }
    db.products := db.products - {id.value};
    resp := Ok(200, id.value);
  }
}
