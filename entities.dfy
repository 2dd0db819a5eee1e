/**
 * The records the handlers keep in the store, the shape of their JSON
 * replies, and the query helpers the store offers (`findFirst`).
 *
 * Every record carries the tenant (the signed-in user) that owns it.
 * Money is kept in integer cents, so a price of 4.99 is 499.
 */
module Entities {
  import opened Wrappers

  type Id = nat
  type TenantId = nat

  /** An amount of money in cents. */
  type Cents = int

  /** A point in time: a reading of the clock (`new Date()`), or the date a
      row's text names (`new Date(text)`), kept as that text. */
  datatype Instant = Clock(ms: int) | FromText(text: string)

  /** A customer and the aggregates kept over its orders. The owner is
      absent for customers the bulk importer creates. */
  datatype Customer = Customer(
    owner: Option<TenantId>,
    name: string,
    email: string,
    phone: Option<string>,
    address: Option<string>,
    totalSpent: Cents,
    visitCount: int,
    loyaltyPoints: int,
    lastVisit: Option<Instant>)

  datatype Product = Product(
    owner: TenantId,
    name: string,
    description: Option<string>,
    category: string,
    price: Cents,
    cost: Cents,
    stock: int,
    isActive: bool)

  /** One line of an order, with the unit price the product had when the order was placed. */
  datatype OrderItem = OrderItem(productId: Id, quantity: int, price: Cents)

  /** An order; `status` is whatever text the client sent. */
  datatype Order = Order(
    owner: TenantId,
    customerId: Id,
    total: Cents,
    status: string,
    paymentMethod: string,
    orderDate: Instant,
    items: seq<OrderItem>)

  /** The store's three tables, and the next identifier it will hand out. */
  datatype Tables = Tables(
    customers: map<Id, Customer>,
    products: map<Id, Product>,
    orders: map<Id, Order>,
    nextId: Id)

  /** What a handler answers: a success status with the record concerned,
      or an error status with the JSON body's `error` text. */
  datatype Response = Ok(status: int, id: Id) | Error(status: int, message: string)

  const Unauthorized: Response := Error(401, "Unauthorized")

  /** The `{success, failed, errors}` summary of a bulk import. */
  datatype ImportResult = ImportResult(success: nat, failed: nat, errors: seq<string>)

  /** What an importer answers: the summary, or the reply that refuses the whole request. */
  datatype ImportReply = Imported(result: ImportResult) | Refused(response: Response)

  /** What became of one row of an import. */
  datatype RowOutcome = Done | Failed(message: string)

  /** The counters after one more row. */
  function Tally(r: ImportResult, outcome: RowOutcome): (r': ImportResult)
    ensures r'.success + r'.failed == r.success + r.failed + 1
    ensures |r'.errors| - r'.failed == |r.errors| - r.failed
  {
    match outcome
    case Done => r.(success := r.success + 1)
    case Failed(message) => r.(failed := r.failed + 1, errors := r.errors + [message])
  }

  /** An optional field printed into a template literal: its text, or `undefined`. */
  function Printed(o: Option<string>): (r: string)
    ensures o.Some? ==> r == o.value
    ensures o.None? ==> r == "undefined"
  {
    if o.Some? then o.value else "undefined"
  }

  /** The text of what the store threw for a row: the message it gave, if the model was given one. */
  function Thrown(storeErrors: map<nat, string>, row: nat): (r: string)
    ensures row in storeErrors ==> r == storeErrors[row]
  {
    if row in storeErrors then storeErrors[row] else "Error"
  }

  /** JavaScript truthiness of an optional string field: present and not empty. */
  predicate Truthy(o: Option<string>) {
    o.Some? && o.value != ""
  }

  /** `field || null`. */
  function OrNull(o: Option<string>): (r: Option<string>)
    ensures r.Some? <==> Truthy(o)
    ensures r.Some? ==> r == o
  {
    if Truthy(o) then o else None
  }

  /** `field || fallback`. */
  function OrDefault(o: Option<string>, fallback: string): (r: string)
    ensures Truthy(o) ==> r == o.value
    ensures !Truthy(o) ==> r == fallback
  {
    if Truthy(o) then o.value else fallback
  }

  /** The store invariant: every identifier in use is below `nextId`, so the
      next one handed out is fresh, and every order's customer exists. */
  ghost predicate Valid(t: Tables) {
    && (forall id :: id in t.customers ==> id < t.nextId)
    && (forall id :: id in t.products ==> id < t.nextId)
    && (forall id :: id in t.orders ==> id < t.nextId)
    && (forall id :: id in t.orders ==> t.orders[id].customerId in t.customers)
  }

  /** Every non-empty set of naturals has a least element. */
  lemma {:induction false} LeastExists(s: set<nat>)
    requires s != {}
    ensures exists x :: x in s && IsLeast(x, s)
  {
    var x :| x in s;
    if s == {x} {
      assert IsLeast(x, s);
    } else {
      var rest := s - {x};
      LeastExists(rest);
      var m :| m in rest && IsLeast(m, rest);
      var least := if x < m then x else m;
      forall y | y in s
        ensures least <= y
      {
        if y != x {
          assert y in rest;
        }
      }
      assert least in s && IsLeast(least, s);
    }
  }

  predicate IsLeast(x: nat, s: set<nat>) {
    forall y :: y in s ==> x <= y
  }

  function Least(s: set<nat>): (r: nat)
    requires s != {}
    ensures r in s && forall y :: y in s ==> r <= y
  {
    LeastExists(s);
    var x :| x in s && IsLeast(x, s);
    x
  }

  /** `findFirst` with a filter: the matching record with the lowest identifier, if any. */
  function FirstWhere<V>(m: map<Id, V>, keep: V -> bool): (r: Option<Id>)
    ensures r.Some? ==> r.value in m && keep(m[r.value])
    ensures r.Some? ==> forall k :: k in m && keep(m[k]) ==> r.value <= k
    ensures r.None? ==> forall k :: k in m ==> !keep(m[k])
  {
    var hits := set k | k in m && keep(m[k]);
    if hits == {} then
      assert forall k :: k in m ==> (keep(m[k]) ==> k in hits);
      None
    else
      var least := Least(hits);
      assert forall k :: k in m ==> (keep(m[k]) ==> k in hits);
      Some(least)
  }
}
