/**
 * The persistent store behind the route handlers: one table per record kind,
 * each a map from identifier to record, which the handlers read and update
 * in place. The store hands out a fresh identifier for every record created.
 */
module Database {
  import opened Entities

  class Store {
    var customers: map<Id, Customer>
    var products: map<Id, Product>
    var orders: map<Id, Order>
    var nextId: Id

    /** The store's contents as a value, for stating what a handler does to them. */
    function Snapshot(): Tables
      reads this
    {
      Tables(customers, products, orders, nextId)
    }

    constructor ()
      ensures Snapshot() == Tables(map[], map[], map[], 0)
      ensures Valid(Snapshot())
    {
      customers, products, orders, nextId := map[], map[], map[], 0;
    }

    /** Reserves the identifier of a record about to be created. */
    method NewId() returns (id: Id)
      modifies this`nextId
      ensures id == old(nextId) && nextId == id + 1
    {
      id := nextId;
      nextId := nextId + 1;
    }
  }
}
