/** The three relations the transactional service touches: Customer, `Order` (each
    owned by one customer) and Order_Product (each line owned by one order), with the
    foreign keys between them, and the three DELETE statements of the cascade. */
module Relations {
  import opened JavaLang
  import opened CustomerTable

  /** A row of `Order`: its date (as a day number) and the customer that owns it. */
  datatype OrderRow = OrderRow(orderDate: int, customerId: Int32)

  /** A row of Order_Product, stored under its key (order_id, product_id). */
  datatype LineRow = LineRow(quantity: Int32)

  datatype Tables = Tables(
    customers: map<Int32, Row>,
    orders: map<Int32, OrderRow>,
    lines: map<(Int32, Int32), LineRow>)

  /** Every order names an existing customer and every line an existing order. */
  ghost predicate KeysResolve(t: Tables) {
    && (forall o :: o in t.orders ==> t.orders[o].customerId in t.customers)
    && (forall k :: k in t.lines ==> k.0 in t.orders)
  }

  /** Order `o` exists and belongs to customer `cid`. */
  predicate OwnedBy(t: Tables, o: Int32, cid: Int32) {
    o in t.orders && t.orders[o].customerId == cid
  }

  /** `DELETE op FROM Order_Product op JOIN `Order` o ON op.order_id = o.order_id
      WHERE o.customer_id = ?`: the lines of the customer's orders go, nothing else. */
  function DeleteLinesOf(t: Tables, cid: Int32): (r: Tables)
    ensures r.customers == t.customers && r.orders == t.orders
    ensures forall k :: k in r.lines <==> k in t.lines && !OwnedBy(t, k.0, cid)
    ensures forall k :: k in r.lines ==> r.lines[k] == t.lines[k]
  {
    t.(lines := map k | k in t.lines && !OwnedBy(t, k.0, cid) :: t.lines[k])
  }

  /** `DELETE FROM `Order` WHERE customer_id = ?`. Order_Product.order_id is declared
      ON DELETE CASCADE, so the lines of the deleted orders go with them. */
  function DeleteOrdersOf(t: Tables, cid: Int32): (r: Tables)
    ensures r.customers == t.customers
    ensures forall o :: o in r.orders <==> o in t.orders && !OwnedBy(t, o, cid)
    ensures forall o :: o in r.orders ==> r.orders[o] == t.orders[o]
    ensures forall k :: k in r.lines <==> k in t.lines && !OwnedBy(t, k.0, cid)
    ensures forall k :: k in r.lines ==> r.lines[k] == t.lines[k]
  {
    Tables(t.customers,
           map o | o in t.orders && !OwnedBy(t, o, cid) :: t.orders[o],
           map k | k in t.lines && !OwnedBy(t, k.0, cid) :: t.lines[k])
  }

  /** `DELETE FROM Customer WHERE customer_id = ?`, with the number of rows affected.
      `Order`.customer_id is declared ON DELETE CASCADE, so the customer's orders and
      their lines go with the row. */
  function DeleteCustomerRow(t: Tables, cid: Int32): (r: (Tables, nat))
    ensures r.0 == DeleteOrdersOf(t, cid).(customers := t.customers - {cid})
    ensures r.1 == 1 <==> cid in t.customers
    ensures r.1 <= 1
  {
    (DeleteOrdersOf(t, cid).(customers := t.customers - {cid}), if cid in t.customers then 1 else 0)
  }

  /** The three statements of deleteCustomer in the order the source runs them. */
  function Cascade(t: Tables, cid: Int32): Tables {
    DeleteCustomerRow(DeleteOrdersOf(DeleteLinesOf(t, cid), cid), cid).0
  }

  /** After the cascade nothing of the customer is left: not its row, not its orders,
      not the lines of those orders. */
  lemma CascadeRemovesOwned(t: Tables, cid: Int32)
    ensures var r := Cascade(t, cid);
            && cid !in r.customers
            && (forall o :: o in r.orders ==> r.orders[o].customerId != cid)
            && (forall k :: k in r.lines ==> !OwnedBy(t, k.0, cid))
  {
  }

  /** The cascade keeps every other customer, every order of another customer and
      every line of such an order, unchanged, and adds nothing. */
  lemma CascadeKeepsOthers(t: Tables, cid: Int32)
    ensures var r := Cascade(t, cid);
            && (forall id :: id in t.customers && id != cid ==> id in r.customers && r.customers[id] == t.customers[id])
            && (forall o :: o in t.orders && !OwnedBy(t, o, cid) ==> o in r.orders && r.orders[o] == t.orders[o])
            && (forall k :: k in t.lines && !OwnedBy(t, k.0, cid) ==> k in r.lines && r.lines[k] == t.lines[k])
            && r.customers.Keys <= t.customers.Keys && r.orders.Keys <= t.orders.Keys && r.lines.Keys <= t.lines.Keys
  {
  }

  /** The explicit statements remove exactly what the schema's ON DELETE CASCADE would
      remove for the single `DELETE FROM Customer`: deleting the lines and the orders
      first changes nothing in the end result. */
  lemma CascadeMatchesSchemaCascade(t: Tables, cid: Int32)
    ensures Cascade(t, cid) == DeleteCustomerRow(t, cid).0
  {
    var t1 := DeleteLinesOf(t, cid);
    var t2 := DeleteOrdersOf(t1, cid);
    var a, b := Cascade(t, cid), DeleteCustomerRow(t, cid).0;
    assert forall o :: OwnedBy(t1, o, cid) <==> OwnedBy(t, o, cid);
    assert a.orders == b.orders;
    assert a.lines == b.lines;
  }

  /** For a customer that has no row and no orders the cascade removes nothing. */
  lemma CascadeOfAbsentCustomerIsIdentity(t: Tables, cid: Int32)
    requires cid !in t.customers
    requires forall o :: o in t.orders ==> t.orders[o].customerId != cid
    ensures Cascade(t, cid) == t
  {
    var t1 := DeleteLinesOf(t, cid);
    assert t1.lines == t.lines;
    var t2 := DeleteOrdersOf(t1, cid);
    assert t2.orders == t.orders && t2.lines == t.lines;
    assert t2.customers - {cid} == t.customers;
  }

  /** Running the cascade a second time for the same customer removes nothing more:
      a transaction that repeats the three DELETEs after another session committed
      them ends with the tables that session left. */
  lemma CascadeIsIdempotent(t: Tables, cid: Int32)
    ensures Cascade(Cascade(t, cid), cid) == Cascade(t, cid)
  {
    CascadeRemovesOwned(t, cid);
    CascadeOfAbsentCustomerIsIdentity(Cascade(t, cid), cid);
  }

  /** Each statement keeps every foreign key resolving. */
  lemma StatementsKeepKeysResolving(t: Tables, cid: Int32)
    requires KeysResolve(t)
    ensures KeysResolve(DeleteLinesOf(t, cid))
    ensures KeysResolve(DeleteOrdersOf(t, cid))
    ensures KeysResolve(DeleteCustomerRow(t, cid).0)
  {
    var r := DeleteCustomerRow(t, cid).0;
    forall o | o in r.orders
      ensures r.orders[o].customerId in r.customers
    {
      assert o in t.orders && !OwnedBy(t, o, cid);
    }
  }

  /** Adding customers never breaks a foreign key. */
  lemma MoreCustomersKeepKeysResolving(t: Tables, customers: map<Int32, Row>)
    requires KeysResolve(t) && t.customers.Keys <= customers.Keys
    ensures KeysResolve(t.(customers := customers))
  {
  }
}
