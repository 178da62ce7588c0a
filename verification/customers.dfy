/** frontend/src/pages/Customers.jsx: the page keeps its own copy of the
    orders and toggles an order's delivery through the server, then patches
    its copy with the two fields the server answered with. */
module CustomersPage {
  import opened Wrappers
  import opened Records
  import opened Server
  import OrderStatus

  /** `prev.map(o => o._id === id ? { ...o, isDelivered, status } : o)`. */
  function ReplaceDelivery(orders: seq<Order>, id: Id, isDelivered: bool, status: string): (r: seq<Order>)
    ensures |r| == |orders|
    ensures forall i :: 0 <= i < |orders| && orders[i].id != id ==> r[i] == orders[i]
    ensures forall i :: 0 <= i < |orders| && orders[i].id == id ==>
      r[i] == orders[i].(isDelivered := isDelivered, status := status)
  {
    seq(|orders|, i requires 0 <= i < |orders| =>
      if orders[i].id == id then orders[i].(isDelivered := isDelivered, status := status) else orders[i])
  }

  /** The local patch agrees with the server's update: on a copy of the
      server's orders it gives exactly the server's new list, and an id the
      server does not know leaves the copy as it is. */
  lemma ReplaceMatchesServer(orders: seq<Order>, id: Id, b: bool)
    requires forall i, j :: 0 <= i < j < |orders| ==> orders[i].id != orders[j].id
    ensures OrderIndex(orders, id).None? ==>
      ReplaceDelivery(orders, id, b, OrderStatus.WriteTimeStatus(b)) == orders
    ensures OrderIndex(orders, id).Some? ==>
      var k := OrderIndex(orders, id).value;
      ReplaceDelivery(orders, id, b, OrderStatus.WriteTimeStatus(b)) == orders[k := SetDelivery(orders[k], Some(b))]
  {
    var r := ReplaceDelivery(orders, id, b, OrderStatus.WriteTimeStatus(b));
    match OrderIndex(orders, id)
    case None =>
      forall i | 0 <= i < |orders| ensures r[i] == orders[i] {
        assert orders[i] in orders;
      }
    case Some(k) =>
      forall i | 0 <= i < |orders| ensures r[i] == orders[k := SetDelivery(orders[k], Some(b))][i] {
        if i != k {
          assert orders[i].id != orders[k].id;
        }
      }
  }

  /** Whether the page lists an order with that id. */
  predicate Lists(orders: seq<Order>, id: Id) {
    exists i :: 0 <= i < |orders| && orders[i].id == id
  }

  class CustomersView {
    var orders: seq<Order>
    /** The state updater threw while the page rendered; with no error
        boundary the page is gone. */
    var crashed: bool

    constructor ()
      ensures orders == [] && !crashed
    {
      orders, crashed := [], false;
    }

    /** `fetchOrders`: the list the server answered with. */
    method Load(data: seq<Order>)
      modifies this
      ensures orders == data && crashed == old(crashed)
    {
      orders := data;
    }

    /** `toggleDelivered(id, currentValue)`: asks the server to set the
        opposite of the current value; when the server answers with the
        updated order, only the order with that id changes, and only in its
        two delivery fields. When the server does not know the id it answers
        null; the updater then reads a field of null for every listed order
        with that id, so the page crashes when it still lists one (an order
        deleted elsewhere), and nothing happens when it lists none. */
    method ToggleDelivered(id: Id, currentValue: bool, server: RecordStore)
      requires server.Valid()
      modifies this, server
      ensures server.Valid()
      ensures server.users == old(server.users) && server.designs == old(server.designs)
      ensures OrderIndex(old(server.orders), id).None? ==>
        && orders == old(orders) && server.orders == old(server.orders)
        && (crashed <==> old(crashed) || Lists(old(orders), id))
      ensures OrderIndex(old(server.orders), id).Some? ==>
        && crashed == old(crashed)
        && orders == ReplaceDelivery(old(orders), id, !currentValue, OrderStatus.WriteTimeStatus(!currentValue))
        && var k := OrderIndex(old(server.orders), id).value;
           server.orders == old(server.orders)[k := SetDelivery(old(server.orders)[k], Some(!currentValue))]
    {
      var updated := server.UpdateOrder(id, Some(!currentValue));
      match updated
      case None =>
        if Lists(orders, id) {
          crashed := true;
        }
      case Some(u) =>
        orders := ReplaceDelivery(orders, id, u.isDelivered, u.status);
    }
  }

  /** A copy loaded from the server stays equal to the server's list through
      a toggle. */
  method ToggleKeepsCopyInSync(view: CustomersView, server: RecordStore, id: Id, currentValue: bool)
    requires server.Valid() && view.orders == server.orders
    modifies view, server
    ensures view.orders == server.orders
    ensures view.crashed == old(view.crashed)
  {
    ReplaceMatchesServer(server.orders, id, !currentValue);
    if OrderIndex(server.orders, id).None? {
      assert !Lists(server.orders, id);
    }
    view.ToggleDelivered(id, currentValue, server);
  }
}
