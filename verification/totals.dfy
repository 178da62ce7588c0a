/** frontend/src/context/DataContext.jsx: the shared client state (orders and
    designs as fetched) and the figures derived from it whenever it changes:
    the distinct customer names and the sales total and profit. */
module SalesTotals {
  import opened Wrappers
  import opened Records
  import opened Seqs
  import Server

  /** `designs.find(d => d.code === code)`: the first design with that code. */
  function FindDesign(designs: seq<Design>, code: string): (r: Option<Design>)
    ensures r.Some? ==> r.value in designs && r.value.code == code
    ensures r.None? <==> forall d :: d in designs ==> d.code != code
    ensures r.Some? ==> exists i :: 0 <= i < |designs| && designs[i] == r.value
                          && forall j :: 0 <= j < i ==> designs[j].code != code
  {
    if designs == [] then None
    else if designs[0].code == code then Some(designs[0])
    else
      var r := FindDesign(designs[1..], code);
      if r.None? then r
      else
        var i :| 0 <= i < |designs[1..]| && designs[1..][i] == r.value
                 && forall j :: 0 <= j < i ==> designs[1..][j].code != code;
        assert designs[i + 1] == r.value;
        r
  }

  /** What one order adds to the sales total: its price once delivered, its
      deposit before. */
  function SaleAmount(o: Order): Money {
    if o.isDelivered then o.price else o.deposit
  }

  /** What one order adds to the profit: nothing until delivered, nothing
      when no design carries its code, otherwise its price less the cost of
      the first design with its code. */
  function OrderProfit(o: Order, designs: seq<Design>): (p: Money)
    ensures !o.isDelivered ==> p == 0
    ensures FindDesign(designs, o.abayaCode).None? ==> p == 0
    ensures o.isDelivered && FindDesign(designs, o.abayaCode).Some? ==>
      p == o.price - FindDesign(designs, o.abayaCode).value.costPrice
  {
    if !o.isDelivered then 0
    else match FindDesign(designs, o.abayaCode)
      case None => 0
      case Some(d) => o.price - d.costPrice
  }

  /** `orders.reduce((sum, o) => sum + (o.isDelivered ? price : deposit), 0)`. */
  function SalesTotal(orders: seq<Order>): Money {
    if orders == [] then 0
    else SalesTotal(orders[..|orders| - 1]) + SaleAmount(orders[|orders| - 1])
  }

  /** The profit `reduce`. */
  function Profit(orders: seq<Order>, designs: seq<Design>): Money {
    if orders == [] then 0
    else Profit(orders[..|orders| - 1], designs) + OrderProfit(orders[|orders| - 1], designs)
  }

  /** The total is additive: the total of `a + b` is the total of `a` plus that of `b`. */
  lemma {:induction false} SalesTotalAppend(a: seq<Order>, b: seq<Order>)
    ensures SalesTotal(a + b) == SalesTotal(a) + SalesTotal(b)
    decreases |b|
  {
    if b == [] {
      assert a + b == a;
    } else {
      SalesTotalAppend(a, b[..|b| - 1]);
      assert (a + b)[..|a + b| - 1] == a + b[..|b| - 1];
    }
  }

  /** The profit is additive in the same way. */
  lemma {:induction false} ProfitAppend(a: seq<Order>, b: seq<Order>, designs: seq<Design>)
    ensures Profit(a + b, designs) == Profit(a, designs) + Profit(b, designs)
    decreases |b|
  {
    if b == [] {
      assert a + b == a;
    } else {
      ProfitAppend(a, b[..|b| - 1], designs);
      assert (a + b)[..|a + b| - 1] == a + b[..|b| - 1];
    }
  }

  /** Orders that are all undelivered make no profit and add their deposits. */
  lemma {:induction false} UndeliveredMakeNoProfit(orders: seq<Order>, designs: seq<Design>)
    requires forall o :: o in orders ==> !o.isDelivered
    ensures Profit(orders, designs) == 0
    decreases |orders|
  {
    if orders != [] {
      assert orders[|orders| - 1] in orders;
      UndeliveredMakeNoProfit(orders[..|orders| - 1], designs);
    }
  }

  /** Marking an undelivered order delivered moves it from its deposit to its
      price in the total, and from no profit to price less cost when a design
      carries its code. */
  lemma DeliveryMovesSale(o: Order, designs: seq<Design>)
    requires !o.isDelivered
    ensures SaleAmount(o) == o.deposit && OrderProfit(o, designs) == 0
    ensures var d := Server.SetDelivery(o, Some(true));
      && SaleAmount(d) == o.price
      && OrderProfit(d, designs) == (if FindDesign(designs, o.abayaCode).Some?
                                     then o.price - FindDesign(designs, o.abayaCode).value.costPrice else 0)
  {
  }

  function CustomerNames(orders: seq<Order>): (r: seq<string>)
    ensures |r| == |orders|
    ensures forall i :: 0 <= i < |orders| ==> r[i] == orders[i].customerName
  {
    seq(|orders|, i requires 0 <= i < |orders| => orders[i].customerName)
  }

  /** `[...new Set(orders.map(o => o.customerName))]`. */
  function UniqueCustomers(orders: seq<Order>): seq<string> {
    InsertAll([], CustomerNames(orders))
  }

  /** Each customer name appears once, every order's name appears, and the
      names come in order of first appearance. */
  lemma UniqueCustomersSpec(orders: seq<Order>)
    ensures UniqueCustomers(orders) == FirstOccurrences(CustomerNames(orders))
    ensures Distinct(UniqueCustomers(orders))
    ensures forall name :: name in UniqueCustomers(orders) <==> exists o :: o in orders && o.customerName == name
  {
    SetSpreadIsFirstOccurrences(CustomerNames(orders));
    FirstOccurrencesSpec(CustomerNames(orders));
    forall name | name in CustomerNames(orders) ensures exists o :: o in orders && o.customerName == name {
      var i :| 0 <= i < |orders| && CustomerNames(orders)[i] == name;
      assert orders[i] in orders;
    }
    forall o | o in orders ensures o.customerName in CustomerNames(orders) {
      var i :| 0 <= i < |orders| && orders[i] == o;
      assert CustomerNames(orders)[i] == o.customerName;
    }
  }

  datatype Sales = Sales(total: Money, profit: Money)

  /** The provider's state. */
  class DataProvider {
    var orders: seq<Order>
    var designs: seq<Design>
    var customers: seq<string>
    var sales: Sales

    constructor ()
      ensures orders == [] && designs == [] && customers == [] && sales == Sales(0, 0)
    {
      orders, designs, customers, sales := [], [], [], Sales(0, 0);
    }

    /** A successful fetch stores both lists; the derived-data effect then
        recomputes the customers and the sales figures, unless there are no
        orders, in which case both keep their previous values. */
    method Receive(fetchedOrders: seq<Order>, fetchedDesigns: seq<Design>)
      modifies this
      ensures orders == fetchedOrders && designs == fetchedDesigns
      ensures |fetchedOrders| > 0 ==>
        && customers == UniqueCustomers(fetchedOrders)
        && sales == Sales(SalesTotal(fetchedOrders), Profit(fetchedOrders, fetchedDesigns))
      ensures |fetchedOrders| == 0 ==> customers == old(customers) && sales == old(sales)
    {
      orders, designs := fetchedOrders, fetchedDesigns;
      if |orders| > 0 {
        customers := UniqueCustomers(orders);
        sales := Sales(SalesTotal(orders), Profit(orders, designs));
      }
    }
  }
}
