/** frontend/src/pages/Dashboard.jsx: the figures on the home page of an
    administrator: the most frequent customer and design, the design shown
    with its picture, the sales per month and the five orders at the end of
    the fetched list. */
module Dashboard {
  import opened Wrappers
  import opened Records
  import opened Seqs
  import opened Tally
  import opened SalesTotals

  const NoData: string := "-"

  /** Each key paired with a count of one. */
  function Ones(keys: seq<string>): (ps: seq<(string, int)>)
    ensures KeysOf(ps) == keys
  {
    var ps := seq(|keys|, i requires 0 <= i < |keys| => (keys[i], 1));
    assert KeysOf(ps) == keys;
    ps
  }

  /** How often `k` occurs in `keys`. */
  function Occurrences(keys: seq<string>, k: string): int {
    SumAt(Ones(keys), k)
  }

  function AbayaCodes(orders: seq<Order>): (r: seq<string>)
    ensures |r| == |orders| && forall i :: 0 <= i < |orders| ==> r[i] == orders[i].abayaCode
  {
    seq(|orders|, i requires 0 <= i < |orders| => orders[i].abayaCode)
  }

  /** One `forEach` that adds each pair's value to its key's entry in an
      object that starts empty. */
  method GroupInPlace(ps: seq<(string, int)>) returns (table: seq<(string, int)>)
    ensures table == Group(ps)
    ensures KeysOf(table) == FirstOccurrences(KeysOf(ps))
    ensures forall j :: 0 <= j < |table| ==> table[j].1 == SumAt(ps, table[j].0)
    ensures Total(table) == Total(ps)
  {
    table := [];
    for i := 0 to |ps|
      invariant table == Group(ps[..i])
    {
      assert ps[..i + 1][..i] == ps[..i];
      var (key, value) := ps[i];
      match IndexOfKey(table, key)
      case Some(j) =>
        table := table[j := (key, table[j].1 + value)];
      case None =>
        table := table + [(key, value)];
    }
    assert ps[..|ps|] == ps;
    GroupSpec(ps);
    GroupTotal(ps);
  }

  /** `Object.entries(count).sort((a, b) => b[1] - a[1])[0][0]`: the key of
      an entry with the largest count. The scan keeps the first of equal
      counts, as the stable sort does. */
  method TopEntry(table: seq<(string, int)>) returns (key: string)
    requires table != []
    ensures exists j :: 0 <= j < |table| && table[j].0 == key &&
              forall i :: 0 <= i < |table| ==> table[i].1 <= table[j].1
  {
    var best := 0;
    for i := 1 to |table|
      invariant 0 <= best < |table|
      invariant forall m :: 0 <= m < i ==> table[m].1 <= table[best].1
    {
      if table[i].1 > table[best].1 {
        best := i;
      }
    }
    key := table[best].0;
  }

  /** `mostActiveCustomer` and `mostOrderedDesign`: "-" when there are no
      orders, otherwise a key occurring in the list at least as often as
      any other. */
  method MostFrequent(keys: seq<string>) returns (top: string)
    ensures keys == [] ==> top == NoData
    ensures keys != [] ==> top in keys && forall k :: k in keys ==> Occurrences(keys, k) <= Occurrences(keys, top)
  {
    if |keys| == 0 {
      return NoData;
    }
    var count := GroupInPlace(Ones(keys));
    top := TopEntry(count);
    var j :| 0 <= j < |count| && count[j].0 == top &&
             forall i :: 0 <= i < |count| ==> count[i].1 <= count[j].1;
    LargestCountIsMostFrequent(keys, count, j);
  }

  /** An entry of the count table whose count is largest names a key that
      occurs at least as often as any other. */
  lemma LargestCountIsMostFrequent(keys: seq<string>, count: seq<(string, int)>, j: int)
    requires KeysOf(count) == FirstOccurrences(keys)
    requires forall i :: 0 <= i < |count| ==> count[i].1 == Occurrences(keys, count[i].0)
    requires 0 <= j < |count| && forall i :: 0 <= i < |count| ==> count[i].1 <= count[j].1
    ensures count[j].0 in keys
    ensures forall k :: k in keys ==> Occurrences(keys, k) <= Occurrences(keys, count[j].0)
  {
    FirstOccurrencesSpec(keys);
    assert count[j].0 in KeysOf(count);
    forall k | k in keys ensures Occurrences(keys, k) <= Occurrences(keys, count[j].0) {
      assert k in KeysOf(count);
      var i :| 0 <= i < |count| && KeysOf(count)[i] == k;
      assert count[i].1 == Occurrences(keys, k);
    }
  }

  lemma {:induction false} OnesTotal(keys: seq<string>)
    ensures Total(Ones(keys)) == |keys|
    decreases |keys|
  {
    if keys != [] {
      var init := keys[..|keys| - 1];
      OnesTotal(init);
      assert Ones(keys)[..|keys| - 1] == Ones(init);
    }
  }

  /** The counts built by the loop add up to the number of orders. */
  lemma CountsSumToOrders(keys: seq<string>)
    ensures Total(Group(Ones(keys))) == |keys|
  {
    GroupTotal(Ones(keys));
    OnesTotal(keys);
  }

  /** Two orders from "Aisha" and one from "Mona": the only name that the
      contract of `MostFrequent` admits is "Aisha". */
  lemma MostFrequentScenario(top: string)
    requires top in ["Aisha", "Aisha", "Mona"]
    requires forall k :: k in ["Aisha", "Aisha", "Mona"] ==>
      Occurrences(["Aisha", "Aisha", "Mona"], k) <= Occurrences(["Aisha", "Aisha", "Mona"], top)
    ensures top == "Aisha"
  {
    var keys := ["Aisha", "Aisha", "Mona"];
    var ps := Ones(keys);
    assert ps == [("Aisha", 1), ("Aisha", 1), ("Mona", 1)];
    var p1: seq<(string, int)> := [("Aisha", 1)];
    var p2: seq<(string, int)> := [("Aisha", 1), ("Aisha", 1)];
    assert ps[..2] == p2 && p2[..1] == p1 && p1[..0] == [];
    assert SumAt(p1, "Aisha") == 1 && SumAt(p1, "Mona") == 0;
    assert SumAt(p2, "Aisha") == 2 && SumAt(p2, "Mona") == 0;
    assert Occurrences(keys, "Aisha") == 2;
    assert Occurrences(keys, "Mona") == 1;
    assert "Aisha" in keys;
  }

  /** Each order's price paired with the month label of its creation date;
      the label is a parameter, as the locale's month names are. */
  function MonthPrices(orders: seq<Order>, monthKey: Time -> string): (ps: seq<(string, int)>)
    ensures |ps| == |orders|
    ensures forall i :: 0 <= i < |orders| ==> ps[i] == (monthKey(orders[i].createdAt), orders[i].price)
  {
    seq(|orders|, i requires 0 <= i < |orders| => (monthKey(orders[i].createdAt), orders[i].price))
  }

  function PriceTotal(orders: seq<Order>): Money {
    if orders == [] then 0 else PriceTotal(orders[..|orders| - 1]) + orders[|orders| - 1].price
  }

  lemma {:induction false} MonthPricesTotal(orders: seq<Order>, monthKey: Time -> string)
    ensures Total(MonthPrices(orders, monthKey)) == PriceTotal(orders)
    decreases |orders|
  {
    if orders != [] {
      var init := orders[..|orders| - 1];
      MonthPricesTotal(init, monthKey);
      assert MonthPrices(orders, monthKey)[..|orders| - 1] == MonthPrices(init, monthKey);
    }
  }

  /** `monthlySales`: one bar per month label, in order of first appearance;
      orders of the same month share a bar; the bars add up to the price of
      every order, delivered or not. */
  method MonthlySales(orders: seq<Order>, monthKey: Time -> string) returns (monthly: seq<(string, int)>)
    ensures KeysOf(monthly) == FirstOccurrences(KeysOf(MonthPrices(orders, monthKey)))
    ensures Distinct(KeysOf(monthly))
    ensures forall o :: o in orders ==> monthKey(o.createdAt) in KeysOf(monthly)
    ensures forall m :: m in KeysOf(monthly) ==> exists o :: o in orders && monthKey(o.createdAt) == m
    ensures forall j :: 0 <= j < |monthly| ==> monthly[j].1 == SumAt(MonthPrices(orders, monthKey), monthly[j].0)
    ensures Total(monthly) == PriceTotal(orders)
  {
    monthly := GroupInPlace(MonthPrices(orders, monthKey));
    MonthLabels(orders, monthKey);
    MonthPricesTotal(orders, monthKey);
  }

  /** The distinct month labels are exactly the months of the orders. */
  lemma MonthLabels(orders: seq<Order>, monthKey: Time -> string)
    ensures Distinct(FirstOccurrences(KeysOf(MonthPrices(orders, monthKey))))
    ensures forall m :: m in FirstOccurrences(KeysOf(MonthPrices(orders, monthKey))) <==>
      exists o :: o in orders && monthKey(o.createdAt) == m
  {
    var ks := KeysOf(MonthPrices(orders, monthKey));
    FirstOccurrencesSpec(ks);
    forall m ensures m in ks <==> exists o :: o in orders && monthKey(o.createdAt) == m {
      if m in ks {
        var i :| 0 <= i < |ks| && ks[i] == m;
        assert orders[i] in orders;
      }
      if exists o :: o in orders && monthKey(o.createdAt) == m {
        var o :| o in orders && monthKey(o.createdAt) == m;
        var i :| 0 <= i < |orders| && orders[i] == o;
        assert ks[i] == m;
      }
    }
  }

  /** `orders.slice(-5).reverse()`: the last five orders of the list, the
      last one first. The list is the one `GET /api/orders` answers, newest
      first, so these are the five oldest orders, oldest first (see
      `RecentOrdersAreOldest`). */
  function RecentOrders(orders: seq<Order>): (r: seq<Order>)
    ensures |r| == if |orders| < 5 then |orders| else 5
    ensures forall i :: 0 <= i < |r| ==> r[i] == orders[|orders| - 1 - i]
  {
    var start := if |orders| < 5 then 0 else |orders| - 5;
    var last := orders[start..];
    forall i | 0 <= i < |last| ensures Reverse(last)[i] == orders[|orders| - 1 - i] {
      ReverseAt(last, i);
    }
    Reverse(last)
  }

  /** The order in which `GET /api/orders` answers: by `createdAt`, newest
      first, as `Server.RecordStore.ListOrders` ensures. */
  ghost predicate NewestFirst(orders: seq<Order>) {
    forall i, j :: 0 <= i < j < |orders| ==> orders[i].createdAt >= orders[j].createdAt
  }

  /** On the server's list the "Recent Orders" box shows the oldest orders in
      ascending age: each shown order is no newer than the one after it and no
      newer than any order it leaves out. */
  lemma RecentOrdersAreOldest(orders: seq<Order>)
    requires NewestFirst(orders)
    ensures var r := RecentOrders(orders);
      && (forall i, j :: 0 <= i < j < |r| ==> r[i].createdAt <= r[j].createdAt)
      && (forall i, k :: 0 <= i < |r| && 0 <= k < |orders| - |r| ==> r[i].createdAt <= orders[k].createdAt)
  {
  }

  /** On the server's list of more than five orders, an order strictly newer
      than the fifth from the end, the newest one in particular, is not among
      the recent orders the page shows. */
  lemma RecentOrdersMissNewest(orders: seq<Order>)
    requires NewestFirst(orders) && |orders| > 5
    requires orders[0].createdAt > orders[|orders| - 5].createdAt
    ensures orders[0] !in RecentOrders(orders)
  {
  }

  /** What the "Recent Orders" heading promises on the server's newest-first
      list: its first five entries, `orders.slice(0, 5)`. */
  function LatestOrders(orders: seq<Order>): (r: seq<Order>)
    ensures |r| == if |orders| < 5 then |orders| else 5
    ensures r <= orders
  {
    orders[..if |orders| < 5 then |orders| else 5]
  }

  /** On the server's list `LatestOrders` is newest first, and each order it
      shows is at least as new as every order it leaves out. */
  lemma LatestOrdersNewestFirst(orders: seq<Order>)
    requires NewestFirst(orders)
    ensures var r := LatestOrders(orders);
      && NewestFirst(r)
      && (forall i, k :: 0 <= i < |r| <= k < |orders| ==> r[i].createdAt >= orders[k].createdAt)
  {
  }

  datatype Stats = Stats(
    totalOrders: nat,
    totalCustomers: nat,
    totalDesigns: nat,
    totalSales: Money,
    totalProfit: Money,
    mostActiveCustomer: string,
    mostOrderedDesign: string,
    topDesign: Option<Design>,
    monthly: seq<(string, int)>,
    recent: seq<Order>)

  /** The whole page's figures from the shared state. */
  method Compute(orders: seq<Order>, customers: seq<string>, designs: seq<Design>, sales: Sales,
                 monthKey: Time -> string) returns (s: Stats)
    ensures s.totalOrders == |orders| && s.totalCustomers == |customers| && s.totalDesigns == |designs|
    ensures s.totalSales == sales.total && s.totalProfit == sales.profit
    ensures orders == [] ==> s.mostActiveCustomer == NoData && s.mostOrderedDesign == NoData
    ensures orders != [] ==>
      && (exists o :: o in orders && o.customerName == s.mostActiveCustomer)
      && (exists o :: o in orders && o.abayaCode == s.mostOrderedDesign)
      && (forall o :: o in orders ==>
            Occurrences(CustomerNames(orders), o.customerName) <= Occurrences(CustomerNames(orders), s.mostActiveCustomer))
      && (forall o :: o in orders ==>
            Occurrences(AbayaCodes(orders), o.abayaCode) <= Occurrences(AbayaCodes(orders), s.mostOrderedDesign))
    ensures s.topDesign == FindDesign(designs, s.mostOrderedDesign)
    ensures KeysOf(s.monthly) == FirstOccurrences(KeysOf(MonthPrices(orders, monthKey)))
    ensures forall j :: 0 <= j < |s.monthly| ==> s.monthly[j].1 == SumAt(MonthPrices(orders, monthKey), s.monthly[j].0)
    ensures Total(s.monthly) == PriceTotal(orders)
    ensures s.recent == RecentOrders(orders)
  {
    var names := CustomerNames(orders);
    var codes := AbayaCodes(orders);
    var customer := MostFrequent(names);
    var design := MostFrequent(codes);
    if orders != [] {
      var i :| 0 <= i < |names| && names[i] == customer;
      assert orders[i] in orders;
      var j :| 0 <= j < |codes| && codes[j] == design;
      assert orders[j] in orders;
      forall o | o in orders ensures o.customerName in names && o.abayaCode in codes {
        var k :| 0 <= k < |orders| && orders[k] == o;
        assert names[k] == o.customerName && codes[k] == o.abayaCode;
      }
    }
    var monthly := MonthlySales(orders, monthKey);
    s := Stats(|orders|, |customers|, |designs|, sales.total, sales.profit,
               customer, design, FindDesign(designs, design), monthly, RecentOrders(orders));
  }
}
