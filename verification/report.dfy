/** frontend/src/pages/Sales.jsx: the "Sales by Design" report. The delivered
    orders are grouped by abaya code into buckets holding a count, the sales
    and the profit; a delivered order whose code no design carries goes to a
    single fallback bucket that earns no profit. The report object is modelled
    as the list of its buckets in insertion order; `Object.values` yields
    that order only when no code is an integer-like string (those come first,
    in ascending numeric order). */
module SalesReport {
  import opened Wrappers
  import opened Records
  import opened Seqs
  import opened Tally
  import opened SalesTotals
  import Server

  const OtherCode: string := "Other / Deleted Design"

  datatype Bucket = Bucket(code: string, count: int, totalSales: Money, totalProfit: Money)

  function Codes(r: seq<Bucket>): (cs: seq<string>)
    ensures |cs| == |r| && forall i :: 0 <= i < |r| ==> cs[i] == r[i].code
  {
    seq(|r|, i requires 0 <= i < |r| => r[i].code)
  }

  function Counts(r: seq<Bucket>): (cs: seq<int>)
    ensures |cs| == |r| && forall i :: 0 <= i < |r| ==> cs[i] == r[i].count
  {
    seq(|r|, i requires 0 <= i < |r| => r[i].count)
  }

  function SalesColumn(r: seq<Bucket>): (cs: seq<int>)
    ensures |cs| == |r| && forall i :: 0 <= i < |r| ==> cs[i] == r[i].totalSales
  {
    seq(|r|, i requires 0 <= i < |r| => r[i].totalSales)
  }

  function ProfitColumn(r: seq<Bucket>): (cs: seq<int>)
    ensures |cs| == |r| && forall i :: 0 <= i < |r| ==> cs[i] == r[i].totalProfit
  {
    seq(|r|, i requires 0 <= i < |r| => r[i].totalProfit)
  }

  predicate IsDelivered(o: Order) {
    o.isDelivered
  }

  /** `orders.filter((o) => o.isDelivered)`; its length is the "Orders
      Delivered" card. */
  function Delivered(orders: seq<Order>): seq<Order> {
    Filter(orders, IsDelivered)
  }

  /** The bucket a delivered order goes to. */
  function BucketCode(o: Order, designs: seq<Design>): (code: string)
    ensures FindDesign(designs, o.abayaCode).Some? ==> code == o.abayaCode
    ensures FindDesign(designs, o.abayaCode).None? ==> code == OtherCode
  {
    if FindDesign(designs, o.abayaCode).Some? then o.abayaCode else OtherCode
  }

  /** The profit a delivered order adds to its bucket. */
  function ProfitShare(o: Order, designs: seq<Design>): (p: Money)
    ensures FindDesign(designs, o.abayaCode).None? ==> p == 0
    ensures FindDesign(designs, o.abayaCode).Some? ==>
      p == o.price - FindDesign(designs, o.abayaCode).value.costPrice
  {
    match FindDesign(designs, o.abayaCode)
    case Some(d) => o.price - d.costPrice
    case None => 0
  }

  /** `report[code]`: the position of the bucket with that code. */
  function IndexOfCode(r: seq<Bucket>, code: string): (k: Option<nat>)
    ensures k.Some? ==> k.value < |r| && r[k.value].code == code
    ensures k.None? <==> code !in Codes(r)
  {
    if r == [] then None
    else if r[0].code == code then Some(0)
    else match IndexOfCode(r[1..], code)
      case None =>
        assert Codes(r) == [r[0].code] + Codes(r[1..]);
        None
      case Some(j) => Some(j + 1)
  }

  /** One pass of the loop body: the bucket is created with zeros when
      absent, then its count, sales and profit are incremented. */
  function Add(r: seq<Bucket>, code: string, sale: Money, profit: Money): seq<Bucket> {
    match IndexOfCode(r, code)
    case Some(j) => r[j := Bucket(code, r[j].count + 1, r[j].totalSales + sale, r[j].totalProfit + profit)]
    case None => r + [Bucket(code, 1, sale, profit)]
  }

  /** The report built from an empty object over the orders `ds`, in order. */
  function Tabulate(ds: seq<Order>, designs: seq<Design>): seq<Bucket> {
    if ds == [] then []
    else
      var o := ds[|ds| - 1];
      Add(Tabulate(ds[..|ds| - 1], designs), BucketCode(o, designs), o.price, ProfitShare(o, designs))
  }

  function BucketCodes(ds: seq<Order>, designs: seq<Design>): (cs: seq<string>)
    ensures |cs| == |ds| && forall i :: 0 <= i < |ds| ==> cs[i] == BucketCode(ds[i], designs)
  {
    seq(|ds|, i requires 0 <= i < |ds| => BucketCode(ds[i], designs))
  }

  function PriceSum(ds: seq<Order>): Money {
    if ds == [] then 0 else PriceSum(ds[..|ds| - 1]) + ds[|ds| - 1].price
  }

  function ShareSum(ds: seq<Order>, designs: seq<Design>): Money {
    if ds == [] then 0 else ShareSum(ds[..|ds| - 1], designs) + ProfitShare(ds[|ds| - 1], designs)
  }

  /** What each bucket's profit must be: for a bucket named after a design,
      its sales less its count times that design's cost; for the fallback
      bucket (when no design is named like it) nothing. */
  predicate ProfitConsistent(b: Bucket, designs: seq<Design>) {
    && (b.code != OtherCode ==>
          && FindDesign(designs, b.code).Some?
          && b.totalProfit == b.totalSales - b.count * FindDesign(designs, b.code).value.costPrice)
    && (b.code == OtherCode && FindDesign(designs, OtherCode).None? ==> b.totalProfit == 0)
  }

  /** Adding to a bucket keeps the codes distinct, appending a new code at
      the end, and adds one to the counts and the amounts to the columns. */
  lemma AddSpec(r: seq<Bucket>, code: string, sale: Money, profit: Money)
    ensures var r' := Add(r, code, sale, profit);
      && Codes(r') == (if code in Codes(r) then Codes(r) else Codes(r) + [code])
      && Sum(Counts(r')) == Sum(Counts(r)) + 1
      && Sum(SalesColumn(r')) == Sum(SalesColumn(r)) + sale
      && Sum(ProfitColumn(r')) == Sum(ProfitColumn(r)) + profit
  {
    var k := IndexOfCode(r, code);
    if k.Some? {
      var j := k.value;
      var r' := r[j := Bucket(code, r[j].count + 1, r[j].totalSales + sale, r[j].totalProfit + profit)];
      assert Add(r, code, sale, profit) == r';
      assert code in Codes(r) by { assert Codes(r)[j] == code; }
      AddToBucket(r, j, code, sale, profit);
    } else {
      assert Add(r, code, sale, profit) == r + [Bucket(code, 1, sale, profit)];
      AddBucket(r, code, sale, profit);
    }
  }

  /** Incrementing bucket `j` keeps the codes and adds to each column's sum. */
  lemma AddToBucket(r: seq<Bucket>, j: nat, code: string, sale: Money, profit: Money)
    requires j < |r| && r[j].code == code
    ensures var r' := r[j := Bucket(code, r[j].count + 1, r[j].totalSales + sale, r[j].totalProfit + profit)];
      && Codes(r') == Codes(r)
      && Sum(Counts(r')) == Sum(Counts(r)) + 1
      && Sum(SalesColumn(r')) == Sum(SalesColumn(r)) + sale
      && Sum(ProfitColumn(r')) == Sum(ProfitColumn(r)) + profit
  {
    var r' := r[j := Bucket(code, r[j].count + 1, r[j].totalSales + sale, r[j].totalProfit + profit)];
    assert Codes(r') == Codes(r);
    assert Counts(r') == Counts(r)[j := r[j].count + 1];
    assert SalesColumn(r') == SalesColumn(r)[j := r[j].totalSales + sale];
    assert ProfitColumn(r') == ProfitColumn(r)[j := r[j].totalProfit + profit];
    SumUpdate(Counts(r), j, r[j].count + 1);
    SumUpdate(SalesColumn(r), j, r[j].totalSales + sale);
    SumUpdate(ProfitColumn(r), j, r[j].totalProfit + profit);
  }

  /** Appending a fresh bucket appends its code and adds to each column's sum. */
  lemma AddBucket(r: seq<Bucket>, code: string, sale: Money, profit: Money)
    ensures var r' := r + [Bucket(code, 1, sale, profit)];
      && Codes(r') == Codes(r) + [code]
      && Sum(Counts(r')) == Sum(Counts(r)) + 1
      && Sum(SalesColumn(r')) == Sum(SalesColumn(r)) + sale
      && Sum(ProfitColumn(r')) == Sum(ProfitColumn(r)) + profit
  {
    var r' := r + [Bucket(code, 1, sale, profit)];
    assert Codes(r') == Codes(r) + [code];
    assert Counts(r') == Counts(r) + [1];
    assert SalesColumn(r') == SalesColumn(r) + [sale];
    assert ProfitColumn(r') == ProfitColumn(r) + [profit];
    SumPush(Counts(r), 1);
    SumPush(SalesColumn(r), sale);
    SumPush(ProfitColumn(r), profit);
  }

  /** The buckets appear once each, in order of their first order: one per
      distinct bucket code. */
  lemma {:induction false} TabulateCodes(ds: seq<Order>, designs: seq<Design>)
    ensures Codes(Tabulate(ds, designs)) == FirstOccurrences(BucketCodes(ds, designs))
    decreases |ds|
  {
    if ds != [] {
      var init := ds[..|ds| - 1];
      var o := ds[|ds| - 1];
      TabulateCodes(init, designs);
      AddSpec(Tabulate(init, designs), BucketCode(o, designs), o.price, ProfitShare(o, designs));
      var cs := BucketCodes(ds, designs);
      assert cs[..|cs| - 1] == BucketCodes(init, designs);
      FirstOccurrencesSpec(BucketCodes(init, designs));
    }
  }

  /** Conservation: the counts add up to the number of orders, the sales to
      the sum of their prices and the profits to the sum of their shares. */
  lemma {:induction false} TabulateConserves(ds: seq<Order>, designs: seq<Design>)
    ensures Sum(Counts(Tabulate(ds, designs))) == |ds|
    ensures Sum(SalesColumn(Tabulate(ds, designs))) == PriceSum(ds)
    ensures Sum(ProfitColumn(Tabulate(ds, designs))) == ShareSum(ds, designs)
    decreases |ds|
  {
    if ds != [] {
      var init := ds[..|ds| - 1];
      var o := ds[|ds| - 1];
      TabulateConserves(init, designs);
      AddSpec(Tabulate(init, designs), BucketCode(o, designs), o.price, ProfitShare(o, designs));
    }
  }

  /** Adding an order to its own bucket keeps every bucket's profit consistent. */
  lemma AddKeepsProfitConsistent(r: seq<Bucket>, o: Order, designs: seq<Design>)
    requires forall b :: b in r ==> ProfitConsistent(b, designs)
    ensures forall b :: b in Add(r, BucketCode(o, designs), o.price, ProfitShare(o, designs)) ==> ProfitConsistent(b, designs)
  {
    var code := BucketCode(o, designs);
    match IndexOfCode(r, code)
    case None =>
    case Some(j) =>
      assert r[j] in r;
      var b := Bucket(code, r[j].count + 1, r[j].totalSales + o.price, r[j].totalProfit + ProfitShare(o, designs));
      if code != OtherCode {
        var cost := FindDesign(designs, code).value.costPrice;
        assert b.totalProfit == b.totalSales - b.count * cost;
      }
      assert ProfitConsistent(b, designs);
      forall b' | b' in r[j := b] ensures ProfitConsistent(b', designs) {
        var i :| 0 <= i < |r| && r[j := b][i] == b';
        if i != j { assert r[i] in r; }
      }
  }

  /** Every bucket's profit is consistent: a bucket named after a design
      made its sales less count times that design's cost, and the fallback
      bucket made no profit. Every bucket other than the fallback is named
      after some design. */
  lemma {:induction false} TabulateProfits(ds: seq<Order>, designs: seq<Design>)
    ensures forall b :: b in Tabulate(ds, designs) ==> ProfitConsistent(b, designs)
    decreases |ds|
  {
    if ds != [] {
      TabulateProfits(ds[..|ds| - 1], designs);
      AddKeepsProfitConsistent(Tabulate(ds[..|ds| - 1], designs), ds[|ds| - 1], designs);
    }
  }

  /** Every delivered order whose code no design carries lands in the
      fallback bucket. */
  lemma UnmatchedGoToFallback(ds: seq<Order>, designs: seq<Design>, o: Order)
    requires o in ds && FindDesign(designs, o.abayaCode).None?
    ensures OtherCode in Codes(Tabulate(ds, designs))
  {
    TabulateCodes(ds, designs);
    FirstOccurrencesSpec(BucketCodes(ds, designs));
    var i :| 0 <= i < |ds| && ds[i] == o;
    assert BucketCodes(ds, designs)[i] == OtherCode;
  }

  /** After a design is deleted, the orders naming its code go to the
      fallback bucket and earn no profit, in the report and in the shared
      sales figures alike. */
  lemma DeletedDesignFallsBack(designs: seq<Design>, d: Design, o: Order)
    requires Server.UniqueCodes(designs) && d in designs && o.abayaCode == d.code
    ensures var rest := Server.RemoveDesign(designs, d.id);
      && BucketCode(o, rest) == OtherCode
      && ProfitShare(o, rest) == 0
      && OrderProfit(o, rest) == 0
  {
    var rest := Server.RemoveDesign(designs, d.id);
    Server.RemoveDesignDropsCode(designs, d);
    assert FindDesign(rest, o.abayaCode).None?;
  }

  /** The report's profits add up to the profit shown by the shared sales
      figures: orders left out of the report are undelivered and earn none. */
  lemma {:induction false} ReportProfitMatchesTotals(orders: seq<Order>, designs: seq<Design>)
    ensures ShareSum(Delivered(orders), designs) == Profit(orders, designs)
    decreases |orders|
  {
    if orders != [] {
      var init := orders[..|orders| - 1];
      var o := orders[|orders| - 1];
      assert orders == init + [o];
      ReportProfitMatchesTotals(init, designs);
      DeliveredPush(init, o);
      if o.isDelivered {
        ShareSumPush(Delivered(init), o, designs);
      }
    }
  }

  lemma DeliveredPush(orders: seq<Order>, o: Order)
    ensures Delivered(orders + [o]) == if o.isDelivered then Delivered(orders) + [o] else Delivered(orders)
  {
    FilterAppend(orders, [o], IsDelivered);
    assert Filter([o], IsDelivered) == if o.isDelivered then [o] else [];
  }

  lemma ShareSumPush(ds: seq<Order>, o: Order, designs: seq<Design>)
    ensures ShareSum(ds + [o], designs) == ShareSum(ds, designs) + ProfitShare(o, designs)
  {
    assert (ds + [o])[..|ds|] == ds;
  }

  /** The `useEffect` body: filter the delivered orders and fold them into
      a fresh report. */
  method BuildReport(orders: seq<Order>, designs: seq<Design>) returns (report: seq<Bucket>)
    ensures report == Tabulate(Delivered(orders), designs)
    ensures Distinct(Codes(report))
    ensures Sum(Counts(report)) == |Delivered(orders)|
    ensures Sum(SalesColumn(report)) == PriceSum(Delivered(orders))
    ensures Sum(ProfitColumn(report)) == Profit(orders, designs)
    ensures forall b :: b in report ==> ProfitConsistent(b, designs)
  {
    var delivered := Delivered(orders);
    report := [];
    for i := 0 to |delivered|
      invariant report == Tabulate(delivered[..i], designs)
    {
      var order := delivered[i];
      assert delivered[..i + 1][..i] == delivered[..i];
      match FindDesign(designs, order.abayaCode)
      case Some(design) =>
        report := Add(report, order.abayaCode, order.price, order.price - design.costPrice);
      case None =>
        report := Add(report, OtherCode, order.price, 0);
    }
    assert delivered[..|delivered|] == delivered;
    TabulateCodes(delivered, designs);
    FirstOccurrencesSpec(BucketCodes(delivered, designs));
    TabulateConserves(delivered, designs);
    ReportProfitMatchesTotals(orders, designs);
    TabulateProfits(delivered, designs);
  }

  /** The page's `summary` state. */
  class SalesPage {
    var summary: seq<Bucket>

    constructor ()
      ensures summary == []
    {
      summary := [];
    }

    /** The effect runs when orders or designs change and rebuilds the
        report only when there are orders. */
    method Refresh(orders: seq<Order>, designs: seq<Design>)
      modifies this
      ensures |orders| > 0 ==> summary == Tabulate(Delivered(orders), designs)
      ensures |orders| == 0 ==> summary == old(summary)
    {
      if |orders| > 0 {
        summary := BuildReport(orders, designs);
      }
    }
  }
}
