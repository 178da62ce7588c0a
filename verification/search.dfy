/** The search boxes of the Orders, Customers and Designs pages. Each keeps,
    in list order, the records one of whose fields contains the lower-cased
    search term; text fields are lower-cased before the test, the phone
    number is not. */
module Search {
  import opened Records
  import opened Seqs
  import opened Text

  /** frontend/src/pages/Orders.jsx: name, phone, code or delivery place. */
  predicate OrderMatches(o: Order, term: string) {
    var t := ToLower(term);
    || Contains(ToLower(o.customerName), t)
    || Contains(o.phone, t)
    || Contains(ToLower(o.abayaCode), t)
    || Contains(ToLower(o.deliveryLocation), t)
  }

  /** frontend/src/pages/Customers.jsx: name, phone or code; the delivery
      place is not searched. */
  predicate CustomerMatches(o: Order, term: string) {
    var t := ToLower(term);
    || Contains(ToLower(o.customerName), t)
    || Contains(o.phone, t)
    || Contains(ToLower(o.abayaCode), t)
  }

  /** frontend/src/pages/Designs.jsx: code or notes. */
  predicate DesignMatches(d: Design, term: string) {
    var t := ToLower(term);
    Contains(ToLower(d.code), t) || Contains(ToLower(d.notes), t)
  }

  function SearchOrders(orders: seq<Order>, term: string): (r: seq<Order>)
    ensures IsSubsequence(r, orders)
    ensures forall o :: o in r <==> o in orders && OrderMatches(o, term)
  {
    FilterSpec(orders, (o: Order) => OrderMatches(o, term));
    Filter(orders, (o: Order) => OrderMatches(o, term))
  }

  function SearchCustomers(orders: seq<Order>, term: string): (r: seq<Order>)
    ensures IsSubsequence(r, orders)
    ensures forall o :: o in r <==> o in orders && CustomerMatches(o, term)
  {
    FilterSpec(orders, (o: Order) => CustomerMatches(o, term));
    Filter(orders, (o: Order) => CustomerMatches(o, term))
  }

  function SearchDesigns(designs: seq<Design>, term: string): (r: seq<Design>)
    ensures IsSubsequence(r, designs)
    ensures forall d :: d in r <==> d in designs && DesignMatches(d, term)
  {
    FilterSpec(designs, (d: Design) => DesignMatches(d, term));
    Filter(designs, (d: Design) => DesignMatches(d, term))
  }

  /** An empty search box shows everything. */
  lemma EmptyTermKeepsAll(orders: seq<Order>, designs: seq<Design>)
    ensures SearchOrders(orders, "") == orders
    ensures SearchCustomers(orders, "") == orders
    ensures SearchDesigns(designs, "") == designs
  {
    forall o | o in orders ensures OrderMatches(o, "") && CustomerMatches(o, "") {
      ContainsEmpty(ToLower(o.customerName));
    }
    forall d | d in designs ensures DesignMatches(d, "") {
      ContainsEmpty(ToLower(d.code));
    }
    FilterAll(orders, (o: Order) => OrderMatches(o, ""));
    FilterAll(orders, (o: Order) => CustomerMatches(o, ""));
    FilterAll(designs, (d: Design) => DesignMatches(d, ""));
  }

  /** The letter case of the search term does not matter. */
  lemma TermCaseIgnored(orders: seq<Order>, designs: seq<Design>, term: string)
    ensures SearchOrders(orders, ToLower(term)) == SearchOrders(orders, term)
    ensures SearchCustomers(orders, ToLower(term)) == SearchCustomers(orders, term)
    ensures SearchDesigns(designs, ToLower(term)) == SearchDesigns(designs, term)
  {
    ToLowerIdempotent(term);
    FilterCongruent(orders, (o: Order) => OrderMatches(o, ToLower(term)), (o: Order) => OrderMatches(o, term));
    FilterCongruent(orders, (o: Order) => CustomerMatches(o, ToLower(term)), (o: Order) => CustomerMatches(o, term));
    FilterCongruent(designs, (d: Design) => DesignMatches(d, ToLower(term)), (d: Design) => DesignMatches(d, term));
  }

  /** The Customers search differs from the Orders search only in ignoring
      the delivery place: what it finds the Orders page finds too, and an
      order found only by the Orders page was found by its delivery place. */
  lemma CustomerSearchIgnoresLocation(orders: seq<Order>, term: string)
    ensures forall o :: o in SearchCustomers(orders, term) ==> o in SearchOrders(orders, term)
    ensures forall o :: o in SearchOrders(orders, term) && o !in SearchCustomers(orders, term) ==>
      Contains(ToLower(o.deliveryLocation), ToLower(term))
    ensures forall o, place :: CustomerMatches(o, term) <==> CustomerMatches(o.(deliveryLocation := place), term)
  {
  }
}
