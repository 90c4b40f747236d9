/** The admin order list: the status and search filters, the status badge
    colours and the empty state. */
module AdminOrders {
  import opened Wrappers
  import opened Text
  import opened Seqs
  import opened Records

  /** `order.user` as the list shows it; username and email may be absent. */
  datatype OrderUser = OrderUser(username: Option<string>, email: Option<string>)

  /** An order as the list receives it; `status` is the enum's string. */
  datatype OrderView = OrderView(id: nat, status: string, user: Option<OrderUser>)

  /** `order.user?.username?.toLowerCase().includes(term.toLowerCase())` */
  predicate UserFieldContains(field: Option<string>, term: string) {
    field.Some? && ContainsIgnoreCase(field.value, term)
  }

  predicate SearchMatches(o: OrderView, term: string) {
    || term == ""
    || Contains(NatToString(o.id), term)
    || (o.user.Some? && UserFieldContains(o.user.value.username, term))
    || (o.user.Some? && UserFieldContains(o.user.value.email, term))
  }

  predicate OrderKept(o: OrderView, statusFilter: string, term: string) {
    (statusFilter == "" || o.status == statusFilter) && SearchMatches(o, term)
  }

  /** `filteredOrders` */
  function FilterOrders(orders: seq<OrderView>, statusFilter: string, term: string): (r: seq<OrderView>)
    ensures forall o :: o in r <==> o in orders && OrderKept(o, statusFilter, term)
    ensures |r| <= |orders|
  {
    Filter(orders, o => OrderKept(o, statusFilter, term))
  }

  /** The list keeps the original order, and with both filters empty it is
      the whole list. */
  lemma FilterOrdersLaws(orders: seq<OrderView>, statusFilter: string, term: string)
    ensures IsSubsequence(FilterOrders(orders, statusFilter, term), orders)
    ensures FilterOrders(orders, "", "") == orders
  {
    FilterIsSubsequence(orders, o => OrderKept(o, statusFilter, term));
    FilterAll(orders, o => OrderKept(o, "", ""));
  }

  /** The id is matched as digits, without case folding: searching for an
      order's full number finds it. */
  lemma IdSearchFindsOrder(o: OrderView)
    ensures SearchMatches(o, NatToString(o.id))
  {
    assert StartsWith(NatToString(o.id), NatToString(o.id));
  }

  const Gray: string := "bg-gray-100 text-gray-800"

  /** `getStatusColor` */
  function StatusColor(status: string): (c: string)
    ensures status == "pending" ==> c == "bg-yellow-100 text-yellow-800"
    ensures status == "processing" ==> c == "bg-blue-100 text-blue-800"
    ensures status == "shipped" ==> c == "bg-purple-100 text-purple-800"
    ensures status == "delivered" ==> c == "bg-green-100 text-green-800"
    ensures status == "cancelled" ==> c == "bg-red-100 text-red-800"
  {
    match status
    case "pending" => "bg-yellow-100 text-yellow-800"
    case "processing" => "bg-blue-100 text-blue-800"
    case "shipped" => "bg-purple-100 text-purple-800"
    case "delivered" => "bg-green-100 text-green-800"
    case "cancelled" => "bg-red-100 text-red-800"
    case _ => Gray
  }

  /** Exactly the five backend statuses get a colour of their own, each a
      different one; anything else is gray. */
  lemma StatusColorTotal(status: string, a: OrderStatus, b: OrderStatus)
    ensures StatusColor(status) != Gray <==> exists s: OrderStatus :: StatusValue(s) == status
    ensures a != b ==> StatusColor(StatusValue(a)) != StatusColor(StatusValue(b))
  {
    if StatusColor(status) != Gray {
      if status == "pending" { assert StatusValue(Pending) == status; }
      else if status == "processing" { assert StatusValue(Processing) == status; }
      else if status == "shipped" { assert StatusValue(Shipped) == status; }
      else if status == "delivered" { assert StatusValue(Delivered) == status; }
      else { assert StatusValue(Cancelled) == status; }
    }
  }

  /** "No orders found" */
  predicate ShowEmptyState(filtered: seq<OrderView>, loading: bool) {
    |filtered| == 0 && !loading
  }

  /** Once loaded, the empty state shows exactly when no order passes the
      filters. */
  lemma EmptyStateIffNoMatch(orders: seq<OrderView>, statusFilter: string, term: string)
    ensures ShowEmptyState(FilterOrders(orders, statusFilter, term), false) <==>
      forall i :: 0 <= i < |orders| ==> !OrderKept(orders[i], statusFilter, term)
  {
    var r := FilterOrders(orders, statusFilter, term);
    if |r| > 0 {
      assert r[0] in r;
    }
    if exists i :: 0 <= i < |orders| && OrderKept(orders[i], statusFilter, term) {
      var i :| 0 <= i < |orders| && OrderKept(orders[i], statusFilter, term);
      assert orders[i] in r;
    }
  }
}
