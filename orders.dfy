/**
 * Ordering: `setOrderBy`/`appendOrderBy` parse the `|`-separated order
 * directive, and `addOrderByToQuery` turns each entry into an `orderBy`
 * call, the marker 'random' always into the fixed `RAND()` expression.
 */
module Orders {
  import opened Plan
  import opened PhpStrings

  /** appendOrderBy: 'random' or `column,direction`; a missing direction is null. */
  function ParseOrder(entry: string): Order
  {
    if entry == "random" then Random
    else
      var parts := Explode(',', entry);
      ByColumn(parts[0], if |parts| > 1 then Some(parts[1]) else None)
  }

  /** The orders `setOrderBy` builds from the kept entries, in order. */
  function ParseOrders(entries: seq<string>): (orders: seq<Order>)
    ensures |orders| == |entries|
    ensures forall i :: 0 <= i < |entries| ==> orders[i] == ParseOrder(entries[i])
    decreases |entries|
  {
    if entries == [] then []
    else
      var init := entries[..|entries| - 1];
      assert forall i :: 0 <= i < |init| ==> init[i] == entries[i];
      ParseOrders(init) + [ParseOrder(entries[|entries| - 1])]
  }

  /** Parsing one more entry appends its order. */
  lemma ParseOrdersSnoc(entries: seq<string>, i: nat)
    requires i < |entries|
    ensures ParseOrders(entries[..i + 1]) == ParseOrders(entries[..i]) + [ParseOrder(entries[i])]
  {
    assert entries[..i + 1][..i] == entries[..i];
  }

  /** setOrderBy: the directive split on '|', falsy entries dropped. */
  function ParseOrderDirective(raw: string): seq<Order>
  {
    ParseOrders(Kept(Explode('|', raw)))
  }

  /** addOrderByToQuery. */
  function OrderOp(order: Order): Op
  {
    match order
    case Random => OrderByRaw("RAND()")
    case ByColumn(column, direction) => OrderBy(column, direction)
  }

  /**
   * The calls `build` makes for the orders: one per order, in order; the
   * only raw expression is `RAND()`, used exactly for the random marker.
   */
  function OrderOps(orders: seq<Order>): (ops: seq<Op>)
    ensures |ops| == |orders|
    ensures forall i :: 0 <= i < |orders| ==>
              && (ops[i].OrderByRaw? <==> orders[i].Random?)
              && (ops[i].OrderByRaw? ==> ops[i].expression == "RAND()")
              && (orders[i].ByColumn? ==> ops[i] == OrderBy(orders[i].column, orders[i].direction))
    decreases |orders|
  {
    if orders == [] then [] else OrderOps(orders[..|orders| - 1]) + [OrderOp(orders[|orders| - 1])]
  }

  /** An order that the directive syntax can express and read back unchanged. */
  predicate Expressible(order: Order)
  {
    match order
    case Random => true
    case ByColumn(column, direction) =>
      && ',' !in column && '|' !in column
      && match direction
         case Some(d) => ',' !in d && '|' !in d
         case None => !IsFalsy(column) && column != "random"
  }

  /** The directive entry for an order. */
  function OrderText(order: Order): string
  {
    match order
    case Random => "random"
    case ByColumn(column, direction) =>
      match direction
      case Some(d) => column + "," + d
      case None => column
  }

  function OrderTexts(orders: seq<Order>): (texts: seq<string>)
    ensures |texts| == |orders|
    ensures forall i :: 0 <= i < |orders| ==> texts[i] == OrderText(orders[i])
    decreases |orders|
  {
    if orders == [] then []
    else
      var init := orders[..|orders| - 1];
      assert forall i :: 0 <= i < |init| ==> init[i] == orders[i];
      OrderTexts(init) + [OrderText(orders[|orders| - 1])]
  }

  /** The order directive that requests `orders`: entries joined with '|'. */
  function RenderOrders(orders: seq<Order>): string
  {
    if orders == [] then "" else Join('|', OrderTexts(orders))
  }

  lemma OrderTextRoundTrip(order: Order)
    requires Expressible(order)
    ensures '|' !in OrderText(order) && !IsFalsy(OrderText(order))
    ensures ParseOrder(OrderText(order)) == order
  {
    match order
    case Random =>
    case ByColumn(column, direction) =>
      match direction
      case Some(d) =>
        var text := column + "," + d;
        assert text == Join(',', [column, d]);
        ExplodeJoin(',', [column, d]);
        assert text[|column|] == ',';
        assert ',' !in "random";
      case None =>
        ExplodeWhole(',', column);
  }

  lemma OrderTextsRoundTrip(orders: seq<Order>)
    requires forall i :: 0 <= i < |orders| ==> Expressible(orders[i])
    ensures forall i :: 0 <= i < |orders| ==> '|' !in OrderTexts(orders)[i] && !IsFalsy(OrderTexts(orders)[i])
    ensures ParseOrders(OrderTexts(orders)) == orders
  {
    var texts := OrderTexts(orders);
    forall i | 0 <= i < |orders|
      ensures '|' !in texts[i] && !IsFalsy(texts[i]) && ParseOrder(texts[i]) == orders[i]
    {
      OrderTextRoundTrip(orders[i]);
    }
  }

  /**
   * Round trip of the order directive: rendering a list of expressible
   * orders and parsing it with setOrderBy gives back the same orders, in the
   * same sequence.
   */
  lemma OrderDirectiveRoundTrip(orders: seq<Order>)
    requires forall i :: 0 <= i < |orders| ==> Expressible(orders[i])
    ensures ParseOrderDirective(RenderOrders(orders)) == orders
  {
    if orders == [] {
      assert Explode('|', "") == [""];
    } else {
      OrderTextsRoundTrip(orders);
      ExplodeJoin('|', OrderTexts(orders));
      KeptAll(OrderTexts(orders));
    }
  }
}
