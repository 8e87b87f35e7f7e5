/**
 * The store that `process_order` works on, and `process_order` itself.
 *
 * The store is a product table, the orders keyed by their id, the order items
 * and the id the next created order receives. `ProcessOrder` runs the
 * validation and deduction loop on a local copy of the requested products and
 * writes nothing to the store until every request has passed, so an error
 * leaves the store as it was: that is what the surrounding atomic transaction
 * guarantees.
 */
module OrderProcessing {
  import opened Wrappers
  import opened Inventory

  datatype Status = Pending | Completed

  datatype Order = Order(id: nat, totalPrice: int, status: Status)

  /** A persisted line item: the order it belongs to, a product and a quantity. */
  datatype OrderItem = OrderItem(orderId: nat, productId: ProductId, quantity: int)

  /** One item of order `orderId` per request, in input order, with the request's product and quantity. */
  function ItemsFor(orderId: nat, reqs: seq<Request>): seq<OrderItem> {
    seq(|reqs|, k requires 0 <= k < |reqs| => OrderItem(orderId, reqs[k].productId, Quantity(reqs[k])))
  }

  /** The sum of price times quantity over the items of order `orderId`, at the prices of `products`. */
  function ItemsTotal(items: seq<OrderItem>, orderId: nat, products: map<ProductId, Product>): int {
    if items == [] then 0
    else
      (if items[0].orderId == orderId && items[0].productId in products
       then products[items[0].productId].price * items[0].quantity else 0)
      + ItemsTotal(items[1..], orderId, products)
  }

  /** Two product tables with the same products at the same prices. */
  predicate SamePrices(p: map<ProductId, Product>, u: map<ProductId, Product>) {
    p.Keys == u.Keys && forall id :: id in p ==> p[id].price == u[id].price
  }

  lemma {:induction false} ItemsTotalAppend(a: seq<OrderItem>, b: seq<OrderItem>, orderId: nat, products: map<ProductId, Product>)
    ensures ItemsTotal(a + b, orderId, products) == ItemsTotal(a, orderId, products) + ItemsTotal(b, orderId, products)
  {
    if a == [] {
      assert a + b == b;
    } else {
      assert (a + b)[1..] == a[1..] + b;
      ItemsTotalAppend(a[1..], b, orderId, products);
    }
  }

  /** Items that belong to other orders add nothing to an order's total. */
  lemma {:induction false} ItemsTotalOtherOrders(items: seq<OrderItem>, orderId: nat, products: map<ProductId, Product>)
    requires forall i :: 0 <= i < |items| ==> items[i].orderId != orderId
    ensures ItemsTotal(items, orderId, products) == 0
  {
    if items != [] {
      assert items[0].orderId != orderId;
      forall i | 0 <= i < |items[1..]| ensures items[1..][i].orderId != orderId {
        assert items[1..][i] == items[i + 1];
      }
      ItemsTotalOtherOrders(items[1..], orderId, products);
    }
  }

  /** An order's total depends only on the products' prices, not on their stock. */
  lemma {:induction false} ItemsTotalSamePrices(items: seq<OrderItem>, orderId: nat, p: map<ProductId, Product>, u: map<ProductId, Product>)
    requires SamePrices(p, u)
    ensures ItemsTotal(items, orderId, p) == ItemsTotal(items, orderId, u)
  {
    if items != [] {
      ItemsTotalSamePrices(items[1..], orderId, p, u);
    }
  }

  /** The items created for the requests add up to the requests' total price. */
  lemma {:induction false} NewItemsTotal(items: seq<OrderItem>, orderId: nat, p: map<ProductId, Product>, reqs: seq<Request>)
    requires AllIn(p, reqs) && |items| == |reqs|
    requires forall k :: 0 <= k < |reqs| ==> items[k] == OrderItem(orderId, reqs[k].productId, Quantity(reqs[k]))
    ensures ItemsTotal(items, orderId, p) == TotalPrice(p, reqs)
  {
    if reqs != [] {
      forall k | 0 <= k < |reqs[1..]|
        ensures reqs[1..][k].productId in p
        ensures items[1..][k] == OrderItem(orderId, reqs[1..][k].productId, Quantity(reqs[1..][k]))
      {
        assert reqs[1..][k] == reqs[k + 1] && items[1..][k] == items[k + 1];
      }
      NewItemsTotal(items[1..], orderId, p, reqs[1..]);
    }
  }

  /**
   * The store's consistency: every order is stored under its own id, which is
   * below the next id; no order is left pending; every item belongs to a stored
   * order and names a stored product; and every order's total is the sum of its
   * items' price times quantity.
   */
  ghost predicate Consistent(products: map<ProductId, Product>, orders: map<nat, Order>, items: seq<OrderItem>, nextOrderId: nat) {
    && (forall id :: id in orders ==>
          && orders[id].id == id
          && id < nextOrderId
          && orders[id].status == Completed
          && orders[id].totalPrice == ItemsTotal(items, id, products))
    && (forall i :: 0 <= i < |items| ==> items[i].orderId in orders && items[i].productId in products)
  }

  /**
   * Recording a completed order under the next id, with one item per request
   * and the requests' total price, keeps the store consistent while the stock
   * changes and the prices do not.
   */
  lemma RecordOrderKeepsConsistent(
    products: map<ProductId, Product>, orders: map<nat, Order>, items: seq<OrderItem>, nextOrderId: nat,
    products': map<ProductId, Product>, reqs: seq<Request>, newItems: seq<OrderItem>)
    requires Consistent(products, orders, items, nextOrderId)
    requires SamePrices(products, products') && AllIn(products, reqs) && |newItems| == |reqs|
    requires forall k :: 0 <= k < |reqs| ==>
      newItems[k] == OrderItem(nextOrderId, reqs[k].productId, Quantity(reqs[k]))
    ensures Consistent(products', orders[nextOrderId := Order(nextOrderId, TotalPrice(products, reqs), Completed)],
                       items + newItems, nextOrderId + 1)
  {
    var orders' := orders[nextOrderId := Order(nextOrderId, TotalPrice(products, reqs), Completed)];
    forall id | id in orders'
      ensures orders'[id].totalPrice == ItemsTotal(items + newItems, id, products')
    {
      ItemsTotalAppend(items, newItems, id, products');
      ItemsTotalSamePrices(items, id, products, products');
      if id == nextOrderId {
        ItemsTotalOtherOrders(items, id, products);
        NewItemsTotal(newItems, id, products', reqs);
        TotalPriceSamePrices(products', products, reqs);
      } else {
        ItemsTotalOtherOrders(newItems, id, products');
      }
    }
  }

  /**
   * The validation and deduction loop over the fetched products: in input order,
   * each request is looked up, checked against the stock left and deducted,
   * and its price and line are accumulated; the first failing request ends the
   * loop with its error. Only the local copy of the products is changed.
   */
  method CheckAndDeduct(productMap: map<ProductId, Product>, requests: seq<Request>)
    returns (outcome: Result<Draft, OrderError>)
    ensures outcome == Deduct(productMap, requests)
    ensures outcome.Success? <==> forall k :: 0 <= k < |requests| ==> Passes(productMap, requests, k)
    ensures outcome.Failure? ==>
      exists k :: FirstFailing(productMap, requests, k) && outcome.error == ErrorAt(productMap, requests, k)
  {
    var table := productMap;
    var lines: seq<Line> := [];
    var totalPrice := 0;
    var i := 0;
    assert requests[i..] == requests;
    assert Resume(totalPrice, lines, Deduct(table, requests)) == Deduct(table, requests) by {
      match Deduct(table, requests)
      case Failure(_) =>
      case Success(d) => assert [] + d.lines == d.lines;
    }
    DeductSucceedsIff(productMap, requests);
    if Deduct(productMap, requests).Failure? {
      DeductFailureIsFirstFailing(productMap, requests);
    }
    while i < |requests|
      invariant 0 <= i <= |requests|
      invariant Deduct(productMap, requests) == Resume(totalPrice, lines, Deduct(table, requests[i..]))
    {
      assert requests[i..][0] == requests[i];
      var productId := requests[i].productId;
      var quantity := Quantity(requests[i]);
      if productId !in table {
        return Failure(ProductNotFound(productId));
      }
      var product := table[productId];
      if product.stock < quantity {
        return Failure(InsufficientStock(product.name, product.stock, quantity));
      }
      ResumeStep(table, requests, i, totalPrice, lines);
      table := table[productId := product.(stock := product.stock - quantity)];
      totalPrice := totalPrice + product.price * quantity;
      lines := lines + [Line(productId, quantity)];
      i := i + 1;
    }
    assert requests[i..] == [] && lines + [] == lines;
    outcome := Success(Draft(table, totalPrice, lines));
  }

  /** The queued lines with their order filled in, in the same order. */
  method AttachLines(lines: seq<Line>, orderId: nat) returns (items: seq<OrderItem>)
    ensures |items| == |lines|
    ensures forall k :: 0 <= k < |lines| ==>
      items[k] == OrderItem(orderId, lines[k].productId, lines[k].quantity)
  {
    items := [];
    var j := 0;
    while j < |lines|
      invariant 0 <= j <= |lines|
      invariant |items| == j
      invariant forall k :: 0 <= k < j ==> items[k] == OrderItem(orderId, lines[k].productId, lines[k].quantity)
    {
      items := items + [OrderItem(orderId, lines[j].productId, lines[j].quantity)];
      j := j + 1;
    }
  }

  /**
   * What a successful run leaves behind: the fetched products written back, a
   * completed order under the next id with the requests' total price, and one
   * item per request in input order; the store stays consistent and no stock
   * that was non-negative, or that was requested, ends negative.
   */
  lemma SuccessfulOrder(
    p: map<ProductId, Product>, orders: map<nat, Order>, items: seq<OrderItem>, nextOrderId: nat,
    reqs: seq<Request>, d: Draft, newItems: seq<OrderItem>)
    requires Consistent(p, orders, items, nextOrderId)
    requires Deduct(Fetch(p, reqs), reqs) == Success(d)
    requires |newItems| == |d.lines|
    requires forall k :: 0 <= k < |d.lines| ==>
      newItems[k] == OrderItem(nextOrderId, d.lines[k].productId, d.lines[k].quantity)
    ensures AllIn(p, reqs) && d.total == TotalPrice(p, reqs)
    ensures Consistent(p + d.table, orders[nextOrderId := Order(nextOrderId, d.total, Completed)],
                       items + newItems, nextOrderId + 1)
    ensures (p + d.table).Keys == p.Keys
    ensures forall id :: id in p + d.table ==> (p + d.table)[id] == p[id].(stock := p[id].stock - Demand(reqs, id))
    ensures forall id :: id in p + d.table && (p[id].stock >= 0 || Named(reqs, id)) ==> (p + d.table)[id].stock >= 0
    ensures newItems == ItemsFor(nextOrderId, reqs)
  {
    FetchedSuccess(p, reqs);
    FetchedStockNonNegativeAll(p, reqs);
    var p' := p + d.table;
    assert SamePrices(p, p');
    forall k | 0 <= k < |reqs| ensures newItems[k] == OrderItem(nextOrderId, reqs[k].productId, Quantity(reqs[k])) {
    }
    RecordOrderKeepsConsistent(p, orders, items, nextOrderId, p', reqs, newItems);
  }

  class Store {
    var products: map<ProductId, Product>
    var orders: map<nat, Order>
    var orderItems: seq<OrderItem>
    var nextOrderId: nat

    ghost predicate Valid()
      reads this
    {
      Consistent(products, orders, orderItems, nextOrderId)
    }

    /** A store holding the given products and no orders. */
    constructor (products: map<ProductId, Product>)
      ensures Valid()
      ensures this.products == products && orders == map[] && orderItems == [] && nextOrderId == 1
    {
      this.products := products;
      orders := map[];
      orderItems := [];
      nextOrderId := 1;
    }

    /**
     * Validates the requests in input order, deducts their stock and records one
     * completed order with one item per request; on the first request that names
     * no product or asks for more than is left, returns that error and leaves the
     * store unchanged.
     */
    method ProcessOrder(requests: seq<Request>) returns (r: Result<Order, OrderError>)
      requires Valid()
      modifies this
      ensures Valid()
      // which requests fail, and with what
      ensures r.Success? <==> forall k :: 0 <= k < |requests| ==> Passes(old(products), requests, k)
      ensures r.Failure? ==> exists k :: FirstFailing(old(products), requests, k) && r.error == ErrorAt(old(products), requests, k)
      // rollback
      ensures r.Failure? ==>
        && products == old(products) && orders == old(orders)
        && orderItems == old(orderItems) && nextOrderId == old(nextOrderId)
      // stock
      ensures r.Success? ==>
        && products.Keys == old(products).Keys
        && forall id :: id in products ==>
             products[id] == old(products)[id].(stock := old(products)[id].stock - Demand(requests, id))
      ensures r.Success? ==> forall id :: id in products && (old(products)[id].stock >= 0 || Named(requests, id)) ==>
        products[id].stock >= 0
      // the order and its items
      ensures r.Success? ==> AllIn(old(products), requests)
      ensures r.Success? ==>
        && r.value == Order(old(nextOrderId), TotalPrice(old(products), requests), Completed)
        && orders == old(orders)[r.value.id := r.value]
        && nextOrderId == old(nextOrderId) + 1
      ensures r.Success? ==> orderItems == old(orderItems) + ItemsFor(r.value.id, requests)
    {
      var productMap := Fetch(products, requests);
      var outcome := CheckAndDeduct(productMap, requests);
      if outcome.Failure? {
        FetchedOutcome(products, requests);
        return Failure(outcome.error);
      }
      FetchedOutcome(products, requests);
      var draft := outcome.value;

      // bulk update of the fetched products
      ghost var before := products;
      assert before == old(products);
      products := products + draft.table;

      // the order is created pending
      var order := Order(nextOrderId, draft.total, Pending);
      orders := orders[order.id := order];
      nextOrderId := nextOrderId + 1;

      // the queued lines are attached to the order and bulk created
      var items := AttachLines(draft.lines, order.id);
      orderItems := orderItems + items;

      // the order is marked completed
      order := order.(status := Completed);
      orders := orders[order.id := order];
      r := Success(order);

      SuccessfulOrder(before, old(orders), old(orderItems), order.id, requests, draft, items);
      assert orders == old(orders)[order.id := order];
    }
  }

  /** The worked example of a two-product order, and the stock boundary. */
  method ExampleOrders() {
    var store := new Store(map[1 := Product("A", 10, 5), 2 := Product("B", 20, 3)]);
    var reqs := [Request(1, Some(2)), Request(2, None)];
    assert Passes(store.products, reqs, 0) by { assert reqs[..0] == []; }
    assert Passes(store.products, reqs, 1) by { assert reqs[..1] == [reqs[0]]; }
    var r := store.ProcessOrder(reqs);
    assert r.value.totalPrice == 40 && r.value.status == Completed;
    assert store.products[1].stock == 3 && store.products[2].stock == 2;

    // requesting exactly the stock that is left succeeds
    var all := [Request(1, Some(3))];
    assert Passes(store.products, all, 0) by { assert all[..0] == []; }
    r := store.ProcessOrder(all);
    assert r.Success? && store.products[1].stock == 0;
    assert store.products[2].stock == 2 by { assert all[1..] == []; }

    // one more unit fails, quoting what is available and what was requested
    var more := [Request(2, Some(1)), Request(2, Some(2))];
    assert Passes(store.products, more, 0) by { assert more[..0] == []; }
    assert !Passes(store.products, more, 1) by {
      assert more[..1] == [more[0]] && [more[0]][1..] == [];
    }
    assert FirstFailing(store.products, more, 1);
    ghost var stockBefore := store.products;
    r := store.ProcessOrder(more);
    assert r.Failure?;
    assert r.error == InsufficientStock("B", 1, 2) by {
      assert more[..1] == [more[0]];
      DeductFailsAtFirst(stockBefore, more, 1);
    }
    assert store.products[2].stock == 2;
  }
}
