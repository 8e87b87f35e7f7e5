/**
 * Reference semantics of the validation and deduction loop of `process_order`:
 * the requests are walked in input order against a product table, each one is
 * looked up, checked against the stock that is left and deducted, and the run
 * stops at the first request that fails.
 *
 * `Deduct` is the executable statement of that walk; the lemmas below relate it
 * to independent definitions (`Demand`, `Passes`, `ErrorAt`, `TotalPrice`) that
 * say what the walk means without repeating how it is computed.
 */
module Inventory {
  import opened Wrappers

  type ProductId = int

  /** A product row. The price is an integer number of cents. */
  datatype Product = Product(name: string, price: int, stock: int)

  /** One requested item; `quantity` is absent when the caller left it out. */
  datatype Request = Request(productId: ProductId, quantity: Option<int>)

  /** A line item that is not yet attached to an order. */
  datatype Line = Line(productId: ProductId, quantity: int)

  /** The two validation errors the loop raises. */
  datatype OrderError =
    | ProductNotFound(id: ProductId)
    | InsufficientStock(name: string, available: int, requested: int)

  /** What a run of the loop produces: the updated table, the running total and the queued lines. */
  datatype Draft = Draft(table: map<ProductId, Product>, total: int, lines: seq<Line>)

  /** The effective quantity of a request: the one given, or 1 when it is absent. */
  function Quantity(req: Request): int {
    match req.quantity
    case None => 1
    case Some(q) => q
  }

  /** Does some request name product `id`? */
  predicate Named(reqs: seq<Request>, id: ProductId) {
    exists k :: 0 <= k < |reqs| && reqs[k].productId == id
  }

  /** The products of `p` that some request names: the map built by the bulk read. */
  function Fetch(p: map<ProductId, Product>, reqs: seq<Request>): map<ProductId, Product> {
    map id | id in p && Named(reqs, id) :: p[id]
  }

  /** The table after `q` units of product `id` are taken out of stock. */
  function Take(t: map<ProductId, Product>, id: ProductId, q: int): map<ProductId, Product>
    requires id in t
  {
    t[id := t[id].(stock := t[id].stock - q)]
  }

  /** The walk over the requests, stopping at the first error. */
  function Deduct(t: map<ProductId, Product>, reqs: seq<Request>): Result<Draft, OrderError>
    decreases |reqs|
  {
    if reqs == [] then Success(Draft(t, 0, []))
    else
      var id, q := reqs[0].productId, Quantity(reqs[0]);
      if id !in t then Failure(ProductNotFound(id))
      else if t[id].stock < q then Failure(InsufficientStock(t[id].name, t[id].stock, q))
      else
        match Deduct(Take(t, id, q), reqs[1..])
        case Failure(e) => Failure(e)
        case Success(d) => Success(Draft(d.table, t[id].price * q + d.total, [Line(id, q)] + d.lines))
  }

  /** A run that has already accumulated `total` and `lines`, continued by `rest`. */
  function Resume(total: int, lines: seq<Line>, rest: Result<Draft, OrderError>): Result<Draft, OrderError> {
    match rest
    case Failure(e) => Failure(e)
    case Success(d) => Success(Draft(d.table, total + d.total, lines + d.lines))
  }

  /** One step of the walk: deducting a request that passes moves its price and line into the prefix. */
  lemma ResumeStep(t: map<ProductId, Product>, reqs: seq<Request>, i: int, total: int, lines: seq<Line>)
    requires 0 <= i < |reqs|
    requires reqs[i].productId in t && Quantity(reqs[i]) <= t[reqs[i].productId].stock
    ensures var id, q := reqs[i].productId, Quantity(reqs[i]);
      Resume(total, lines, Deduct(t, reqs[i..]))
      == Resume(total + t[id].price * q, lines + [Line(id, q)], Deduct(Take(t, id, q), reqs[i + 1..]))
  {
    var id, q := reqs[i].productId, Quantity(reqs[i]);
    assert reqs[i..][0] == reqs[i] && reqs[i..][1..] == reqs[i + 1..];
    match Deduct(Take(t, id, q), reqs[i + 1..])
    case Failure(_) =>
    case Success(d) =>
      assert lines + ([Line(id, q)] + d.lines) == lines + [Line(id, q)] + d.lines;
  }

  // ---------------------------------------------------------------------------
  // Reference definitions
  // ---------------------------------------------------------------------------

  /** The total quantity that the requests `reqs` ask of product `id`. */
  function Demand(reqs: seq<Request>, id: ProductId): int {
    if reqs == [] then 0
    else (if reqs[0].productId == id then Quantity(reqs[0]) else 0) + Demand(reqs[1..], id)
  }

  /**
   * Request `k` passes when its product exists and its quantity does not exceed
   * the stock left after the requests before it have been deducted.
   */
  predicate Passes(t: map<ProductId, Product>, reqs: seq<Request>, k: int)
    requires 0 <= k < |reqs|
  {
    var id := reqs[k].productId;
    id in t && Quantity(reqs[k]) <= t[id].stock - Demand(reqs[..k], id)
  }

  /** The error request `k` raises when it does not pass. */
  function ErrorAt(t: map<ProductId, Product>, reqs: seq<Request>, k: int): OrderError
    requires 0 <= k < |reqs|
  {
    var id := reqs[k].productId;
    if id !in t then ProductNotFound(id)
    else InsufficientStock(t[id].name, t[id].stock - Demand(reqs[..k], id), Quantity(reqs[k]))
  }

  /** Request `k` is the first one that does not pass. */
  predicate FirstFailing(t: map<ProductId, Product>, reqs: seq<Request>, k: int) {
    && 0 <= k < |reqs|
    && !Passes(t, reqs, k)
    && forall j :: 0 <= j < k ==> Passes(t, reqs, j)
  }

  /** Every request names a product of `t`. */
  predicate AllIn(t: map<ProductId, Product>, reqs: seq<Request>) {
    forall k :: 0 <= k < |reqs| ==> reqs[k].productId in t
  }

  /** The sum over the requests of price times quantity. */
  function TotalPrice(t: map<ProductId, Product>, reqs: seq<Request>): int
    requires AllIn(t, reqs)
  {
    if reqs == [] then 0
    else t[reqs[0].productId].price * Quantity(reqs[0]) + TotalPrice(t, reqs[1..])
  }

  // ---------------------------------------------------------------------------
  // Facts about the reference definitions
  // ---------------------------------------------------------------------------

  /** Demand is additive: appending a request adds that request's quantity. */
  lemma {:induction false} DemandAppend(s: seq<Request>, r: Request, id: ProductId)
    ensures Demand(s + [r], id) == Demand(s, id) + (if r.productId == id then Quantity(r) else 0)
  {
    if s == [] {
      assert s + [r] == [r];
      assert [r][1..] == [];
    } else {
      assert (s + [r])[1..] == s[1..] + [r];
      DemandAppend(s[1..], r, id);
    }
  }

  /** A product no request names is asked for nothing. */
  lemma {:induction false} DemandUnnamed(s: seq<Request>, id: ProductId)
    requires !Named(s, id)
    ensures Demand(s, id) == 0
  {
    if s != [] {
      assert s[0].productId != id;
      forall k | 0 <= k < |s[1..]| ensures s[1..][k].productId != id {
        assert s[1..][k] == s[k + 1];
      }
      DemandUnnamed(s[1..], id);
    }
  }

  /**
   * Once the first request has been deducted, request `k` of `reqs` sees the
   * same stock as request `k - 1` of the remaining requests does in the
   * updated table.
   */
  lemma PassesShift(t: map<ProductId, Product>, reqs: seq<Request>, k: int)
    requires 1 <= k < |reqs| && reqs[0].productId in t
    ensures var t' := Take(t, reqs[0].productId, Quantity(reqs[0]));
            && Passes(t, reqs, k) == Passes(t', reqs[1..], k - 1)
            && ErrorAt(t, reqs, k) == ErrorAt(t', reqs[1..], k - 1)
  {
    assert reqs[..k][1..] == reqs[1..][..k - 1];
    assert reqs[..k][0] == reqs[0];
    assert reqs[1..][k - 1] == reqs[k];
  }

  /** The first request sees the table as it is. */
  lemma PassesFirst(t: map<ProductId, Product>, reqs: seq<Request>)
    requires 0 < |reqs|
    ensures Passes(t, reqs, 0) <==> reqs[0].productId in t && Quantity(reqs[0]) <= t[reqs[0].productId].stock
    ensures ErrorAt(t, reqs, 0) == if reqs[0].productId !in t then ProductNotFound(reqs[0].productId)
      else InsufficientStock(t[reqs[0].productId].name, t[reqs[0].productId].stock, Quantity(reqs[0]))
  {
    assert reqs[..0] == [];
  }

  // ---------------------------------------------------------------------------
  // The walk against the reference definitions
  // ---------------------------------------------------------------------------

  /** The walk succeeds exactly when every request passes. */
  lemma {:induction false} DeductSucceedsIff(t: map<ProductId, Product>, reqs: seq<Request>)
    ensures Deduct(t, reqs).Success? <==> forall k :: 0 <= k < |reqs| ==> Passes(t, reqs, k)
  {
    if reqs != [] {
      var id, q := reqs[0].productId, Quantity(reqs[0]);
      PassesFirst(t, reqs);
      if id in t && q <= t[id].stock {
        var t', rest := Take(t, id, q), reqs[1..];
        DeductSucceedsIff(t', rest);
        forall k | 1 <= k < |reqs| ensures Passes(t, reqs, k) == Passes(t', rest, k - 1) {
          PassesShift(t, reqs, k);
        }
        forall k | 0 <= k < |rest| ensures Passes(t', rest, k) == Passes(t, reqs, k + 1) {
          PassesShift(t, reqs, k + 1);
        }
      }
    }
  }

  /** When request `k` is the first that does not pass, the walk fails with its error. */
  lemma {:induction false} DeductFailsAtFirst(t: map<ProductId, Product>, reqs: seq<Request>, k: int)
    requires FirstFailing(t, reqs, k)
    ensures Deduct(t, reqs) == Failure(ErrorAt(t, reqs, k))
  {
    var id, q := reqs[0].productId, Quantity(reqs[0]);
    PassesFirst(t, reqs);
    if k > 0 {
      assert Passes(t, reqs, 0);
      var t', rest := Take(t, id, q), reqs[1..];
      PassesShift(t, reqs, k);
      forall j | 0 <= j < k - 1 ensures Passes(t', rest, j) {
        PassesShift(t, reqs, j + 1);
      }
      DeductFailsAtFirst(t', rest, k - 1);
    }
  }

  /** Every failure of the walk is the error of its first failing request. */
  lemma {:induction false} DeductFailureIsFirstFailing(t: map<ProductId, Product>, reqs: seq<Request>)
    requires Deduct(t, reqs).Failure?
    ensures exists k :: FirstFailing(t, reqs, k) && Deduct(t, reqs).error == ErrorAt(t, reqs, k)
  {
    var id, q := reqs[0].productId, Quantity(reqs[0]);
    PassesFirst(t, reqs);
    if id !in t || t[id].stock < q {
      assert FirstFailing(t, reqs, 0);
    } else {
      var t', rest := Take(t, id, q), reqs[1..];
      DeductFailureIsFirstFailing(t', rest);
      var k :| FirstFailing(t', rest, k) && Deduct(t', rest).error == ErrorAt(t', rest, k);
      PassesShift(t, reqs, k + 1);
      forall j | 1 <= j < k + 1 ensures Passes(t, reqs, j) {
        PassesShift(t, reqs, j);
      }
      assert FirstFailing(t, reqs, k + 1);
    }
  }

  /**
   * On success every product's stock has gone down by exactly what the requests
   * asked of it, and nothing else about the table has changed.
   */
  lemma {:induction false} DeductConserves(t: map<ProductId, Product>, reqs: seq<Request>)
    requires Deduct(t, reqs).Success?
    ensures Deduct(t, reqs).value.table.Keys == t.Keys
    ensures forall id :: id in t ==>
      Deduct(t, reqs).value.table[id] == t[id].(stock := t[id].stock - Demand(reqs, id))
  {
    if reqs != [] {
      var id, q := reqs[0].productId, Quantity(reqs[0]);
      DeductConserves(Take(t, id, q), reqs[1..]);
    }
  }

  /** On success a product that no request names is left exactly as it was. */
  lemma {:induction false} DeductLeavesUnnamed(t: map<ProductId, Product>, reqs: seq<Request>, id: ProductId)
    requires Deduct(t, reqs).Success? && id in t && !Named(reqs, id)
    ensures id in Deduct(t, reqs).value.table && Deduct(t, reqs).value.table[id] == t[id]
  {
    DeductConserves(t, reqs);
    DemandUnnamed(reqs, id);
  }

  /**
   * While the first `k` requests pass, the stock they leave of a product is
   * never negative, provided the product started non-negative or one of them
   * named it: a product requested more than once is checked each time against
   * what the earlier requests left.
   */
  lemma {:induction false} StockLeftNonNegative(t: map<ProductId, Product>, reqs: seq<Request>, k: int, id: ProductId)
    requires 0 <= k <= |reqs| && id in t
    requires forall j :: 0 <= j < k ==> Passes(t, reqs, j)
    requires t[id].stock >= 0 || Named(reqs[..k], id)
    ensures t[id].stock - Demand(reqs[..k], id) >= 0
  {
    if k == 0 {
      assert reqs[..0] == [];
    } else {
      assert reqs[..k] == reqs[..k - 1] + [reqs[k - 1]];
      DemandAppend(reqs[..k - 1], reqs[k - 1], id);
      assert Passes(t, reqs, k - 1);
      if reqs[k - 1].productId != id {
        if !(t[id].stock >= 0) {
          var j :| 0 <= j < k && reqs[..k][j].productId == id;
          assert reqs[..k - 1][j] == reqs[..k][j];
        }
        StockLeftNonNegative(t, reqs, k - 1, id);
      }
    }
  }

  /**
   * On success a product's final stock is non-negative when it started
   * non-negative, and always when some request named it.
   */
  lemma {:induction false} DeductKeepsStockNonNegative(t: map<ProductId, Product>, reqs: seq<Request>, id: ProductId)
    requires Deduct(t, reqs).Success? && id in t
    requires t[id].stock >= 0 || Named(reqs, id)
    ensures id in Deduct(t, reqs).value.table && Deduct(t, reqs).value.table[id].stock >= 0
  {
    DeductSucceedsIff(t, reqs);
    DeductConserves(t, reqs);
    assert reqs[..|reqs|] == reqs;
    StockLeftNonNegative(t, reqs, |reqs|, id);
  }

  /** `TotalPrice` reads only the prices of the requested products. */
  lemma {:induction false} TotalPriceSamePrices(t: map<ProductId, Product>, u: map<ProductId, Product>, reqs: seq<Request>)
    requires AllIn(t, reqs) && AllIn(u, reqs)
    requires forall k :: 0 <= k < |reqs| ==> t[reqs[k].productId].price == u[reqs[k].productId].price
    ensures TotalPrice(t, reqs) == TotalPrice(u, reqs)
  {
    if reqs != [] {
      assert AllIn(t, reqs[1..]) && AllIn(u, reqs[1..]) by {
        forall k | 0 <= k < |reqs[1..]| ensures reqs[1..][k] == reqs[k + 1] { }
      }
      forall k | 0 <= k < |reqs[1..]|
        ensures t[reqs[1..][k].productId].price == u[reqs[1..][k].productId].price
      {
        assert reqs[1..][k] == reqs[k + 1];
      }
      TotalPriceSamePrices(t, u, reqs[1..]);
    }
  }

  /** On success every request names a product, and the total is the sum of price times quantity. */
  lemma {:induction false} DeductTotal(t: map<ProductId, Product>, reqs: seq<Request>)
    requires Deduct(t, reqs).Success?
    ensures AllIn(t, reqs)
    ensures Deduct(t, reqs).value.total == TotalPrice(t, reqs)
  {
    if reqs != [] {
      var id, q := reqs[0].productId, Quantity(reqs[0]);
      var t', rest := Take(t, id, q), reqs[1..];
      DeductTotal(t', rest);
      forall k | 0 <= k < |reqs| ensures reqs[k].productId in t {
        if k > 0 { assert reqs[k] == rest[k - 1]; }
      }
      forall k | 0 <= k < |rest| ensures t'[rest[k].productId].price == t[rest[k].productId].price {
        assert rest[k] == reqs[k + 1];
      }
      TotalPriceSamePrices(t', t, rest);
    }
  }

  /** On success there is one line per request, in input order, with its product and effective quantity. */
  lemma {:induction false} DeductLines(t: map<ProductId, Product>, reqs: seq<Request>)
    requires Deduct(t, reqs).Success?
    ensures |Deduct(t, reqs).value.lines| == |reqs|
    ensures forall k :: 0 <= k < |reqs| ==>
      Deduct(t, reqs).value.lines[k] == Line(reqs[k].productId, Quantity(reqs[k]))
  {
    if reqs != [] {
      var id, q := reqs[0].productId, Quantity(reqs[0]);
      var t', rest := Take(t, id, q), reqs[1..];
      DeductLines(t', rest);
      forall k | 1 <= k < |reqs|
        ensures Deduct(t, reqs).value.lines[k] == Line(reqs[k].productId, Quantity(reqs[k]))
      {
        assert reqs[k] == rest[k - 1];
      }
    }
  }

  /** A request that leaves out its quantity behaves exactly as one that asks for 1. */
  lemma {:induction false} AbsentQuantityIsOne(t: map<ProductId, Product>, reqs: seq<Request>, k: int)
    requires 0 <= k < |reqs| && reqs[k].quantity.None?
    ensures Deduct(t, reqs) == Deduct(t, reqs[k := Request(reqs[k].productId, Some(1))])
  {
    var reqs' := reqs[k := Request(reqs[k].productId, Some(1))];
    assert reqs'[0].productId == reqs[0].productId && Quantity(reqs'[0]) == Quantity(reqs[0]);
    if k == 0 {
      assert reqs'[1..] == reqs[1..];
    } else {
      var id, q := reqs[0].productId, Quantity(reqs[0]);
      if id in t {
        assert reqs'[1..] == reqs[1..][k - 1 := Request(reqs[k].productId, Some(1))];
        AbsentQuantityIsOne(Take(t, id, q), reqs[1..], k - 1);
      }
    }
  }

  // ---------------------------------------------------------------------------
  // The walk over the fetched table, stated against the whole product table
  // ---------------------------------------------------------------------------

  /** Looking a request up in the fetched table is the same as looking it up in the whole table. */
  lemma {:induction false} FetchAgrees(p: map<ProductId, Product>, reqs: seq<Request>, k: int)
    requires 0 <= k < |reqs|
    ensures Passes(Fetch(p, reqs), reqs, k) == Passes(p, reqs, k)
    ensures ErrorAt(Fetch(p, reqs), reqs, k) == ErrorAt(p, reqs, k)
  {
    assert Named(reqs, reqs[k].productId);
  }

  /**
   * The walk over the fetched products succeeds exactly when every request
   * passes against the whole table, and otherwise fails with the error of the
   * first request that does not.
   */
  lemma FetchedOutcome(p: map<ProductId, Product>, reqs: seq<Request>)
    ensures Deduct(Fetch(p, reqs), reqs).Success? <==> forall k :: 0 <= k < |reqs| ==> Passes(p, reqs, k)
    ensures Deduct(Fetch(p, reqs), reqs).Failure? ==>
      exists k :: FirstFailing(p, reqs, k) && Deduct(Fetch(p, reqs), reqs).error == ErrorAt(p, reqs, k)
  {
    var f := Fetch(p, reqs);
    forall k | 0 <= k < |reqs| ensures Passes(f, reqs, k) == Passes(p, reqs, k) && ErrorAt(f, reqs, k) == ErrorAt(p, reqs, k) {
      FetchAgrees(p, reqs, k);
    }
    DeductSucceedsIff(f, reqs);
    if Deduct(f, reqs).Failure? {
      DeductFailureIsFirstFailing(f, reqs);
      var k :| FirstFailing(f, reqs, k) && Deduct(f, reqs).error == ErrorAt(f, reqs, k);
      assert FirstFailing(p, reqs, k);
    }
  }

  /**
   * On success, writing the fetched products back into the whole table takes
   * each product's demand off its stock and changes nothing else; the total is
   * the sum of price times quantity and there is one line per request.
   */
  lemma FetchedSuccess(p: map<ProductId, Product>, reqs: seq<Request>)
    requires Deduct(Fetch(p, reqs), reqs).Success?
    ensures var d := Deduct(Fetch(p, reqs), reqs).value;
      && (p + d.table).Keys == p.Keys
      && (forall id :: id in p ==> (p + d.table)[id] == p[id].(stock := p[id].stock - Demand(reqs, id)))
      && AllIn(p, reqs)
      && d.total == TotalPrice(p, reqs)
      && |d.lines| == |reqs|
      && forall k :: 0 <= k < |reqs| ==> d.lines[k] == Line(reqs[k].productId, Quantity(reqs[k]))
  {
    var f := Fetch(p, reqs);
    var d := Deduct(f, reqs).value;
    DeductConserves(f, reqs);
    DeductTotal(f, reqs);
    DeductLines(f, reqs);
    forall id | id in p ensures (p + d.table)[id] == p[id].(stock := p[id].stock - Demand(reqs, id)) {
      if id !in f {
        DemandUnnamed(reqs, id);
      }
    }
    TotalPriceSamePrices(f, p, reqs);
  }

  /**
   * On success, writing the fetched products back leaves a product's stock
   * non-negative when it started non-negative, and always when it was requested.
   */
  lemma FetchedStockNonNegative(p: map<ProductId, Product>, reqs: seq<Request>, id: ProductId)
    requires Deduct(Fetch(p, reqs), reqs).Success? && id in p
    requires p[id].stock >= 0 || Named(reqs, id)
    ensures (p + Deduct(Fetch(p, reqs), reqs).value.table)[id].stock >= 0
  {
    var f := Fetch(p, reqs);
    if id in f {
      DeductConserves(f, reqs);
      DeductKeepsStockNonNegative(f, reqs, id);
    } else {
      FetchedSuccess(p, reqs);
      DemandUnnamed(reqs, id);
    }
  }

  /** The same, for every product of the table at once. */
  lemma FetchedStockNonNegativeAll(p: map<ProductId, Product>, reqs: seq<Request>)
    requires Deduct(Fetch(p, reqs), reqs).Success?
    ensures forall id :: id in p && (p[id].stock >= 0 || Named(reqs, id)) ==>
      (p + Deduct(Fetch(p, reqs), reqs).value.table)[id].stock >= 0
  {
    forall id | id in p && (p[id].stock >= 0 || Named(reqs, id))
      ensures (p + Deduct(Fetch(p, reqs), reqs).value.table)[id].stock >= 0
    {
      FetchedStockNonNegative(p, reqs, id);
    }
  }
}
