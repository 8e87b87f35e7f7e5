# Order processing: all-or-nothing inventory deduction

This project models `process_order` from the store's order module. The operation
takes a list of requested items, each a product id and an optional quantity. It
walks the list in input order. For each item it looks the product up, takes the
quantity (1 when absent) and checks it against the stock that is left. Then it
deducts the stock and adds price times quantity to a running total. After the
walk it writes the stock back, creates an order as PENDING, attaches one order
item per request to it and marks it COMPLETED. All of this happens inside one
database transaction, so an unknown product or a shortfall leaves the store as it
was.

Files:

- `wrappers.dfy`: `Option` and `Result`.
- `inventory.dfy` (module `Inventory`): the reference semantics of the walk.
  `Deduct` is the walk written as a function. `Demand` (what the requests ask of
  a product), `Passes`/`ErrorAt`/`FirstFailing` (which request fails, and how)
  and `TotalPrice` say what the walk means. The lemmas connect the two.
- `order_processing.dfy` (module `OrderProcessing`): the store as a class
  `Store`. It holds a product map, the orders keyed by id, a sequence of order
  items and a next-order-id counter. `Store.ProcessOrder` is the imperative
  model of `process_order`. It has two loops: `CheckAndDeduct` for the walk and
  `AttachLines` for attaching the items. It ends with the PENDING to COMPLETED
  update. `Store.Valid` is the store invariant. Every order is stored under its
  id and is COMPLETED. Every item belongs to a stored order and a stored product.
  Every order's total equals the sum over its items of price times quantity.

Modelling choices, where the description of the system and the code differ (the
model follows the code):

- Quantity is an unbounded `int` and is not validated. A quantity of 0 or a
  negative quantity is accepted, and a negative one raises the stock and lowers
  the total. The description says quantities are positive.
- An empty request list is accepted. It creates a COMPLETED order with total 0
  and no items. The description calls the input non-empty.
- Stock is an `int`. The code does not guarantee non-negative stock in general.
  It guarantees it for every product whose stock started non-negative, and for
  every product some request named. Both are proved.
- Requests name products by id, and the fetched product is shared between
  requests. A repeated id is therefore checked against stock that the earlier
  requests already reduced. `Passes` states this with `Demand(reqs[..k], id)`.
- Prices are integer cents.

## Model

| member | source | states |
|---|---|---|
| `OrderProcessing.Store.ProcessOrder` | store/orders/utils/order_processing.py:8-59 | Succeeds iff every request passes against the store's stock. On failure, the error is that of the first failing request and products, orders, items and the id counter are unchanged (rollback). On success, each product's stock drops by exactly its demand and the rest of the product is unchanged. Stock that was non-negative or requested stays non-negative. The returned order has the next id, the Σ price×quantity total and status COMPLETED. It is the only order added. The items added are one per request, in order. The store invariant is kept. |
| `OrderProcessing.CheckAndDeduct` | store/orders/utils/order_processing.py:14-40 | The loop's result is the walk `Deduct` over the fetched products. It succeeds iff every request passes. Otherwise it fails with the error of the first request that does not pass. |
| `OrderProcessing.AttachLines` | store/orders/utils/order_processing.py:51-52 | Every queued line gets the new order's id, keeping its product, quantity and position. |
| `OrderProcessing.SuccessfulOrder` | store/orders/utils/order_processing.py:42-57 | After a successful walk, the write-back, the new COMPLETED order and its items give a consistent store. Every request names a product. The total is Σ price×quantity. Every stock drops by its demand and stays non-negative when it started so or was requested. The new items are exactly one per request, in order. |
| `OrderProcessing.RecordOrderKeepsConsistent` | store/orders/utils/order_processing.py:43-57 | Recording a completed order under the next id, with one item per request and the requests' total, keeps every order's total equal to the sum of its items when only stock changes. |
| `OrderProcessing.NewItemsTotal` | store/orders/utils/order_processing.py:38-53 | The items created for the requests add up, at the products' prices, to the order's total price. |
| `OrderProcessing.ItemsTotalOtherOrders` | store/orders/utils/order_processing.py:51-53 | Items attached to a new order do not change the total of any existing order. |
| `Inventory.DeductSucceedsIff` | store/orders/utils/order_processing.py:18-38 | The walk succeeds exactly when every request names an existing product and asks for no more than the stock left by the requests before it. |
| `Inventory.DeductFailsAtFirst` | store/orders/utils/order_processing.py:22-34 | When request k is the first that does not pass, the walk fails with ProductNotFound(id) for an unknown id. Otherwise it fails with InsufficientStock(name, stock left, requested). This holds whatever the later requests are. |
| `Inventory.DeductFailureIsFirstFailing` | store/orders/utils/order_processing.py:22-34 | Every failure of the walk is the error of its first failing request. |
| `Inventory.FetchedOutcome` | store/orders/utils/order_processing.py:11-34 | The walk over the products fetched for the requests succeeds iff every request passes against the whole table. Otherwise it fails with the first failing request's error. |
| `Inventory.FetchAgrees` | store/orders/utils/order_processing.py:11-22 | Looking a request up in the fetched products gives the same check and error as the whole table. |
| `Inventory.DeductConserves` | store/orders/utils/order_processing.py:36-37 | On success, each product's final stock is its initial stock minus the sum of the quantities of all requests naming it. Names, prices and the set of products are unchanged. |
| `Inventory.DeductLeavesUnnamed` | store/orders/utils/order_processing.py:37-43 | On success, a product that no request names is left exactly as it was. |
| `Inventory.FetchedSuccess` | store/orders/utils/order_processing.py:11-43 | On success, writing the fetched products back takes each product's demand off its stock and changes nothing else. The total is Σ price×quantity. There is one line per request, in order. |
| `Inventory.StockLeftNonNegative` | store/orders/utils/order_processing.py:29-37 | While requests pass, the stock they leave of a product is never negative if it started non-negative or was named by one of them. This covers repeated requests for the same product. |
| `Inventory.DeductKeepsStockNonNegative` | store/orders/utils/order_processing.py:29-37 | On success, a product's final stock is non-negative if it started non-negative or any request named it. |
| `Inventory.FetchedStockNonNegative` | store/orders/utils/order_processing.py:29-43 | The same bound, for one product of the whole table after the write-back. |
| `Inventory.FetchedStockNonNegativeAll` | store/orders/utils/order_processing.py:29-43 | The same bound, for every product of the table at once. |
| `Inventory.DeductTotal` | store/orders/utils/order_processing.py:15-38 | On success, every request names a product and the running total is Σ over requests of price×quantity. |
| `Inventory.DeductLines` | store/orders/utils/order_processing.py:20-40 | On success, there is one queued line per request, in input order, with its product id and its effective quantity. |
| `Inventory.AbsentQuantityIsOne` | store/orders/utils/order_processing.py:20 | A request without a quantity behaves exactly like the same request with quantity 1. |
| `Inventory.ResumeStep` | store/orders/utils/order_processing.py:36-40 | Deducting a passing request moves its price×quantity into the total and its line to the end of the queue. |
| `Inventory.PassesShift` | store/orders/utils/order_processing.py:22-37 | After the first request is deducted, every later request sees the stock the earlier requests left. |
| `Inventory.DemandAppend` | store/orders/utils/order_processing.py:37 | Appending a request adds its quantity to its product's demand and nothing to the others. |

## Left out

- The database calls (bulk read, bulk update, order creation, bulk item creation, saving the status field) are modelled as updates of the store's maps and sequences. Storage failures and their rollback are not modelled.
- The transaction itself is not modelled. Atomicity is modelled by writing nothing to the store until every request has passed, and it is stated as "on failure the store is unchanged".
- Concurrency is not modelled. The products are read outside the transaction without row locks, so two concurrent calls can both pass the stock check and oversell. This sequential model cannot show that.
- Decimal prices are integer cents. The error messages are reduced to the error kind and its fields (id; name, available, requested).
- Some malformed input raises a runtime error before any validation, and these are not modelled. An item without a product id fails with a key error at the bulk read. A quantity given as null fails with a type error at the stock comparison. An id of a different type from the stored ids (a string for a numeric id) is found by the bulk read but missed by the lookup. In the model every request carries an id of one type, and its quantity is either given or absent.
- Order fields other than id, total and status are not modelled. The model also has no status values other than PENDING and COMPLETED. The order status enumeration and the model schemas are not part of this model.
- `Store.ProcessOrder` returns the order as a value. The later aliasing of the returned order object with the stored order is not modelled.
- `Store.Valid` ties each order's total to the current product prices. Nothing in this model changes a price, and price changes by other code are not modelled.
