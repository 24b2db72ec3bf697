# Storefront cart and order bookkeeping, in Dafny

This project models the bookkeeping logic of a small React storefront
("Shopify Lite", `src/App.jsx`). In the source, this logic sits inline in the
`Storefront`, `CartSidebar`, `CheckoutView`, `AdminDashboard` and `OrderList`
components. Here it is pulled out as pure functions over immutable data:

- **Catalog** (`catalog.dfy`): product records, the `find`-by-id lookup, and
  the customer catalog, which keeps only products with stock > 0.
- **Cart** (`cart.dfy`): the cart object from product id to quantity. It
  starts empty. `addToCart` adds one. `updateQuantity` stores a positive
  quantity or deletes the product. The minus, plus and trash buttons are built
  on it. `cartCount` is the badge count. JavaScript keeps an object's keys in
  insertion order, and the sidebar, checkout summary and order lines all list
  the cart in that order. So the cart is a sequence of entries with distinct
  ids, and `Quantities` gives its plain map view.
- **Pricing** (`pricing.dfy`): `cartItems` joins cart entries with products
  and drops entries with no product. `total` is the sum of price × quantity.
- **Checkout** (`checkout.dfy`): the order document built on submit, the
  form's required fields, the result of the write, and the cart being cleared
  after a successful order.
- **Orders** (`orders.dfy`): the admin's "(n new)" count, the "Mark as
  Shipped" action, and new order documents arriving in the list.
- `seqs.dfy` holds the shared helpers: `reduce` as a left fold, a reference
  sum, and subsequences. `wrappers.dfy` holds `Option`.

Prices are integer cents, so all arithmetic is exact. JavaScript floats only
approximate it. The clock reading for `createdAt` and the outcomes of the
database writes are parameters.

The subtotal covers exactly the cart entries that resolve to a product in the
current (in-stock) catalog; entries with no matching product count for
nothing. The filter also drops a resolved item whose id is the empty string,
because its filter tests the id for truthiness; `Pricing.Resolves` keeps that
detail.

## Model

| member | source | states |
|---|---|---|
| Catalog.Find | src/App.jsx:515 | `find` by id returns the first product with that id. It returns nothing exactly when no product has that id. |
| Catalog.InStock | src/App.jsx:421 | The customer catalog holds every product with stock > 0 as often as the fetched list does. It holds nothing with stock ≤ 0. |
| Catalog.InStockKeepsOrder | src/App.jsx:421 | The customer catalog is a subsequence of the fetched list, so the fetched order is kept. |
| Catalog.FindInStock | src/App.jsx:421 | A product found in the customer catalog has stock > 0 and is one of the fetched products. |
| Cart.Lookup | src/App.jsx:429 | Reading a cart key gives nothing exactly when the key is absent. Otherwise it gives a quantity stored under that key. |
| Cart.Empty | src/App.jsx:413 | The initial cart has no keys and satisfies the invariant (distinct keys, every quantity ≥ 1). |
| Cart.AddToCart | src/App.jsx:426-433 | The product's quantity becomes its old value + 1, or 1 if absent. Every other key and value is unchanged. A new key goes last and existing keys keep their order. The invariant is preserved. |
| Cart.UpdateQuantity | src/App.jsx:521-531 | For q > 0 the map becomes old[id := q]. For q ≤ 0 the key is removed and the rest keep their order. No other entry changes. The invariant is preserved. |
| Cart.RemoveKeepsOrder | src/App.jsx:527 | Deleting a key leaves the other entries in their original order. |
| Cart.Decrement | src/App.jsx:556 | The minus button lowers the quantity by one. At quantity 1 it removes the product. Other products are unchanged. |
| Cart.IncrementIsAddToCart | src/App.jsx:558 | On a valid cart the plus button gives exactly the cart "Add to Cart" gives. |
| Cart.Trash | src/App.jsx:562 | The trash button always removes the product and nothing else. |
| Cart.Count | src/App.jsx:435 | The badge count, a left fold from 0, equals the sum of all stored quantities. |
| Cart.CountAtLeastEntries | src/App.jsx:459 | On a valid cart the count is at least the number of products. So the badge (count > 0) shows exactly when the cart has entries. |
| Cart.AddToCartCount | src/App.jsx:426-435 | "Add to Cart" raises the count by exactly 1. |
| Cart.UpdateQuantityCount | src/App.jsx:521-531 | `updateQuantity` changes the count by the new quantity (0 if removed) minus the old one. |
| Pricing.ResolveContents | src/App.jsx:514-517 | The resolved items are exactly the cart entries whose id matches a product. Each is paired with the first product of that id (as `find`) and the entry's own quantity. |
| Pricing.ResolveKeepsOrder | src/App.jsx:514-517 | The resolved items keep the cart's key order. |
| Pricing.Total | src/App.jsx:519 | The left-fold total equals the sum of price × quantity over the resolved items. |
| Pricing.SubtotalEmpty | src/App.jsx:519 | The empty cart's subtotal is 0. |
| Pricing.SubtotalNonNegative | src/App.jsx:519 | With non-negative prices a valid cart's subtotal is ≥ 0. |
| Pricing.AddToCartSubtotal | src/App.jsx:514-519 | "Add to Cart" raises the subtotal by the product's catalog price. If no product matches, the subtotal is unchanged. |
| Pricing.UpdateQuantitySubtotal | src/App.jsx:514-531 | `updateQuantity` changes the subtotal by price × (new − old quantity). Removing the product subtracts price × old quantity. Entries with no product never count. |
| Seqs.ReduceIsSum | src/App.jsx:519 | A `reduce` that adds each element's value from an initial accumulator equals that accumulator plus the reference sum. |
| Checkout.BuildOrder | src/App.jsx:601-608 | The order has status "new", the customer's name and email, and the submission time. Its lines are exactly the resolvable cart entries, with the entry's quantity and the product's name and current price. Its total equals both the cart subtotal and the sum of price × quantity over its own lines. |
| Checkout.SnapshotsKeepTotal | src/App.jsx:604-605 | Projecting resolved items to order lines keeps the sum of price × quantity. |
| Checkout.OrderLinesFollowCart | src/App.jsx:590-604 | The order's lines follow the cart's key order. Each product appears on at most one line. |
| Checkout.OrderTotalNonNegative | src/App.jsx:595 | With non-negative prices the order total is ≥ 0. |
| Checkout.OrderLinesInStock | src/App.jsx:590-593 | The storefront resolves against the in-stock catalog. So every order line names a fetched product with stock > 0, at that product's price. |
| Checkout.Submit | src/App.jsx:597-621 | The submit is blocked exactly when the name or email is empty (name reported first). Otherwise exactly one order write happens, and it is placed exactly when the write succeeds. A placed order has status "new" and total = cart subtotal. |
| Checkout.NothingResolvesEmptyOrder | src/App.jsx:590-611 | If no cart entry resolves, a valid form still places an order, with no lines and total 0. |
| Checkout.CartAfter | src/App.jsx:437-441 | After a placed order the cart is empty with count 0. A blocked or failed submit leaves it unchanged. The invariant is kept. |
| Orders.NewCountIsNewRows | src/App.jsx:214 | The filtered "(n new)" count equals the number of rows whose status is "new". |
| Orders.MarkShipped | src/App.jsx:184-192 | The ship action exists exactly for a row whose status is "new" (the button at src/App.jsx:394-395). When the database write succeeds, it sets that row's status to "shipped"; when it fails, the list is unchanged. Ids and all other fields are unchanged, and every status either stays or becomes "shipped". With unique ids, every other row is unchanged. |
| Orders.MarkShippedNewCount | src/App.jsx:214 | With unique ids, a successful ship lowers the new count by exactly 1; a failed write leaves it unchanged. |
| Orders.RunNeverReopens | src/App.jsx:184-192 | Any sequence of ship clicks keeps rows and ids. Each status stays or becomes "shipped", so an order that is not "new" never becomes "new". |
| Orders.RunNewCountNonIncreasing | src/App.jsx:214 | Ship clicks never raise the new count. |
| Orders.RecordNewCount | src/App.jsx:610-614 | A placed submission adds one document, holding the placed order with status "new", after the existing ones, which are unchanged; the new count rises by 1. A blocked or failed submission leaves the list as it was. |

## Left out

- Firebase initialisation, authentication and collection paths (src/App.jsx:87-128): these are calls into an external service.
- `onSnapshot` subscriptions and the `addDoc`/`updateDoc`/`deleteDoc` calls: these are asynchronous I/O. The model keeps only the data they carry. The success of the order write on checkout and of the status write on "Mark as Shipped" is a boolean parameter, and a new document's id is a parameter.
- The admin sort orders, by `localeCompare` on names and by `createdAt` timestamps: these depend on locale collation and the Timestamp library. `Orders.Record` appends the new order at the end instead.
- The product form (create, edit, delete; `parseFloat`/`parseInt`), price formatting with `toFixed`, and floating-point accumulation: prices are exact integer cents. `Catalog.PricesNonNegative` stands for the form's `min="0"`.
- Stock decrement on order placement: the source does not implement it.
- React rendering, view toggles, the mobile menu, and the `isCartOpen`, `isCheckingOut` and `isSubmitting` flags, plus `alert` and `window.confirm`: these are UI.
- Object key order for integer-like keys: JavaScript lists such keys first, in numeric order. Document ids are random strings, so the model uses plain insertion order.
- A document field named `id` overriding the document id when spread: documents written by this program never carry one.
- Checkout.Submit: models the `required` check as "non-empty" only. The browser's email-syntax check on the `type="email"` field is not modelled.
- Orders.MarkShipped: the action is chosen by row, not by order id. With duplicate ids, the database update would change every document with that id; the model does this too, but it proves "every other row unchanged" only for unique ids.
