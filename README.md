# Order service and inventory handlers, modelled in Dafny

This project models the request handlers of a small shop built from two Go
services. The inventory service manages products and categories. The order
service places orders against the product stock and moves orders through the
statuses `pending`, `processing`, `shipped`, `delivered` and `cancelled`.

The three MongoDB collections `products`, `categories` and `orders` are
modelled as three maps from a 12-byte `ObjectId` to the stored record
(`Models`). The store is the class `Services.Store`, which holds the three maps
as fields. Every handler that writes is a method of that class. It either
answers with one error and leaves all three maps as they were, or makes all of
its writes. A driver transaction is therefore "compute the new store, or fail
and keep the old one".

Two handlers loop over items and change stock in place: order creation and the
cancellation branch of the status update. Both are loops in
`Services.Store.CreateOrder` and `Services.Store.UpdateOrderStatus`. Each
method is proved to compute a specification function: `OrderCreation.PlaceOrder`
and `OrderStatus.ChangeStatus`. The properties of those functions are proved
as lemmas.

The read handlers are functions:
- `ProductQuery.GetProduct` and `OrderQuery.GetOrder` look up one record.
- `ProductQuery.ListProducts`, `OrderQuery.GetOrders` and
  `CategoryRules.GetCategories` list records. They are ghost. The first two
  sort on a timestamp, and the database leaves the order of equal timestamps
  open. The category listing is an unsorted `Find` over records with no
  timestamp, so its order is not fixed at all (`Listing.AnyOrder`).

Representation choices:
- `primitive.ObjectIDFromHex` is `ObjectIds.ObjectIdFromHex`. It accepts
  exactly 24 hexadecimal digits of either case. The lower-case encoder
  `ObjectIds.Hex` is its partner.
- `strconv.Atoi` is `Strconv.Atoi`: an optional sign, then at least one decimal
  digit, with a value in the 64-bit range. Its partner is `Strconv.Itoa`.
- Prices and totals are integers (cents), and times are natural-number ticks.
- A handler's `time.Now()` is the parameter `now`.
- The id `primitive.NewObjectID()` draws is the parameter `newId`. An insert
  under an id that is already stored fails the way a duplicate key fails. In
  order creation that failure happens inside the transaction, so it is a 400
  that rolls the transaction back. Elsewhere it is a 500.
- The JSON body of the status update and of the product update is decoded only
  after the record lookup, so a body that does not decode is an input: `None`.
  An update body is a map from field names to `Models.Json` values.
- Answers are `Models.Reply`: a status code with a value, or a status code with
  a message. The messages are the handlers' own strings, except two
  fixed stand-ins: `Models.MalformedBody` for the JSON decoder's error text and
  `Models.DuplicateKey` for the database driver's duplicate-key error text.

Invariant: `Models.WellFormed` holds of the store. Every record is stored under
its own id. Stock levels are never negative and prices are positive. Every
product's category exists. Category names are pairwise distinct. Every order's
total is the sum of its lines and every line has a positive quantity. Every
mutating method keeps it (`old(Valid()) ==> Valid()`).

The status update is permissive, as in the handler. Any of the five statuses
may be set from any status. Only a move into `cancelled` from another status
gives stock back. `cancelled -> cancelled` and `cancelled -> pending` only
rewrite the status. As a consequence an order can give its stock back more
than once: cancelling it, reopening it as `pending` and cancelling it again
adds every line's quantity back twice (`OrderStatus.ReopenedCancelRestocksTwice`).

## Model

| member | source | states |
|---|---|---|
| ObjectIds.ObjectIdFromHex | inventory/handlers/GetProducts.go:81-85 | an id string is accepted exactly when it is 24 hexadecimal digits, and then decodes to 12 bytes |
| ObjectIds.HexRoundTrip | inventory/handlers/GetProducts.go:81-85 | the hexadecimal form of any 12-byte id is accepted and parses back to that same id |
| ObjectIds.HexOfParsed | inventory/handlers/GetProducts.go:81-85 | re-encoding an accepted id string gives the string with its hex letters `A`-`F` lowered, so ids are case-insensitive |
| ObjectIds.ObjectIdFromHexIgnoresCase | inventory/handlers/GetProducts.go:81-85 | an id string and its lower-case spelling parse to the same id, or both are rejected |
| ObjectIds.DecodeHexBytes | inventory/handlers/GetProducts.go:81-85 | decoding the hexadecimal text of any byte string gives the bytes back |
| ObjectIds.HexBytesOfDecode | inventory/handlers/GetProducts.go:81-85 | encoding decoded bytes gives the lower-cased input |
| Strconv.AtoiRejectsStray | inventory/handlers/GetProducts.go:28-30 | any character that is not a digit, other than a sign in first place, makes the parse fail |
| Strconv.AtoiSignAlone | inventory/handlers/GetProducts.go:28-30 | the empty text and a lone `+` or `-` do not parse |
| Strconv.AtoiDigits | order-service/handlers/GetOrders.go:25-30 | digits parse to their value when it fits 64 bits, and a leading zero is ignored |
| Strconv.AtoiSigns | order-service/handlers/GetOrders.go:25-30 | a leading `+` changes nothing; a leading `-` negates, down to the most negative 64-bit value |
| Strconv.LeadingZeroValue | order-service/handlers/GetOrders.go:25-30 | a leading zero does not change a digit string's value |
| Strconv.AtoiItoa | order-service/handlers/GetOrders.go:25-30 | every 64-bit integer printed in decimal parses back to itself |
| Strconv.NatDigitsValue | order-service/handlers/GetOrders.go:25-30 | the decimal digits printed for a natural number have that value |
| Listing.NewestFirst | inventory/handlers/GetProducts.go:55 | the sort on `created_at` descending: the chosen keys each once, in non-increasing creation time |
| Listing.AnyOrder | inventory/handlers/GetCategories.go:17-31 | an unsorted listing: the given keys, each once |
| Listing.DocumentsCover | order-service/handlers/GetOrders.go:37-51 | a listing of a set of keys holds the document of every key in the set |
| Listing.Page | inventory/handlers/GetProducts.go:55 | skip and limit: at most `limit` elements, taken in order from position `offset`, and as many as remain up to `limit` |
| Listing.ConsecutivePages | inventory/handlers/GetProducts.go:55 | a page followed by the next page is the page twice as long |
| Listing.NewestExists | inventory/handlers/GetProducts.go:55 | a non-empty set of stored keys has a newest member |
| Listing.NewestFirstHead | inventory/handlers/GetProducts.go:55 | the first key of any newest-first listing is one of the keys and at least as new as every key |
| Listing.NewestFirstTail | inventory/handlers/GetProducts.go:55 | dropping the head of a newest-first listing leaves a newest-first listing of the remaining keys |
| Listing.NewestFirstUnique | inventory/handlers/GetProducts.go:55 | when no two keys share a creation time, any two newest-first listings of the same keys are equal |
| OrderCreation.PlaceOrder | order-service/handlers/CreateOrder.go:18-135 | a failure is a 400 that changes neither products nor orders; a user id of 0 or less and an empty item list are rejected first; a success is a 201 that adds exactly one `pending` order under the new id, with the requested user and `createdAt == updatedAt` |
| OrderCreation.FailureIsFinal | order-service/handlers/CreateOrder.go:57-81 | once an item fails, the whole loop fails with that item's error, whatever follows it |
| OrderCreation.ReserveAllStock | order-service/handlers/CreateOrder.go:57-103 | after the loop, each product's stock is its old stock minus the total its items asked, repeated ids included; no stock named by an item is negative; only stock and `updatedAt` change; products no item names are untouched |
| OrderCreation.ReserveAllLines | order-service/handlers/CreateOrder.go:84-92 | one line per item in request order, with the item's product and quantity and the product's price; the total is the sum of the lines |
| OrderCreation.ReserveAllSucceedsIff | order-service/handlers/CreateOrder.go:57-81 | the loop succeeds exactly when every item is admissible against the stock left by the earlier items |
| OrderCreation.NamesSnoc | order-service/handlers/CreateOrder.go:57 | an item list names a product exactly when its prefix or its last item does |
| OrderCreation.PlaceOrderSucceeded | order-service/handlers/CreateOrder.go:79-118 | a placed order's lines follow the request with the prices at that moment; its total is their sum; stock dropped by what was asked and not below zero; other products are unchanged |
| OrderCreation.PlaceOrderFailsIff | order-service/handlers/CreateOrder.go:28-35 | the handler fails exactly when the user id is not positive, there are no items, some item is not admissible, or the new id is taken |
| OrderCreation.PlaceOrderKeepsWellFormed | order-service/handlers/CreateOrder.go:57-121 | placing an order keeps the store invariant, so no stock goes negative |
| OrderStatus.ChangeStatus | order-service/repository/UpdateOrderStatus.go:16-125 | errors in the handler's order: bad id 400, missing order 404, undecodable body 400, status outside the five 400; an error changes nothing; a success is a 200 whose order is the old one with the new status and `updatedAt`, stored back under its id |
| OrderStatus.RestockEffect | order-service/repository/UpdateOrderStatus.go:72-81 | the restore loop adds to every existing product the quantity the lines hold of it; lines whose product is gone are skipped; only stock and `updatedAt` change |
| OrderStatus.RestockRaises | order-service/repository/UpdateOrderStatus.go:72-81 | restoring positive quantities never lowers a stock and creates or removes no product |
| OrderStatus.LineQtyNonNegative | order-service/repository/UpdateOrderStatus.go:72-81 | lines with positive quantities hold a non-negative amount of each product |
| OrderStatus.LineQtyOfRequest | order-service/handlers/CreateOrder.go:88-92 | lines built item by item hold exactly the quantities the request asked |
| OrderStatus.LinesNameSnoc | order-service/repository/UpdateOrderStatus.go:72 | a line list names a product exactly when its prefix or its last line does |
| OrderStatus.ChangeStatusStock | order-service/repository/UpdateOrderStatus.go:64-114 | a move into `cancelled` from another status gives every line's quantity back; every other update leaves the products exactly as they were |
| OrderStatus.ChangeStatusKeepsOrder | order-service/repository/UpdateOrderStatus.go:83-91 | an update changes only the status and `updatedAt` of that one order: lines, total, user and creation time stay, and other orders stay |
| OrderStatus.ChangeStatusKeepsWellFormed | order-service/repository/UpdateOrderStatus.go:64-114 | status updates keep the store invariant |
| OrderStatus.CancelUndoesPlace | order-service/repository/UpdateOrderStatus.go:64-81 | cancelling a freshly placed order succeeds and returns every stock level to what it was before the order |
| OrderStatus.SecondCancelIsStatusOnly | order-service/repository/UpdateOrderStatus.go:64 | cancelling an already cancelled order succeeds again but gives nothing back: only `updatedAt` changes |
| OrderStatus.ReopenedCancelRestocksTwice | order-service/repository/UpdateOrderStatus.go:64-81 | cancelling an order, reopening it as `pending` and cancelling it again succeeds and adds every line's quantity back twice |
| ProductQuery.ParsePaging | inventory/handlers/GetProducts.go:25-40 | the limit is 10 unless the text is an integer above 0, and the offset is 0 unless the text is an integer of at least 0; both results are in range |
| ProductQuery.CategoryFilter | inventory/handlers/GetProducts.go:45-52 | a non-empty category name that matches some category filters by that category's id; otherwise there is no filter |
| ProductQuery.ListProducts | inventory/handlers/GetProducts.go:55-72 | stored products that pass the filter, newest first; with n selected, the page holds none when `offset >= n`, otherwise `min(limit, n - offset)` |
| ProductQuery.ListProductsComplete | inventory/handlers/GetProducts.go:55-72 | from offset 0 with a large enough limit, the listing holds every product the filter selects, each once |
| ProductQuery.ListProductsPages | inventory/handlers/GetProducts.go:55-72 | consecutive offsets page through one fixed listing, missing nothing and repeating nothing (of the source only when creation times differ, see Left out) |
| ProductQuery.ListProductsWindow | inventory/handlers/GetProducts.go:55 | the page at `offset` is the newest-first listing from position `offset` on: entry i is entry `offset + i` of the listing's first `offset + limit` products (of the source only when creation times differ, see Left out) |
| ProductQuery.ListProductsForced | inventory/handlers/GetProducts.go:55-72 | when no two selected products share `created_at`, every page of every newest-first listing of them, each once, is the query's page |
| ProductQuery.GetProduct | inventory/handlers/GetProducts.go:75-100 | a malformed id is 400, an unknown id is 404, and otherwise the answer is 200 with the stored product |
| OrderQuery.BuildFilter | order-service/handlers/GetOrders.go:23-34 | the user filter is set exactly when the parameter parses as an integer; the status filter is set exactly when the parameter is non-empty, with no check against the statuses |
| OrderQuery.GetOrders | order-service/handlers/GetOrders.go:15-52 | exactly the matching orders, each once and nothing else, newest first |
| OrderQuery.Listed | order-service/handlers/GetOrders.go:37-51 | for a given filter: exactly the matching orders, each once and nothing else, newest first |
| OrderQuery.GetOrder | order-service/handlers/GetOrders.go:54-79 | a malformed id is 400, an unknown id is 404, and otherwise the answer is 200 with the stored order |
| OrderQuery.PlacedOrderIsVisible | order-service/handlers/GetOrders.go:54-79 | a placed order can be read back by its id, and is listed under its user and `pending` |
| CategoryRules.GetCategories | inventory/handlers/GetCategories.go:13-32 | every stored category, each once and nothing else |
| CategoryRules.InsertKeepsDistinct | inventory/handlers/GetCategories.go:50-66 | inserting a category under a new id with an untaken name keeps names distinct |
| ProductCreation.CheckProduct | inventory/handlers/CreateProduct.go:25-55 | the guards in order: name, price, stock, category id, category existence; the first failing one gives the error; it succeeds exactly when all pass, with the category's id |
| ProductUpdate.PatchKeepsWellFormed | inventory/handlers/UpdateProduct.go:49-98 | writing a patch that passes the field rules keeps the store invariant |
| Services.Store.CreateOrder | order-service/handlers/CreateOrder.go:18-135 | the in-place loop and its rollback compute exactly `PlaceOrder`; categories stay; the invariant is kept |
| Services.Store.UpdateOrderStatus | order-service/repository/UpdateOrderStatus.go:16-125 | the in-place restore loop and the status write compute exactly `ChangeStatus`; categories stay; the invariant is kept |
| Services.Store.BuildUpdate | inventory/handlers/UpdateProduct.go:49-85 | per field: name only as a non-empty string; description as any string; price only as a number above 0; stock only as a number of at least 0; a category id string must be valid (else "Invalid category ID") and name a stored category (else "Category not found"); the patch is empty exactly when no field is supplied |
| Services.Store.UpdateProduct | inventory/handlers/UpdateProduct.go:16-118 | bad id 400, unknown product 404, undecodable body 400, bad category 400, nothing to update 400, none of which changes anything; a request that passes every guard is answered 200; on 200 only that product changes, each accepted field takes the new value and every other field keeps its old one |
| Services.Store.CreateProduct | inventory/handlers/CreateProduct.go:15-78 | a failed check is a 400 with its message; a taken id is a 500; otherwise exactly one product is added with the request's fields, the new id and `createdAt == updatedAt`, and it can be read back by its id |
| Services.Store.CreateCategory | inventory/handlers/GetCategories.go:34-71 | empty name 400, taken name 409, taken id 500; otherwise exactly one category is added under the new id, replacing the client's id; names stay distinct |
| Services.Store.DeleteProduct | inventory/handlers/DeleteProduct.go:13-59 | bad id 400, unknown product 404, referenced by a matching order 409, with nothing deleted; a stored product no order matches is removed with 204, exactly that product, while orders and categories stay |

## Left out

- JSON decoding of the bodies that the create handlers decode first (CreateOrder, CreateProduct, CreateCategory): their decode error is the 400 of `encoding/json`. The model takes those requests as already decoded.
- The wording of JSON decode errors: an undecodable body in the status and product updates answers with the fixed message `Models.MalformedBody` instead of the decoder's text.
- The wording of driver errors: a failed insert under an id that is already stored (CreateOrder, CreateProduct, CreateCategory) answers with the fixed message `Models.DuplicateKey` instead of the driver's `err.Error()` text.
- Sessions, `StartTransaction`, `CommitTransaction`, `AbortTransaction` and retries: a transaction is "commit all writes or keep the old store". Concurrent requests and interleavings are not modelled.
- Driver and database failures: every generic 500 branch (lookup errors other than "no documents", write errors, cursor errors, `StartSession` failure) is left out. So are the driver failures inside CreateOrder's transaction, which that handler answers with a 400 carrying the driver's text: a failed `StartTransaction`, a `FindOne` error other than "no documents", a failed stock `UpdateOne` and a failed commit. So is the `ModifiedCount == 0` answer of the product update, because the model's writes always take effect.
- Floating point: prices and totals are integer cents. The float `stock_level` of an update body, and its truncation by `int(...)`, is an integer in the model.
- One clock reading per request: the handlers call `time.Now()` separately for each stock write, for the order and for the status write. In the model they all read the same `now`, so facts such as "a reserved product's `updatedAt` equals the new order's `createdAt`" hold only in the model.
- Machine-width overflow of `stockLevel` arithmetic and of the total, because integers are unbounded here.
- ProductQuery.CategoryFilter: the case-insensitive regular-expression match on category names is the parameter `nameMatches`, and which matching category is picked when several match is left open.
- ProductQuery.ListProducts: the order of products with equal `created_at` is left open, as is the order of orders in OrderQuery.GetOrders and of categories in CategoryRules.GetCategories.
- ProductQuery.ListProductsPages, ProductQuery.ListProductsWindow: the model fixes one order for products with equal `created_at` that every query shares. MongoDB keeps no such order between queries, and the seed data has products created at the same instant, so two pages of the source can repeat or miss a product among equal times. These two lemmas hold of the source only when the selected products' creation times all differ; then ProductQuery.ListProductsForced shows that every newest-first order gives the model's pages.
- The product listing handler's composition: `ParsePaging`, `CategoryFilter` and `ListProducts` are its three steps. They are stated separately, because the paging parse is a method and the query is a ghost function.
- Services.Store.DeleteProduct: the orders filter `{product_id: id}` that guards deletion is the parameter `matches`, so the model does not say which orders it matches.
- Startup and wiring: Mongo connection, index creation, sample data, environment variables, routing and the API gateway (proxy, logging, tracing, metrics) are I/O and configuration.
- The broken imports and the cross-package references to unexported collections in the order service: the model follows the handlers' logic, not the package wiring.
