# Order service core, modelled in Dafny

This project models the core of the order service: the four use cases that
create, list, update and query orders, the TypeORM order repository behind
them, and the generic `findWithOrder` query builder the repository lists
through. Every operation is a pure function over immutable data:

- `common.dfy` (`Common`) — orders, order items, create requests, products,
  the `Result`/`Failure` pair that stands for a thrown error (a
  `NotFound(message, status)` error object, or any other failure passed on),
  and the two price sums (the creation total and the snapshot total).
- `create_order.dfy` (`CreateOrderUseCase`) — `createOrder`: one product
  lookup per requested item, in order; items split into resolved lines and
  item errors; the total as the sum of price × quantity; one `create` call.
- `list_order.dfy` (`ListOrderUseCase`) — `listOrders`: a missing answer is
  the "Nenhum pedido encontrado!" 404; finished (`FINALIZADO`) orders are
  dropped; every other order is re-projected with its total recomputed from
  the item snapshots.
- `query_builder.dfy` (`QueryBuilder`) — what the query `findWithOrder`
  builds means: the conjunction of equality criteria, the ORDER BY entries
  (each plain or ranked through a `CASE` table with 999999 for unlisted
  values, each ascending or descending, the first deciding and later ones
  breaking ties), and the SKIP/TAKE page with a default size of 10.
- `repository.dfy` (`Repository`) — `create`, `listOrders` (the query it
  configures: status ranked PRONTO 1, PREPARACAO 2, RECEBIDO 3, then date),
  `findOrder`, `findByCode` and `updateOrderStatus` over an in-memory orders
  table with auto-increment ids.
- `accessors.dfy` (`GetPaymentStatusUseCase`, `UpdateStatusUseCase`) — the
  payment-status read by code and the status update by id, each answering
  "Pedido não encontrado!" with 404 when no order exists.
- `service.dfy` (`OrderService`) — the use cases run against the
  repository, with the store writes their runs perform replayed on the
  table.

The create, payment-status and status-update use cases take their
collaborators (the product service, the repository methods) as function
parameters. Each returns a `Run`: the sequence of collaborator calls it made
together with its result. The listing use case makes a single repository
call, so it is modelled as a function of that call's answer and returns a
plain `Result`. This makes "one lookup
per item, in order", "nothing is written after a failed lookup" and "the
existence check comes before the write" statements about the model. The
product service is an oracle from product id to an answer
(`{error, product}`) or a thrown failure.

Prices are `real`, so sums are exact. Dates are integer timestamps. Text
comparison is by character code.

## Model

| member | source | states |
|---|---|---|
| CreateOrderUseCase.Assemble | src/usecases/create-order.usecase.ts:32-44 | Lookups happen one per item, in request order. When every lookup answers, every item becomes exactly one resolved line or one item error. When a lookup throws, the loop stops at that item: earlier lookups all answered, no later lookup is made, and that lookup's failure is what is reported. |
| CreateOrderUseCase.AssembleCountsResolved | src/usecases/create-order.usecase.ts:34-43 | The number of resolved lines equals the number of items whose lookup says no error and carries a product. |
| CreateOrderUseCase.AssemblePositions | src/usecases/create-order.usecase.ts:34-43 | Item i goes to the line at position i minus the number of earlier failures, with the product's id, price and name and the item's quantity. Otherwise it goes to the item error at position i minus the number of earlier resolutions, with the item's product id. Relative order is kept on both sides. |
| CreateOrderUseCase.CreateOrder | src/usecases/create-order.usecase.ts:17-62 | When all lookups answer: the store is called exactly once, after the lookups, with the request's date, status and code, and with exactly the loop's resolved lines, each item placed as AssemblePositions says. The total is Σ price × quantity. The store's answer is returned with exactly the loop's item errors, and resolved lines plus errors cover the request. A failing store call passes its failure on. When a lookup throws, the lookups stop at the first item whose lookup throws: every earlier lookup answered, the store is never called, and that item's failure is the result. |
| CreateOrderUseCase.CreateBothFoundExample | tests/unit/usecases/create-order.usecase.test.ts:70-96 | Two available products are looked up in order, and the order is stored with lines (1, 2, 10.5, "Product 1") and (2, 1, 25.0, "Product 2") and total 46.0. The answer is the stored order with no item errors. Each line carries the product name that src/usecases/create-order.usecase.ts:39 adds; the call the test expects (lines 90-93) has lines without `snapshot_name`, so the model's store call differs from it in that field alone. |
| CreateOrderUseCase.CreateSecondMissingExample | tests/unit/usecases/create-order.usecase.test.ts:98-121 | When product 2 is not found, both are still looked up, the order is stored with line (1, 2, 10.5, "Product 1") alone at total 21.0, and the answer carries the error for product 2. The call the test expects (line 118) has no `snapshot_name` in the line, which src/usecases/create-order.usecase.ts:39 adds; the model follows the use case. |
| ListOrderUseCase.ListOrders | src/usecases/list-order.usecase.ts:13-45 | A failing repository passes its failure on. No list is the 404 "Nenhum pedido encontrado!". A list becomes its active views, as many as it has unfinished orders, none of them FINALIZADO. |
| ListOrderUseCase.Active | src/usecases/list-order.usecase.ts:23-39 | The filter drops exactly the finished orders: the output length is the input length minus the number of FINALIZADO orders, and no view is FINALIZADO. |
| ListOrderUseCase.ActivePositions | src/usecases/list-order.usecase.ts:23-39 | Every unfinished order is shown, as its projection, at its position minus the finished orders before it. So the listing keeps the repository's order. |
| ListOrderUseCase.ActiveShowsOnlyStored | src/usecases/list-order.usecase.ts:23-39 | Every view shown is the projection of some unfinished stored order. |
| ListOrderUseCase.FinalizedCountPermutation | src/usecases/list-order.usecase.ts:23-24 | Two lists holding the same orders in any order have as many FINALIZADO orders. |
| ListOrderUseCase.ActiveShowsExactly | src/usecases/list-order.usecase.ts:23-39 | The views of a list show exactly the unfinished orders of any list with the same orders: each is shown as its projection, each view is one of them, and there are as many views as unfinished orders. |
| ListOrderUseCase.ProjectKeepsOrder | src/usecases/list-order.usecase.ts:25-38 | A view keeps id, date, status, code and payment status and shows the stored items unchanged, with the snapshot total of those items as its total. No items show as an empty list with total 0. |
| ListOrderUseCase.ListOrdersExample | tests/unit/usecases/list-order.usecase.test.ts:80-117 | Of orders 1, 2 (FINALIZADO) and 3, views 1 and 3 are listed with totals 46.0 and 60.0. An all-finished list gives no views. |
| QueryBuilder.Filter | src/infra/typeORM/repository/order.query-builder.ts:25-31 | Every row kept satisfies every criterion. Each row occurs as often as in the table when it matches, and not at all otherwise. |
| QueryBuilder.CmpTextOrder | src/infra/typeORM/repository/order.query-builder.ts:39-62 | Text comparison is a total order: antisymmetric, zero exactly on equal texts, and transitive. |
| QueryBuilder.CmpValueOrder | src/infra/typeORM/repository/order.query-builder.ts:39-62 | Value comparison (numbers before texts) is antisymmetric, zero exactly on equal values, and transitive. |
| QueryBuilder.DirectedOrder | src/infra/typeORM/repository/order.query-builder.ts:39-62 | Reversing the direction (DESC) keeps the comparison a total order. |
| QueryBuilder.CompareRowsAntisymmetric | src/infra/typeORM/repository/order.query-builder.ts:39-62 | The several-entry ORDER BY comparison negates when its operands swap. |
| QueryBuilder.CompareRowsTransitive | src/infra/typeORM/repository/order.query-builder.ts:39-62 | The several-entry ORDER BY comparison is transitive, so a sorted arrangement exists. |
| QueryBuilder.Insert | src/infra/typeORM/repository/order.query-builder.ts:39-62 | Inserting a row into sorted rows gives sorted rows with the same multiset plus that row. |
| QueryBuilder.SortRows | src/infra/typeORM/repository/order.query-builder.ts:39-62 | The result is ordered by the ORDER BY entries and is a permutation of the input. |
| QueryBuilder.SortedIsLexicographic | src/infra/typeORM/repository/order.query-builder.ts:39-62 | In sorted rows the first entry's key (ranked through the CASE table when given, in its direction) never goes backwards. Where it ties, the remaining entries order the rows. |
| QueryBuilder.PageSize | src/infra/typeORM/repository/order.query-builder.ts:23-65 | The page size is positive: the given size when it is above 0, and 10 when it is missing or 0. |
| QueryBuilder.Window | src/infra/typeORM/repository/order.query-builder.ts:66 | SKIP then TAKE gives the rows from the skip point on, at most size of them, in order, and none when the skip passes the end. |
| QueryBuilder.Page | src/infra/typeORM/repository/order.query-builder.ts:64-67 | Without a page number above 0 the rows are untouched. Otherwise the result is the window that starts at (page − 1) × size, with length min(size, rows left), and its entries are those rows in order. |
| QueryBuilder.PageLocation | src/infra/typeORM/repository/order.query-builder.ts:64-67 | Row i is entry i mod size of page i div size + 1, so consecutive pages tile the rows. |
| QueryBuilder.FindWithOrder | src/infra/typeORM/repository/order.query-builder.ts:3-78 | The answer holds only matching rows and is sorted by the ORDER BY. Unpaged, it holds every matching row of the table exactly as often as the table does. Paged, it holds at most one page. |
| Repository.CreateAsWritten | src/infra/typeORM/repository/order.repository.ts:20-38 | The new row takes the next id and the request's date, status and code, with payment status PENDING. It has one item row per line, in order, holding the quantity, the price as snapshot price and the product id as item id, and no product name. The row is appended to the table and the next id moves past it. |
| Repository.CreateAsWrittenDropsName | src/infra/typeORM/repository/order.repository.ts:28-32 | A one-line order for "Product 1" is saved without the name when created as written, and with it when created correctly. |
| Repository.Create | src/infra/typeORM/repository/order.repository.ts:20-38 | The same as CreateAsWritten, except that every item row also holds its line's product name. |
| Repository.FindOrder | src/infra/typeORM/repository/order.repository.ts:78-104 | There is no answer exactly when no row has the id. An answer is a stored row with that id. |
| Repository.FindByCode | src/infra/typeORM/repository/order.repository.ts:110-137 | There is no answer exactly when no row has the code. An answer is a stored row with that code, and its total is the snapshot total of its items. |
| Repository.UpdateOrderStatus | src/infra/typeORM/repository/order.repository.ts:106-108 | Every row with the id gets the new status. Every other row, every other field and the counters are unchanged. |
| Repository.StatusPriorities | src/infra/typeORM/repository/order.repository.ts:42-48 | PRONTO ranks 1, PREPARACAO 2, RECEBIDO 3, and any other status 999999. |
| Repository.ListingOrderMeaning | src/infra/typeORM/repository/order.repository.ts:41-51 | Row a may precede row b in the listing exactly when its status ranks lower, or ranks the same and its date is no later (both directions). |
| Repository.ListOrders | src/infra/typeORM/repository/order.repository.ts:40-51 | The listing holds every stored row exactly as often as the table does, ordered by status rank and then date. |
| Repository.CreateThenFind | src/infra/typeORM/repository/order.repository.ts:20-104 | Either variant of create keeps ids unique, increasing and below the next id. The created row is found by its id, and every other id finds what it found before. |
| Repository.CreatedTotalIsSnapshotTotal | src/infra/typeORM/repository/order.repository.ts:28-32 | For either variant of create, the total recomputed from a created order's item snapshots equals the total computed at creation. |
| Repository.UpdateThenFind | src/infra/typeORM/repository/order.repository.ts:78-108 | With unique ids, the updated order reads back with the new status and otherwise unchanged, other orders read back as before, and the table stays valid. |
| GetPaymentStatusUseCase.GetPaymentStatus | src/usecases/get-payment-status-order.usecase.ts:14-28 | There is exactly one lookup by code. No order is the 404 "Pedido não encontrado!", an order gives its payment status, and a failing lookup passes its failure on. |
| UpdateStatusUseCase.UpdateOrderStatus | src/usecases/update-status-order.interface.ts:12-29 | The lookup by id always comes first. A missing order is the 404 with no write, and a failing lookup passes its failure on with no write. An existing order gets exactly one write with the given id and status, whose result is the result. |
| UpdateStatusUseCase.UpdateExamples | tests/unit/usecases/update-status-order.usecase.test.ts:32-115 | Three updates of order 1 each check once and write once with the given status. A missing order writes nothing and answers the 404. |
| OrderService.ReadsChangeNothing | src/infra/typeORM/repository/order.repository.ts:78-137 | Lookups by id or code leave the table unchanged. |
| OrderService.CreateAgainstStore | src/usecases/create-order.usecase.ts:17-62 | Against the repository, with either variant of create, a request whose lookups all answer creates an order even if some items failed. The stored row holds the request's date, status and code and exactly the loop's resolved lines, item by item, with names only under the corrected variant. The answer carries exactly the loop's item errors. The order is found by its id, the table stays valid, and its snapshot total equals the creation total. A throwing lookup leaves the table unchanged. |
| OrderService.PaymentStatusAgainstStore | src/usecases/get-payment-status-order.usecase.ts:14-28 | Against the repository, the read succeeds exactly when some order has the code, and then it gives that order's payment status. Otherwise it is the 404. The table is unchanged. |
| OrderService.UpdateAgainstStore | src/usecases/update-status-order.interface.ts:12-29 | Against the repository, an existing order reads back with the new status and other orders are unchanged. A missing order is the 404 and leaves the table unchanged. |
| OrderService.ActiveKeepsListingOrder | src/usecases/list-order.usecase.ts:23-39 | Dropping finished orders keeps the listing order: views of rows ordered by status rank and date are in the same order. |
| OrderService.ActiveListingAgainstStore | src/usecases/list-order.usecase.ts:13-45 | Listing over the rows of the repository's listing query always succeeds. It shows exactly the unfinished stored orders, each as its projection, as many views as such orders, none FINALIZADO, by status rank and then date. |

## Left out

- The HTTP routes, the controller, JSON error encoding and `safeJsonParse` are outside the core. A thrown `{message, status}` error is modelled as `NotFound(message, status)`.
- The product service's network call is not modelled. Its answer is an oracle parameter, and a rejected call is `Err`.
- Dependency injection, data-source configuration, entities and migrations are not modelled. They describe wiring and schema, not behaviour.
- The SQL text `findWithOrder` builds is not modelled, only what the query means. Column names are a fixed enumeration, so an unknown column name cannot be expressed.
- Database collation is not modelled. Equality is exact, and text orders by character code.
- A numeric column ranked through a `customOrder` table is modelled as always ranking 999999. The SQL comparison of a number with a quoted text is not modelled.
- QueryBuilder.PageSize: a negative page size is not modelled, because sizes are natural numbers; in the source, any size other than 0 is used as given.
- QueryBuilder.FindWithOrder: with paging, the contract states only that the rows match, are sorted and fill at most one page. Which window of the sorted rows comes back is stated by `QueryBuilder.Page`.
- QueryBuilder.SortRows: the model fixes insertion sort as one arrangement, and only sortedness and permutation are claimed. The database's order among rows that compare equal is unspecified, and no stability is claimed.
- Joining the item relation (`relations`) is modelled by every row carrying its items.
- The item re-mapping and total in the repository's `listOrders` (order.repository.ts:55-63) and the `item.price` total in `findOrder` (order.repository.ts:91-93) are not modelled. The listing is modelled as passing rows with their stored items, and `findOrder` as returning the stored row.
- OrderService.ActiveListingAgainstStore: composes the listing use case with the rows of the listing query, not with the output of the repository's `listOrders` (order.repository.ts:53-75). In the source that method re-maps every item to `{productId, quantity, price}`, and the item entity has no `price` field. So the use case would read the snapshot price, item id, id and name of each item as undefined, and every order with items would show total 0. The lemma does not describe those views.
- `findWithOrder` returns its query without awaiting it, so a database error escapes its `catch`. Database errors are not modelled.
- Repository.FindByCode: codes are not unique in the model, and the first row in primary-key order is returned. The database may return any row when codes repeat.
- Stored prices are not rounded to the `decimal(10,2)` column. Prices are exact reals, not IEEE doubles.
- Order dates are integer timestamps, not date strings.
- Async execution and races between the existence check and the write of a status update are not modelled.
- The concrete repository's `create` always answers with a row. The use case's handling of an empty answer (`order ?? null`) is kept through the store port, which may answer none.

## Findings

| source | as written | input that shows it | evidently intended | confidence | as-written member | corrected member |
|---|---|---|---|---|---|---|
| src/infra/typeORM/repository/order.repository.ts:28-32 | `create` maps each line to quantity, snapshot_price and item_id only, so the product name the use case collected as `snapshot_name` never reaches the item row, though the schema adds a not-null `snapshot_name` column and the listing reads it | an order with one resolved line for product 1, "Product 1" | each item row stores the line's product name as `snapshot_name` | medium, not executed | Repository.CreateAsWritten | Repository.Create |

The as-written member shows the name missing from the item row. On a MySQL database (src/infra/typeORM/config.ts:7) in strict mode, the insert of such a row into the not-null column would more likely be refused than stored without a name. The model does not show that outcome, because database errors are not modelled.
