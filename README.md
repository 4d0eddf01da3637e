# Sales ledger: a verified model

This project models the core of a small sales ledger service written in Go.
The service keeps three tables:

- **customers**, each with a name and a cash balance;
- **items**, a catalogue with cost, price and sort order;
- **transactions**, each recording a sale of an item to a customer with quantity, unit price and amount.

A sale debits the customer's balance. Editing a sale credits the old amount back and debits the new one. Deleting a sale only marks it deleted.

The model covers the layers the ledger rules live in:

- **Repositories** (`CustomerPostgres`, `ItemPostgres`, `TransactionPostgres`). Each SQL statement becomes its effect on an in-memory picture of the tables, the `Tables.Database` class whose fields are one map per table plus the serial id counters. The two multi-statement operations, transaction Create and Update, work on private copies of the maps and publish them only on commit. Any failing statement therefore leaves the tables as they were, which is what the database's rollback gives.
- **Services** (`CustomerService`, `ItemService`, `TransactionService`). These are the guards run before each repository call: item and customer existence, the balance check, name uniqueness and the empty-filter check. Each outcome maps to a `Status`: an optional cause, a message and an HTTP-style code. The messages are the source's own, spelling included.
- **The Status envelope** (`ServiceStatus`). `withError` and `success` mutate a status variable and return a copy of it. `withError` never yields an Ok status, even when it wraps a nil error.
- **The LIMIT/OFFSET helper** (`QueryHelper`). The clause builder is modelled together with the meaning the database gives the clause: a round trip proves the database reads back exactly the limit and offset given, and the rows selected are `Page(rows, limit, offset)`.
- **The HTTP request layer** (`CustomerRoutes`, `ItemRoutes`, `TransactionRoutes`):
  - the `toModel` converters, where a transaction's amount is price × quantity;
  - the validators, which build their message by appending one fragment per failing check in field order;
  - the create handlers for customers and items, which validate before calling the service;
  - the update handlers and the transaction create handler, which never validate.

A storage failure is an input: every repository operation takes `faults: set<Fault>`, the statements that fail in this call. This lets every 500 branch be stated. The value of `now()` is an input too (`now: Time`). Money is exact (`real`).

The model reproduces these behaviours of the program:

- Transaction Update checks the customer's current balance against the new amount alone, not against the balance plus the old amount.
- Transaction Delete does not restore the balance.
- The repositories treat soft-deleted rows inconsistently:
  - the customer `IDExists` and `GetBalance` ignore deleted customers;
  - the name lookups, the item and transaction `IDExists` and the joins of the transaction views see deleted rows.
- Transaction Create always returns id 0.
- The 404 answers of the Get and Update services appear only when the existence query itself fails. A clean "does not exist" falls through to the next call.

Three SQL texts in the source are malformed, and the model gives the effect they evidently intend (comments at each place):

- `AND WHERE` in the single-row reads of transactions, transaction views and items;
- the LIMIT clause placed before WHERE in the list queries of transactions, transaction views and items;
- the table name `TransactionTable` written literally inside the CTE of transaction Update.

The view queries also select `c.name` and `i.name`, which the model reads as the customer's and the item's names.

Name uniqueness is a ghost invariant, `CustomerNamesUnique` and `ItemNamesUnique`, over all rows, deleted or not. The model does not assume a unique constraint on the name columns. Every service operation that writes is proved to preserve it. Under it, the name lookup, which may return any row with the name, is determined.

## Model

| member | source | states |
|---|---|---|
| ServiceStatus.ErrorStatus | internal/service/error.go:11-16 | the status withError leaves is never Ok, even for a nil wrapped error; its message and code are the arguments; the cause records whether the wrapped error was nil |
| ServiceStatus.SuccessStatus | internal/service/error.go:18-27 | the status success leaves is Ok, with the given message and code |
| ServiceStatus.StatusVar.constructor | internal/service/error.go:5-9 | a fresh status variable holds the zero status |
| ServiceStatus.StatusVar.WithError | internal/service/error.go:11-16 | the receiver becomes the error status, and the returned copy equals the receiver |
| ServiceStatus.StatusVar.Success | internal/service/error.go:18-23 | the receiver becomes the success status, and the returned copy equals the receiver |
| QueryHelper.Decimal | internal/service/repo/postgresSQL/helper.go:11-14 | the decimal text of a number is a non-empty run of digits |
| QueryHelper.DecimalRoundTrip | internal/service/repo/postgresSQL/helper.go:11-14 | reading the decimal text back gives the number |
| QueryHelper.LimitAndOffset | internal/service/repo/postgresSQL/helper.go:7-17 | the clause is empty exactly when both values are non-positive; a positive limit puts the LIMIT fragment first; OFFSET leads only when there is no limit |
| QueryHelper.ClauseRoundTrip | internal/service/repo/postgresSQL/helper.go:7-17 | the clause the helper builds reads back as the limit and offset given, a non-positive value reading as "none" |
| QueryHelper.Page | internal/service/repo/postgresSQL/helper.go:7-17 | with neither LIMIT nor OFFSET every row is kept; the result is the contiguous run of the rows, in their order, that starts after the first `offset` rows, and is empty when the offset reaches past the end; it has `limit` rows or as many as remain, whichever is fewer, and all remaining ones when there is no limit |
| QueryHelper.PagedByHelper | internal/service/repo/postgresSQL/helper.go:7-17 | the rows the helper's clause selects are exactly Page(rows, limit, offset) |
| Tables.LiveRowsMembership | internal/service/repo/postgresSQL/customer.go:113 | a row is in a scan filtered on `deleted_at IS NULL` exactly when it is a non-deleted row of the table |
| Tables.Scan | internal/service/repo/postgresSQL/customer.go:125-146 | the loop appending each scanned row yields the non-deleted rows in id order |
| Tables.AdjustBalance | internal/service/repo/postgresSQL/transaction.go:29-35 | `UPDATE customer SET balance = balance + delta WHERE id` changes that customer's balance by delta and no other row |
| Tables.CustomerHoldersAtMostOne | internal/service/repo/postgresSQL/customer.go:52-69 | under unique names, a name is held by at most one customer row, so the name lookup is determined |
| Tables.ItemHoldersAtMostOne | internal/service/repo/postgresSQL/item.go:52-70 | under unique names, a name is held by at most one item row |
| CustomerPostgres.Inserted | internal/service/repo/postgresSQL/customer.go:25-30 | the inserted row carries the given id, name and balance, is stamped now and is not deleted |
| CustomerPostgres.Overwritten | internal/service/repo/postgresSQL/customer.go:154-159 | Update's statement changes the name, balance and update time of the row with the customer's id only |
| CustomerPostgres.SoftDeleted | internal/service/repo/postgresSQL/customer.go:169-174 | Delete's statement sets the deleted marker of one row and changes nothing else |
| CustomerPostgres.InsertedKeepsNamesUnique | internal/service/repo/postgresSQL/customer.go:22-35 | inserting under a name no row holds keeps customer names unique |
| CustomerPostgres.OverwrittenKeepsNamesUnique | internal/service/repo/postgresSQL/customer.go:149-164 | overwriting with a name that no other row holds keeps names unique |
| CustomerPostgres.OverwrittenUniqueOnlyIfFree | internal/service/repo/postgresSQL/customer.go:149-164 | conversely, if the overwrite of an existing row leaves names unique, no other row held the new name |
| CustomerPostgres.SoftDeletedKeepsNamesUnique | internal/service/repo/postgresSQL/customer.go:166-179 | a soft delete keeps names unique |
| CustomerPostgres.Create | internal/service/repo/postgresSQL/customer.go:22-35 | fails exactly on an insert error, then writing nothing; otherwise inserts one row under the next serial id and returns that id |
| CustomerPostgres.IDExists | internal/service/repo/postgresSQL/customer.go:37-50 | true exactly for a row with the id that is not deleted; false on error |
| CustomerPostgres.IDByName | internal/service/repo/postgresSQL/customer.go:52-69 | without an error: 0 exactly when no row, deleted or not, has the name, otherwise the id of such a row; a missing row is not an error |
| CustomerPostgres.GetBalance | internal/service/repo/postgresSQL/customer.go:71-83 | the balance of a non-deleted customer; a missing or deleted customer is an error with balance 0 |
| CustomerPostgres.GetByID | internal/service/repo/postgresSQL/customer.go:85-105 | the stored non-deleted row; otherwise an error with the zero customer |
| CustomerPostgres.GetAll | internal/service/repo/postgresSQL/customer.go:107-147 | the non-deleted customers, paged by limit and offset; every element is a stored non-deleted row |
| CustomerPostgres.Update | internal/service/repo/postgresSQL/customer.go:149-164 | overwrites name and balance and returns its input; on error returns the zero customer and writes nothing |
| CustomerPostgres.Delete | internal/service/repo/postgresSQL/customer.go:166-179 | sets the deleted marker only; on error writes nothing |
| ItemPostgres.Inserted | internal/service/repo/postgresSQL/item.go:22-37 | the inserted row carries the given id, name, cost, price and sort, is stamped now and is not deleted |
| ItemPostgres.Overwritten | internal/service/repo/postgresSQL/item.go:121-131 | Update's statement changes the four mutable fields and the update time of one row only |
| ItemPostgres.SoftDeleted | internal/service/repo/postgresSQL/item.go:133-143 | Delete's statement sets the deleted marker of one row and changes nothing else |
| ItemPostgres.InsertedKeepsNamesUnique | internal/service/repo/postgresSQL/item.go:22-37 | inserting under a name no row holds keeps item names unique |
| ItemPostgres.OverwrittenKeepsNamesUnique | internal/service/repo/postgresSQL/item.go:121-131 | overwriting with a name no other row holds keeps names unique |
| ItemPostgres.OverwrittenUniqueOnlyIfFree | internal/service/repo/postgresSQL/item.go:121-131 | conversely, a uniqueness-keeping overwrite of an existing row means no other row held the name |
| ItemPostgres.SoftDeletedKeepsNamesUnique | internal/service/repo/postgresSQL/item.go:133-143 | a soft delete keeps item names unique |
| ItemPostgres.Create | internal/service/repo/postgresSQL/item.go:22-37 | fails exactly on an insert error, writing nothing; otherwise inserts one row under the next serial id and returns it |
| ItemPostgres.IDExists | internal/service/repo/postgresSQL/item.go:39-50 | true exactly for a row with the id, deleted or not |
| ItemPostgres.IDByItemName | internal/service/repo/postgresSQL/item.go:52-70 | without an error: 0 exactly when no row has the name, otherwise the id of such a row |
| ItemPostgres.GetByID | internal/service/repo/postgresSQL/item.go:72-86 | the stored non-deleted row; otherwise an error with the zero item |
| ItemPostgres.GetAll | internal/service/repo/postgresSQL/item.go:88-119 | the non-deleted items, paged by limit and offset |
| ItemPostgres.Update | internal/service/repo/postgresSQL/item.go:121-131 | overwrites the four fields and returns its input; on error the zero item and nothing written |
| ItemPostgres.Delete | internal/service/repo/postgresSQL/item.go:133-143 | sets the deleted marker only; on error writes nothing |
| TransactionPostgres.Inserted | internal/service/repo/postgresSQL/transaction.go:40-46 | the inserted row copies customer, item, quantity, price and amount, is stamped now and is not deleted |
| TransactionPostgres.Refunded | internal/service/repo/postgresSQL/transaction.go:150-162 | the CTE credits the stored row's amount to the stored row's customer, and changes nothing when there is no such row |
| TransactionPostgres.Rewritten | internal/service/repo/postgresSQL/transaction.go:182-188 | the row update changes customer, item, quantity, price, amount and update time of one row, and keeps its creation time and deleted marker |
| TransactionPostgres.Rebalanced | internal/service/repo/postgresSQL/transaction.go:150-180 | the balances after Update's credit of the stored row's amount to its customer and debit of the new amount from the new customer; no customer row is added or removed, and every customer other than those two keeps its row |
| TransactionPostgres.RebalancedSameCustomer | internal/service/repo/postgresSQL/transaction.go:150-180 | when the customer is unchanged, Update's net effect on that balance is old amount − new amount |
| TransactionPostgres.RebalancedOtherCustomer | internal/service/repo/postgresSQL/transaction.go:150-180 | when the customer changes, the old customer gets the old amount back and the new customer pays the new amount |
| TransactionPostgres.RebalancedMissingRow | internal/service/repo/postgresSQL/transaction.go:150-180 | when no row has the id, nothing is credited but the new customer is still debited |
| TransactionPostgres.SoftDeleted | internal/service/repo/postgresSQL/transaction.go:202-215 | Delete's statement sets the deleted marker of one row and changes nothing else |
| TransactionPostgres.Create | internal/service/repo/postgresSQL/transaction.go:21-57 | fails exactly when one of begin, debit, insert or commit fails, then writing nothing; otherwise debits the amount from the customer and inserts the row together; always returns id 0 |
| TransactionPostgres.IDExists | internal/service/repo/postgresSQL/transaction.go:59-75 | true exactly for a row with the id, deleted or not |
| TransactionPostgres.GetByID | internal/service/repo/postgresSQL/transaction.go:77-100 | the stored non-deleted row; otherwise an error with the zero transaction |
| TransactionPostgres.GetAll | internal/service/repo/postgresSQL/transaction.go:102-142 | the non-deleted transactions, paged; a limit of 0 means no limit |
| TransactionPostgres.Update | internal/service/repo/postgresSQL/transaction.go:144-200 | fails exactly when one of begin, credit, debit, row update or commit fails, then writing nothing and returning the zero transaction; otherwise applies credit, debit and row update together and returns its input |
| TransactionPostgres.Delete | internal/service/repo/postgresSQL/transaction.go:202-215 | sets the deleted marker only; no balance changes; on error writes nothing |
| TransactionPostgres.ViewOf | internal/service/repo/postgresSQL/transaction.go:222 | a view carries every field of the transaction, creation and update times included, with its customer's and item's names |
| TransactionPostgres.JoinedViews | internal/service/repo/postgresSQL/transaction.go:220-226 | the inner join of transactions with customers and items over ids below `hi`: it has at most hi − 1 views, one per candidate id, and no view of a deleted transaction |
| TransactionPostgres.JoinedViewsComplete | internal/service/repo/postgresSQL/transaction.go:220-226 | every non-deleted transaction whose customer and item rows exist, deleted or not, appears in the join |
| TransactionPostgres.JoinedViewsSound | internal/service/repo/postgresSQL/transaction.go:220-226 | every view in the join comes from such a transaction and its customer and item rows |
| TransactionPostgres.JoinedViewsIdsBelow | internal/service/repo/postgresSQL/transaction.go:220-226 | every view in the join carries the id of a transaction row in [1, hi) |
| TransactionPostgres.JoinedViewsOrdered | internal/service/repo/postgresSQL/transaction.go:220-226 | the join lists its views in strictly increasing transaction id, so no transaction appears twice |
| TransactionPostgres.GetAllTransactionViews | internal/service/repo/postgresSQL/transaction.go:217-260 | the loop's result is the inner join, paged by limit and offset |
| TransactionPostgres.GetByTransactionID | internal/service/repo/postgresSQL/transaction.go:262-291 | the joined view of a non-deleted transaction whose customer and item exist; otherwise an error with the zero view |
| TransactionService.Create | internal/service/transaction.go:28-96 | checks item, then customer, then balance, the first failure deciding the status and nothing being written; a missing item or customer is 404; a balance below the amount is 400 while an equal balance passes; a store error is 500; success is 201 with id 0, debit, insert and the serial counter advanced by one; customer names stay unique |
| TransactionService.GetByID | internal/service/transaction.go:98-122 | 404 only when the existence query fails; a missing or deleted row is 500; success is 201 with the stored row |
| TransactionService.GetAll | internal/service/transaction.go:124-139 | the paged non-deleted rows with 200, or 500 |
| TransactionService.Update | internal/service/transaction.go:141-185 | 404 only when the existence query fails; the balance is compared with the new amount alone, a shortfall being 400; a store error is 500 with the zero transaction; success is 200 with the rebalanced customers and rewritten row; a failure writes nothing; customer names stay unique |
| TransactionService.Delete | internal/service/transaction.go:187-199 | only the soft delete, with no balance change; 200 or 500 |
| TransactionService.GetAllTransactionViews | internal/service/transaction.go:201-216 | the paged join with 200, or 500 |
| TransactionService.GetByTransactionID | internal/service/transaction.go:218-246 | 404 only when the existence query fails; otherwise the joined view with 200, or 500 |
| TransactionService.EmptyFilter | internal/service/transaction.go:253-254 | a filter counts as empty exactly when it is the zero filter: id 0 and both names empty |
| TransactionService.GetAllTransactionViewsByFilters | internal/service/transaction.go:248-275 | a filter with id 0 and both names empty is 400 "filter is empty" before any query; otherwise the store's rows with 200, or 500 |
| CustomerService.Create | internal/service/customer.go:18-39 | a lookup error is 500; a name held by any row, deleted or not, is 400; an insert error is 500; success is 201 with the new id, one inserted row and the serial counter advanced by one; failures write nothing; name uniqueness is preserved |
| CustomerService.GetByID | internal/service/customer.go:41-59 | 404 only when the existence query fails; a missing or deleted customer is 500; success is 201 |
| CustomerService.GetAll | internal/service/customer.go:61-71 | the paged non-deleted customers with 200, or 500 |
| CustomerService.Update | internal/service/customer.go:73-103 | as written: 404 only on a failing existence query; the name lookup must yield the customer's own id, so a name held by another row and also an unused name are 400; a store error is 500 with the zero customer; success is 200 with the overwrite; uniqueness is preserved |
| CustomerService.NameCheckAsWritten | internal/service/customer.go:89-94 | the name guard as written admits only a lookup equal to the customer's own id, so the 0 that an unused name yields is rejected for every existing customer |
| CustomerService.AsWrittenRejectsFreshName | internal/service/customer.go:89-94 | renaming an existing customer to a name no row holds is rejected, although the rename would keep names unique |
| CustomerService.AsWrittenRejectsAliceRename | internal/service/customer.go:89-94 | the concrete instance: customer 1 "Alice" cannot be renamed to "Alicia" |
| CustomerService.NameCheckAdmitsFreeOrOwn | internal/service/item.go:112-117 | the corrected guard, the one the item service writes: under unique names it admits a name exactly when no row other than the customer's own holds it |
| CustomerService.NameCheckKeepsNamesUnique | internal/service/item.go:112-120 | the corrected check admits an update of an existing customer exactly when the overwrite keeps names unique |
| CustomerService.UpdateIntended | internal/service/customer.go:73-103 | Update with the corrected name check: an unused name or the customer's own proceeds, a name held by another row is 400; otherwise as Update |
| CustomerService.Delete | internal/service/customer.go:105-114 | only the soft delete; 200 or 500; uniqueness preserved |
| ItemService.Create | internal/service/item.go:18-47 | a lookup error is 500; a name held by any row is 400; an insert error is 500; success is 201 with the new id, one inserted row and the serial counter advanced by one; failures write nothing; uniqueness preserved |
| ItemService.GetByID | internal/service/item.go:49-73 | 404 only when the existence query fails; a missing or deleted item is 500; success is 201 |
| ItemService.GetAll | internal/service/item.go:75-88 | the paged non-deleted items with 200, or 500 |
| ItemService.Update | internal/service/item.go:90-132 | 404 only on a failing existence query; 400 only for a name another row holds, its own name or an unused one proceeding; a store error is 500 with the zero item; success is 200 with the overwrite; uniqueness preserved |
| ItemService.Delete | internal/service/item.go:134-146 | only the soft delete; 200 or 500; uniqueness preserved |
| CustomerRoutes.ToModel | internal/delivery/http/v1/customer.go:28-33 | copies name and balance, with id 0, zero times and no deleted marker; FromModel recovers the request |
| CustomerRoutes.ToModelFromModel | internal/delivery/http/v1/customer.go:28-33 | a record of that shape is recovered from its request |
| CustomerRoutes.FailuresEmpty | internal/delivery/http/v1/customer.go:35-48 | no check fails exactly when the name has at least 5 characters and the balance is positive |
| CustomerRoutes.Validate | internal/delivery/http/v1/customer.go:35-49 | passes exactly when the name has at least 5 characters and the balance is positive; otherwise the message is the failing fragments in order, the name fragment first |
| CustomerRoutes.Create | internal/delivery/http/v1/customer.go:51-71 | an invalid request is 400 with the validation message, the service is not called and nothing is written; a valid one gets the service's outcome |
| CustomerRoutes.Update | internal/delivery/http/v1/customer.go:73-98 | over the corrected update: no validation; the id comes from the path after toModel; the service's outcome is written back |
| CustomerRoutes.UpdateAsWritten | internal/delivery/http/v1/customer.go:73-98 | the handler as the program runs it, over the service's update as written: no validation; the id comes from the path; a rename the as-written guard refuses, an unused name included, is 400 "customer name already exists" with nothing written; otherwise as Update |
| ItemRoutes.ToModel | internal/delivery/http/v1/item.go:32-40 | copies the four fields with id 0 and no deleted marker; FromModel recovers the request |
| ItemRoutes.ToModelFromModel | internal/delivery/http/v1/item.go:32-40 | a record of that shape is recovered from its request |
| ItemRoutes.FailuresEmpty | internal/delivery/http/v1/item.go:42-60 | no check fails exactly when the name has at least 3 characters and cost, price and sort are positive |
| ItemRoutes.Validate | internal/delivery/http/v1/item.go:42-61 | passes exactly when every check passes; otherwise the message is the failing fragments in the order name, cost, price, sort |
| ItemRoutes.Create | internal/delivery/http/v1/item.go:63-81 | an invalid request is 400 with the validation message and nothing is written; a valid one gets the service's outcome |
| ItemRoutes.Update | internal/delivery/http/v1/item.go:83-107 | no validation; the id comes from the path after toModel; the service's outcome is written back |
| TransactionRoutes.ToModel | internal/delivery/http/v1/transaction.go:31-40 | amount = price × quantity; copies customer, item, quantity and price with id 0 and no deleted marker |
| TransactionRoutes.ToModelFromModel | internal/delivery/http/v1/transaction.go:31-40 | a record of that shape with a consistent amount is recovered from its request |
| TransactionRoutes.FailuresEmpty | internal/delivery/http/v1/transaction.go:42-61 | no check fails exactly when customer id, item id and quantity are at least 1 and the price is positive |
| TransactionRoutes.Validate | internal/delivery/http/v1/transaction.go:42-62 | passes exactly when every check passes; otherwise the message is the failing fragments in the order customer, item, quantity, price |
| TransactionRoutes.NegativeQuantityCredits | internal/delivery/http/v1/transaction.go:64-76 | since nothing validates, a negative quantity gives a negative amount, and the create's debit then raises the balance |
| TransactionRoutes.Create | internal/delivery/http/v1/transaction.go:64-76 | no validation; 201 exactly when the service's three checks and the store succeed, replying id 0 |
| TransactionRoutes.Update | internal/delivery/http/v1/transaction.go:78-98 | no validation; the id comes from the path; 200 exactly when the service's checks and the store succeed |

## Left out

- HTTP plumbing is not modelled: JSON binding, path and form parsing with `strconv.Atoi`, response writing, the router, CORS and logging. The handlers take an already-bound request and an integer id.
- The list and get handlers (`GetByID`, `GetAll`, `Delete` and the view handlers of the delivery layer) are not modelled: they only parse parameters and forward to the services.
- Server start-up, the connection pool and concurrency are not modelled: the model is sequential, and the row locking that keeps concurrent balance updates apart belongs to the database.
- Money is exact `real`; `float64` rounding is not modelled.
- The `now()` timestamps are a parameter. The column defaults of the customer and item inserts are taken to be now() for both times and null for the deleted marker.
- A failed insert does not consume a serial id in the model; in the database a sequence value can be lost.
- Rows come back in id order. Without an ORDER BY the database promises no order.
- The error text built by `fmt.Errorf` is modelled only as whether it wraps a non-nil error.
- A statement failure that leaves a database transaction open is modelled as a rollback. Transaction Create returns on an insert error without calling Rollback, and the uncommitted work is discarded.
- The store-side `GetAllTransactionViewsByFilters` has no implementation in the repository. The model's `TransactionFilter` carries only the three fields the service tests at internal/service/transaction.go:254 (id, customer name, item name), and the rows the repository's filtered query would return are the parameter `found`. On a store error the model returns no rows, where the source passes on whatever the store returned.
- `TransactionPostgres.GetByCustomerName` and `GetByItemName` are not modelled: each returns whichever joined row the database yields first.
- CustomerRoutes.Validate: measures the name in characters, where Go's `len` counts bytes.
- ItemRoutes.Validate: the same character-versus-byte difference.
- CustomerService.Update: guarantees a successful update only under unique names. Without uniqueness, the lookup may return another row holding the name, and the model then only states that a success implies the name guard passed.
- ItemService.Update: the same limitation, for the item name guard.
- CustomerRoutes.Update: calls the corrected `CustomerService.UpdateIntended`, not the service's update as written (see Findings); `CustomerRoutes.UpdateAsWritten` is the handler over the update as written.

## Findings

| source | as written | input that shows it | evidently intended | confidence | as-written member | corrected member |
|---|---|---|---|---|---|---|
| internal/service/customer.go:89-94 | Update rejects unless the name lookup yields the customer's own id; an unused name yields 0 and is rejected with 400 "customer name already exists" | customer 1 "Alice" renamed to "Alicia" while no row is named "Alicia" | reject only a name held by another row (`ID != customer.ID && ID != 0`), as the item service does at internal/service/item.go:112 | high; not executed | CustomerService.AsWrittenRejectsFreshName | CustomerService.NameCheckKeepsNamesUnique |
