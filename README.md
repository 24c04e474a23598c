# Raffle: a verified model of the raffle pipeline

This project models the raffle core of a Laravel shop in which users enter a raffle for a
product. An entry is a pending row of `raffle_entries`, and a user has at most one entry per
product. When the raffle date of an active product has come, winners are drawn at random from
the pending entries, up to the product's stock. Each drawn entry is then settled in its own
database transaction:

- one unit of stock is taken;
- the payment service is asked for a transaction code;
- the order is recorded as completed and successfully paid, and the entry becomes a winner;
- if the payment is refused, the whole transaction is rolled back.

The model is built in two layers.

- **The value layer** is the datatype `Schema.Db`, which holds the products, raffle entries,
  orders, addresses and users tables, the auto-increment counters and the log of dispatched
  events. Each repository method, action, query scope and controller endpoint is a function over
  `Db`. Each function states:
  - what it returns;
  - what the state becomes;
  - which database error it raises (unique keys, foreign keys, the unsigned `qty` column).

  The migrations' constraints are the predicate `Schema.Valid`. Together with "every order's
  entry is a winner" they form `Schema.Consistent`, which every operation is proved to keep.
- **The imperative layer** is the class `Store.RaffleStore`, whose fields are the tables. Its
  methods are the repository writes and the actions:
  - each method is proved to leave exactly the state its value-layer function describes;
  - batch settlement and the raffle start are `while` loops over the drawn entries and the due
    products.

  The controller's `store` and `destroy` run against this class.

Two inputs the code gets from the environment are parameters of the model:

- the order in which the database returns rows (`rowOrder`, an ordering of the table's ids);
- an `Oracle`, which gives:
  - the order `inRandomOrder` produces for each product;
  - the payment service's answer for each entry;
  - the uuid generated as each order code.

The current time is also a parameter (`now`).

## Model

| member | source | states |
|---|---|---|
| ProductStatus.TryFrom | app/Enum/ProductStatus.php:7-13 | the case backed by an int, or none when no case has that value |
| ProductStatus.ToString | app/Enum/ProductStatus.php:15-23 | 0, 1 and 2 read "inactive", "active" and "raffled"; every other int reads "undefined" |
| ProductStatus.ToStringInjective | app/Enum/ProductStatus.php:9-22 | no case reads "undefined", and distinct cases read differently |
| RaffleStatus.TryFrom | app/Enum/RaffleStatus.php:7-13 | the case backed by an int, or none |
| RaffleStatus.ToString | app/Enum/RaffleStatus.php:15-23 | 0, 1 and 2 read "pending", "winner" and "loser"; every other int reads "undefined" |
| RaffleStatus.ToStringInjective | app/Enum/RaffleStatus.php:9-22 | no case reads "undefined", and distinct cases read differently |
| OrderStatus.TryFrom | app/Enum/OrderStatus.php:7-11 | the case backed by an int, or none |
| OrderStatus.ToString | app/Enum/OrderStatus.php:13-20 | 0 reads "pending" and 1 reads "completed"; every other int, 2 included, reads "undefined" |
| OrderStatus.ToStringInjective | app/Enum/OrderStatus.php:9-18 | both cases read distinct labels other than "undefined" |
| PaymentStatus.TryFrom | app/Enum/PaymentStatus.php:5-11 | the case backed by an int, or none |
| PaymentStatus.ToString | app/Enum/PaymentStatus.php:13-21 | 0, 1 and 2 read "pending", "success" and "declined"; every other int reads "undefined" |
| PaymentStatus.ToStringInjective | app/Enum/PaymentStatus.php:7-20 | no case reads "undefined", and distinct cases read differently |
| CountryCode.TryFrom | app/Enum/CountryCode.php:7-17 | the case backed by a string, or none |
| CountryCode.FullName | app/Enum/CountryCode.php:19-29 | uk, us, au, ca and fr give their country names; every other string gives "undefined" |
| CountryCode.FullNameInjective | app/Enum/CountryCode.php:9-28 | every code has a real name, and distinct codes have distinct names |
| CountryCode.UpperCaseIsUndefined | app/Enum/CountryCode.php:9-27 | matching is exact: "UK" gives "undefined" |
| Schema.DefaultStatuses | database/migrations/2026_02_06_143616_create_products_table.php:26 | the default status of a product reads "inactive", and the defaults of an entry, an order and a payment read "pending" |
| Schema.StatusChangePreservesConsistency | database/migrations/2026_02_06_143716_create_raffle_entries_table.php:16-24 | changing only entry statuses, without demoting a winner, keeps every constraint |
| Schema.InsertEntryPreservesConsistency | database/migrations/2026_02_06_143716_create_raffle_entries_table.php:14-24 | inserting an entry with the next id, a fresh code, existing address and product and no entry for its (product, user) pair keeps every constraint |
| Schema.DeleteEntryPreservesConsistency | database/migrations/2026_02_06_143705_create_orders_table.php:14-24 | deleting an entry that no order references keeps every constraint and every order settled |
| Schema.AppendOrderPreservesValidity | database/migrations/2026_02_06_143705_create_orders_table.php:14-24 | appending an order with the next id, fresh order and transaction codes and existing referenced rows keeps every constraint |
| Scopes.StatusScopesDisjoint | app/Models/Product.php:95-110 | no product is in two of the active, inactive and raffled scopes, and each scope selects exactly the status whose label it names |
| Scopes.PendingScopeMatchesLabel | app/Models/RaffleEntry.php:100-103 | the pending scope selects exactly the entries whose status reads "pending" |
| Query.Where | app/Models/RaffleEntry.php:87-103 | a chain of scopes keeps exactly the rows each scope selects, unchanged and under their keys |
| Query.FindOrFail | app/Repositories/RaffleEntryRepository.php:18 | the row with the key, or ModelNotFound exactly when the key is absent |
| Query.FirstOrFail | app/Repositories/RaffleEntryRepository.php:23 | some selected row, or ModelNotFound exactly when none is selected |
| Query.Pluck | app/Repositories/ProductRepository.php:56 | the ids of the selected rows in the database's row order; read over the whole table, each selected id appears exactly once |
| Query.PluckCardinality | app/Repositories/ProductRepository.php:56 | read over the whole table, a pluck returns one id per selected row |
| Seqs.Filter | app/Repositories/ProductRepository.php:56 | the kept ids are exactly those satisfying the condition, in order, and they stay duplicate-free |
| Seqs.Take | app/Repositories/RaffleEntryRepository.php:58 | a LIMIT n keeps the first min(n, length) ids, in order |
| Seqs.DistinctCardinality | app/Repositories/RaffleEntryRepository.php:55-60 | a duplicate-free id list is as long as its set of ids |
| Seqs.EnumerationCardinality | app/Repositories/RaffleEntryRepository.php:55-60 | a duplicate-free list drawn from a set is no longer than the set, and exactly as long when it covers it |
| Decimal.NatToStringRoundTrip | app/Actions/SelectWinnersAction.php:62 | the decimal digits of a natural number read back as that number |
| Decimal.IntToStringRoundTrip | app/Actions/SelectWinnersAction.php:62 | parsing the `%s` rendering of an int gives the int back |
| Decimal.IntToStringInjective | app/Actions/SelectWinnersAction.php:62 | two ints render alike exactly when they are equal |
| PaymentService.FalsyResults | app/Actions/ChargeWinnerAction.php:36 | the payment results that fail the truthiness test are exactly "", "0" and false |
| AddressRepository.FindAddressByIdForCurrentUser | app/Repositories/AddressRepository.php:13-22 | the address succeeds exactly when it exists and belongs to the user; otherwise AddressNotFound |
| AddressRepository.AddressBelongsToOneUser | app/Models/Address.php:67-70 | no address is found for two different users |
| ProductRepository.FindActiveProductById | app/Repositories/ProductRepository.php:35-44 | the product succeeds exactly when it exists and is active; otherwise ProductNotFound |
| ProductRepository.FindActiveProductBySlugWithBrandAndCategory | app/Repositories/ProductRepository.php:24-33 | an active product with the slug exactly when one exists; otherwise ProductNotFound |
| ProductRepository.SlugLookupIsUnique | database/migrations/2026_02_06_143616_create_products_table.php:28 | because slugs are unique, the slug lookup returns the one active product carrying the slug |
| ProductRepository.FindActiveProductToRaffleById | app/Repositories/ProductRepository.php:46-49 | the product succeeds exactly when it exists, is active and its raffle date is at or before now; otherwise ModelNotFound |
| ProductRepository.GetActiveProductIdsToRaffle | app/Repositories/ProductRepository.php:54-57 | only ids of active products whose raffle date has come, each at most once |
| ProductRepository.RaffleListIsExact | app/Repositories/ProductRepository.php:54-57 | read over the whole table, the list holds exactly the eligible product ids, each once |
| ProductRepository.DecrementStockQty | app/Repositories/ProductRepository.php:59-67 | that product's qty drops by one and nothing else changes; at qty 0 the unsigned column refuses the update |
| ProductRepository.DecrementStockQtyPreservesConsistency | app/Repositories/ProductRepository.php:59-67 | a decrement keeps every constraint |
| ProductRepository.ActiveProductsPage | app/Repositories/ProductRepository.php:17-22 | a page of the listing holds at most 6 products, all active and in the table |
| ProductRepository.ActivePageSize | app/Repositories/ProductRepository.php:17-22 | read over the whole table, a page holds the active products remaining from its start, a full 6 while at least 6 remain (10 active products give a first page of 6) and none past the end |
| ProductRepository.ActivePagesCover | app/Repositories/ProductRepository.php:17-22 | read over the whole table, every active product is listed on some page |
| ProductRepository.ActivePagesDisjoint | app/Repositories/ProductRepository.php:17-22 | read over the whole table, no product is listed twice, on one page or across pages |
| RaffleEntryRepository.FindById | app/Repositories/RaffleEntryRepository.php:16-19 | the entry with the id, or ModelNotFound exactly when the id is absent |
| RaffleEntryRepository.PendingEntriesFor | app/Repositories/RaffleEntryRepository.php:23 | exactly the entries that are pending, of the user and of the product |
| RaffleEntryRepository.PendingEntriesOf | app/Repositories/RaffleEntryRepository.php:40 | exactly the pending entries of the product |
| RaffleEntryRepository.FindPendingByUserAndProduct | app/Repositories/RaffleEntryRepository.php:21-24 | a pending entry of the user and product exactly when one exists; otherwise ModelNotFound |
| RaffleEntryRepository.PendingLookupIsUnique | database/migrations/2026_02_06_143716_create_raffle_entries_table.php:24 | because (product, user) is unique, the lookup returns the one matching entry |
| RaffleEntryRepository.GetEntryCount | app/Repositories/RaffleEntryRepository.php:38-41 | the count is the number of pending entries of the product: 0 exactly when there is none, and never more than the table size |
| RaffleEntryRepository.RandomlySelectWinners | app/Repositories/RaffleEntryRepository.php:53-61 | at most qty ids, each a pending entry of the product, with no duplicates |
| RaffleEntryRepository.SelectionSize | app/Repositories/RaffleEntryRepository.php:58 | when the random order ranges over the whole table, the draw is duplicate-free and has min(qty, pending count) ids |
| RaffleEntryRepository.Save | app/Repositories/RaffleEntryRepository.php:26-36 | inserts exactly one row with the next id, the DTO's user, address, product, status and token and the new entry code; fails with a query error exactly when a foreign key or unique key refuses it |
| RaffleEntryRepository.SavePreservesConsistency | app/Repositories/RaffleEntryRepository.php:26-36 | an accepted insert keeps every constraint and adds one row |
| RaffleEntryRepository.SetWinner | app/Repositories/RaffleEntryRepository.php:43-48 | only that entry's status changes, to WINNER |
| RaffleEntryRepository.SetWinnerPreservesConsistency | app/Repositories/RaffleEntryRepository.php:43-48 | promoting an entry keeps every constraint |
| OrderRepository.Save | app/Repositories/OrderRepository.php:15-34 | appends exactly one order that copies the entry's id, user, address and product, takes the product's current price as amount and the given statuses and transaction code; a duplicate code or a missing referenced row is refused |
| OrderRepository.SavePreservesValidity | app/Repositories/OrderRepository.php:15-34 | an accepted order insert keeps every constraint |
| CheckIfUserHasAlreadyEnteredRaffleAction.Handle | app/Actions/CheckIfUserHasAlreadyEnteredRaffleAction.php:19-26 | the pending entry of the user and product exactly when one exists, with their ids; otherwise none |
| CheckIfUserHasAlreadyEnteredRaffleAction.IgnoresOtherEntries | app/Actions/CheckIfUserHasAlreadyEnteredRaffleAction.php:22 | adding an entry of another user, another product or a non-pending status does not change whether one is found |
| CreateRaffleEntryAction.Handle | app/Actions/CreateRaffleEntryAction.php:19-33 | the pending entry the lookup finds is returned with the state untouched; otherwise one row is inserted and one RaffleEntryCreated event is logged, or the call fails exactly when the insert does, with its error; the entry carries the request's user and product |
| CreateRaffleEntryAction.ReturnsExistingPendingEntry | app/Actions/CreateRaffleEntryAction.php:22-26 | on a valid state, any pending entry the user already has for the product is handed back unchanged and nothing is inserted |
| CreateRaffleEntryAction.HandlePreservesConsistency | app/Actions/CreateRaffleEntryAction.php:19-33 | creating an entry keeps every constraint |
| CreateRaffleEntryAction.EventIffInserted | app/Actions/CreateRaffleEntryAction.php:30 | the event log grows by one event for the new row exactly when a row is inserted |
| CreateRaffleEntryAction.HandleIsIdempotent | app/Actions/CreateRaffleEntryAction.php:22-26 | a second call returns the same entry and changes nothing |
| CreateRaffleEntryAction.NonPendingEntryBlocksCreate | database/migrations/2026_02_06_143716_create_raffle_entries_table.php:24 | a non-pending entry of the pair makes creation fail on the unique key |
| CancelRaffleEntryAction.Delete | app/Actions/CancelRaffleEntryAction.php:24 | the row is removed, or the delete is refused while an order references it |
| CancelRaffleEntryAction.Handle | app/Actions/CancelRaffleEntryAction.php:16-25 | nothing changes when the user has no pending entry for the product; otherwise only pending entries of the pair disappear and every kept entry is unchanged |
| CancelRaffleEntryAction.HandleRemovesPendingEntry | app/Actions/CancelRaffleEntryAction.php:18-24 | on a consistent state the cancel never fails, leaves no pending entry of the pair, keeps every other entry and stays consistent |
| CancelRaffleEntryAction.HandleIsIdempotent | app/Actions/CancelRaffleEntryAction.php:18-24 | cancelling twice has the effect of cancelling once |
| ChargeWinnerAction.Handle | app/Actions/ChargeWinnerAction.php:26-61 | an unknown entry throws with the state unchanged; a falsy payment rolls back; on success exactly the product's qty drops by one, one completed and paid order with the entry's data and price is appended, the entry becomes WINNER and OrderCreated is logged; no other outcome changes the state |
| ChargeWinnerAction.HandlePreservesConsistency | app/Actions/ChargeWinnerAction.php:30-53 | a settlement keeps every constraint |
| ChargeWinnerAction.RecordingWinnerPreservesConsistency | app/Actions/ChargeWinnerAction.php:44-53 | the state a successful settlement commits is consistent |
| ChargeWinnerAction.PromotingKeepsOrdersSettled | app/Actions/ChargeWinnerAction.php:51 | promoting the entry of the order just appended makes every order's entry a winner again |
| ChargeWinnerAction.RechargingWinnerAddsSecondOrder | app/Actions/ChargeWinnerAction.php:26-32 | the entry's status is not checked: settling a winner again records a second order for it |
| SelectWinnersAction.BatchNameIdentifiesProduct | app/Actions/SelectWinnersAction.php:62 | the batch name is the prefix followed by the product id, which reads back from it, so distinct products get distinct names |
| SelectWinnersAction.SettleBatch | app/Actions/SelectWinnersAction.php:64-73 | one settlement per drawn id, in order, each on the state the previous one left, a failure not stopping the rest |
| SelectWinnersAction.SelectAndChargeWinners | app/Actions/SelectWinnersAction.php:60-74 | the batch is named after the product, draws the repository's random selection and has one result per drawn id |
| SelectWinnersAction.Handle | app/Actions/SelectWinnersAction.php:21-58 | the lookup fails unless the product is active and due; qty at or below 0 stops next; then no pending entry stops; stopping leaves the state unchanged |
| SelectWinnersAction.SettleBatchPreservesConsistency | app/Actions/SelectWinnersAction.php:64-73 | a batch keeps every constraint |
| SelectWinnersAction.HandlePreservesConsistency | app/Actions/SelectWinnersAction.php:21-48 | a selection keeps every constraint |
| SelectWinnersAction.PaidCount | app/Actions/ChargeWinnerAction.php:34-42 | the number of drawn entries paid with a transaction code is at most the number drawn |
| SelectWinnersAction.FirstJob | app/Actions/SelectWinnersAction.php:64-73 | the first job of a batch settles its entry exactly when the payment pays, taking one unit and adding one order |
| SelectWinnersAction.RestOfBatch | app/Actions/SelectWinnersAction.php:64-73 | after the first job, the rest of the batch is still drawable with fresh codes |
| SelectWinnersAction.ComposeStretches | app/Actions/SelectWinnersAction.php:64-73 | the stock taken, winners marked and orders appended by two stretches of a batch add up |
| SelectWinnersAction.SettleBatchEffect | app/Actions/SelectWinnersAction.php:64-73 | a batch takes one unit per paid entry, marks exactly the paid entries as winners, appends one completed order per paid entry, and job k is charged exactly when entry k pays |
| SelectWinnersAction.ResultsCompose | app/Actions/SelectWinnersAction.php:64-73 | the first job's result, followed by the results of the rest, follow the payments of the whole batch |
| SelectWinnersAction.FreshOracleGivesFreshCodes | database/migrations/2026_02_06_143705_create_orders_table.php:16-17 | generated uuids unused so far leave the batch's codes fresh |
| SelectWinnersAction.DrawEffect | app/Actions/SelectWinnersAction.php:60-74 | a drawn batch has min(qty, pending count) distinct pending entries of the product, and its stock, winners and orders follow the payments |
| SelectWinnersAction.PaidCountAll | app/Actions/ChargeWinnerAction.php:44-53 | when every payment pays, every drawn entry counts as paid |
| SelectWinnersAction.SellsOutWhenAllPay | tests/Unit/Actions/SelectWinnersActionTest.php:20-48 | with qty at most the pending count and every payment paying, qty entries are drawn and charged, they become winners, qty orders are added and qty ends at 0 |
| SelectWinnersAction.AllPaidBatch | app/Actions/SelectWinnersAction.php:64-73 | a batch as large as the stock whose every payment pays charges every job, leaves qty at 0, appends qty orders and makes every drawn entry a winner |
| SelectWinnersAction.ConfinedTransitive | app/Actions/SelectWinnersAction.php:64-73 | changes confined to two sets of products compose to changes confined to their union |
| SelectWinnersAction.ChargeConfined | app/Actions/ChargeWinnerAction.php:32-51 | a settlement changes only the entry's product, its entries and the orders it appends |
| SelectWinnersAction.SettleBatchConfined | app/Actions/SelectWinnersAction.php:64-73 | a batch changes only its product and that product's entries, and only appends orders |
| SelectWinnersAction.HandleConfined | app/Actions/SelectWinnersAction.php:21-48 | a selection draws exactly when the product is found, stocked and entered, and changes only its own product |
| SelectWinnersAction.UntouchedProductDrawsAlike | app/Actions/SelectWinnersAction.php:21-74 | a product another selection did not touch has the same pending entries, the same checks and the same draw |
| StartRaffleAction.SelectEach | app/Actions/StartRaffleAction.php:29-31 | one selection outcome per product id, in order |
| StartRaffleAction.Handle | app/Actions/StartRaffleAction.php:17-36 | read over the whole table, exactly the active products whose raffle date has come get a selection, each once; none leaves the state unchanged |
| StartRaffleAction.SelectEachRunsEachSelection | app/Actions/StartRaffleAction.php:29-31 | the first outcome is the selection of the first product, run on the starting state |
| StartRaffleAction.SelectEachPreservesConsistency | app/Actions/StartRaffleAction.php:29-31 | a run keeps every constraint |
| StartRaffleAction.HandlePreservesConsistency | app/Actions/StartRaffleAction.php:17-36 | the raffle start keeps every constraint |
| StartRaffleAction.DrawnProductsSplit | app/Actions/StartRaffleAction.php:29-31 | the products a run draws for are the first product, if it draws, and those the rest draw for |
| StartRaffleAction.SelectEachConfined | app/Actions/StartRaffleAction.php:29-31 | a run over distinct products changes only the products it draws for |
| StartRaffleAction.OnlyDrawnProductsChange | tests/Feature/Commands/StartRaffleCommandTest.php:153-269 | inactive products, products not yet due, products without stock and products without pending entries are left exactly as they were |
| StartRaffleAction.CountOf | tests/Feature/Commands/StartRaffleCommandTest.php:60-65 | the number of orders of a product is at most the number of orders |
| StartRaffleAction.CountOfAppend | tests/Feature/Commands/StartRaffleCommandTest.php:60-65 | counting the orders of a product is additive over concatenation |
| StartRaffleAction.CountOfUniform | tests/Feature/Commands/StartRaffleCommandTest.php:60-65 | orders all of the product count in full, and orders none of which are of it count zero |
| StartRaffleAction.WorldStillFits | app/Actions/StartRaffleAction.php:29-31 | what one selection leaves still meets, for a product it did not touch, the conditions that product's draw needs |
| StartRaffleAction.RaffledThenUntouched | app/Actions/StartRaffleAction.php:29-31 | a raffled product left alone afterwards stays raffled |
| StartRaffleAction.UntouchedThenRaffled | app/Actions/StartRaffleAction.php:29-31 | a product left alone and then raffled is raffled from the start |
| StartRaffleAction.BatchRaffles | app/Actions/SelectWinnersAction.php:64-73 | a batch's stock, winner and order changes amount to raffling its product with that draw |
| StartRaffleAction.FirstSelectionRaffles | app/Actions/StartRaffleAction.php:29-31 | the first selection of a run ends as it would alone and raffles its product |
| StartRaffleAction.FirstSelectionEffect | app/Actions/StartRaffleAction.php:29-31 | over distinct ids, the first selection of a run ends as it would alone, and the product it raffled is still raffled at the end of the run |
| StartRaffleAction.LaterSelectionUnaffected | app/Actions/StartRaffleAction.php:29-31 | a selection run after another one that left its product alone ends as it would on the earlier state, and raffles its product as if from it |
| StartRaffleAction.LaterSelectionsUnaffected | app/Actions/StartRaffleAction.php:29-31 | the same holds for every selection of a run that follows a selection which left all their products alone |
| StartRaffleAction.SelectEachStep | app/Actions/StartRaffleAction.php:29-31 | after the first selection of a run, the rest of the run starts on a consistent state that still meets its draws' conditions |
| StartRaffleAction.SelectEachCombine | app/Actions/StartRaffleAction.php:29-31 | when the rest of a run raffles independently from the state the first selection left, so does the whole run from the state before it |
| StartRaffleAction.SelectEachEffect | app/Actions/StartRaffleAction.php:29-31 | in a run, each selection ends as it would alone on the starting state, and each drawn product is raffled as if alone |
| StartRaffleAction.RafflesRunIndependently | tests/Feature/Commands/StartRaffleCommandTest.php:68-151 | every eligible product gets the selection it would get alone, and the final state shows each drawn product raffled |
| StartRaffleAction.ProductSellsOut | tests/Feature/Commands/StartRaffleCommandTest.php:20-66 | a due product with enough pending entries sells out when every payment pays: qty 0, qty new winners, qty new completed orders |
| StartRaffleAction.EveryRaffleSellsOutWhenAllPay | tests/Feature/Commands/StartRaffleCommandTest.php:68-151 | every due product with enough entries sells out in the same run |
| StartRaffleAction.SingleRaffleSellsOut | tests/Feature/Commands/StartRaffleCommandTest.php:20-66 | with one due product, qty 2 and 7 entries: one selection, qty ends at 0, and exactly qty new completed orders, all for it |
| StartRaffleAction.OnlyDueProductDraws | app/Actions/StartRaffleAction.php:19 | when one product is due, it is the only one drawn for |
| StartRaffleAction.SoleSellOut | tests/Feature/Commands/StartRaffleCommandTest.php:60-65 | a sell-out that was a run's only change accounts for every order the run recorded |
| Store.RaffleStore.constructor | database/migrations/2026_02_06_143716_create_raffle_entries_table.php:14-24 | the tables start as a consistent state |
| Store.RaffleStore.DecrementStockQty | app/Repositories/ProductRepository.php:59-67 | the tables become the decremented state, or stay as they were when the column refuses |
| Store.RaffleStore.SaveEntry | app/Repositories/RaffleEntryRepository.php:26-36 | the tables gain the inserted row, or stay as they were on a refused insert |
| Store.RaffleStore.SetWinner | app/Repositories/RaffleEntryRepository.php:43-48 | the entry's status field is set to WINNER in place |
| Store.RaffleStore.SaveOrder | app/Repositories/OrderRepository.php:15-34 | the orders table gains the built order, or stays as it was on a refused insert |
| Store.RaffleStore.FindPendingByUserAndProduct | app/Repositories/RaffleEntryRepository.php:21-24 | returns the one pending entry of the pair or ModelNotFound, changing nothing |
| Store.RaffleStore.CheckIfUserHasAlreadyEnteredRaffle | app/Actions/CheckIfUserHasAlreadyEnteredRaffleAction.php:19-26 | returns the pending entry of the pair or none, changing nothing |
| Store.RaffleStore.CreateRaffleEntry | app/Actions/CreateRaffleEntryAction.php:19-33 | returns the entry and whether it was inserted; the tables become the action's state, or stay as they were on failure, and remain consistent |
| Store.RaffleStore.DeleteEntry | app/Actions/CancelRaffleEntryAction.php:24 | the row is removed in place, or the delete is refused while an order references it |
| Store.RaffleStore.CancelRaffleEntry | app/Actions/CancelRaffleEntryAction.php:16-25 | never fails on a consistent store, and the tables become the cancel action's state |
| Store.RaffleStore.ChargeWinner | app/Actions/ChargeWinnerAction.php:26-61 | the step-by-step transaction (decrement, pay, save order, promote, commit, or restore the stock on rollback) ends in the settlement function's outcome and state |
| Store.RaffleStore.SelectWinners | app/Actions/SelectWinnersAction.php:21-74 | the lookup, the two checks and the charged batch end in the selection function's outcome and state, keeping the store consistent |
| Store.RaffleStore.SelectAndChargeWinners | app/Actions/SelectWinnersAction.php:60-74 | the loop that charges the drawn ids one job at a time ends in the batch function's results and state, keeping the store consistent |
| Store.RaffleStore.StartRaffle | app/Actions/StartRaffleAction.php:17-36 | the loop over the due products ends in the raffle start function's ids, outcomes and state |
| RaffleEntryController.StoreErrorMessage | app/Http/Controllers/Api/RaffleEntryController.php:54-60 | AddressNotFound reads "Address not found.", ProductNotFound reads "Product not found.", and every other exception reads "Something went wrong" |
| RaffleEntryController.StoreResponse | app/Http/Controllers/Api/RaffleEntryController.php:23-66 | a missing or foreign address answers 400 "Address not found."; otherwise a missing or inactive product answers 400 "Product not found."; a 400 changes nothing; 201 is answered exactly when an entry was inserted; a success carries the code of a pending entry of the user for the product |
| RaffleEntryController.DestroyResponse | app/Http/Controllers/Api/RaffleEntryController.php:68-89 | a product not found answers 200 with status "failed"; otherwise the answer is 200 "success" exactly when the cancel succeeds; an exception of the cancel is not caught |
| RaffleEntryController.AddressCheckedBeforeProduct | app/Http/Controllers/Api/RaffleEntryController.php:30-37 | with an address not of the user, the answer is 400 "Address not found." whatever the product |
| RaffleEntryController.StoreTwice | app/Http/Controllers/Api/RaffleEntryController.php:47-52 | after a successful entry, entering again answers 200 with the same entry code and changes nothing |
| RaffleEntryController.StoreReusesPendingEntry | tests/Feature/Http/Controllers/Api/RaffleEntryControllerTest.php:165-215 | with a found address and product, a pending entry the user already has for the product, however it got there, is answered with 200 and its entry code, and nothing changes |
| RaffleEntryController.StoreReportsFailedCreate | app/Http/Controllers/Api/RaffleEntryController.php:58-65 | with a found address and product, an entry that cannot be created is answered with 400 "Something went wrong" and nothing changes |
| RaffleEntryController.DestroyRemovesPendingEntry | app/Http/Controllers/Api/RaffleEntryController.php:73-88 | on a consistent state leaving always answers 200 and never throws, and a success leaves no pending entry of the user for the product |
| RaffleEntryController.Store | app/Http/Controllers/Api/RaffleEntryController.php:23-66 | the endpoint run against the store answers and changes the tables as the store response describes |
| RaffleEntryController.Destroy | app/Http/Controllers/Api/RaffleEntryController.php:68-89 | the endpoint run against the store answers and changes the tables as the destroy response describes |

## Left out

- Queues, batches and jobs (`Bus::batch`, `dispatch`, the job classes and the console command) are not modelled as such. A dispatched job is run directly, in dispatch order, and a batch that allows failures is a loop that carries on after a failed job.
- `lockForUpdate` and nested-transaction savepoints are not modelled. Each settlement is one atomic step, and concurrent workers are not modelled.
- `inRandomOrder` is an input (`Oracle.randomOrder`), so the uniformity of the draw is not captured. Only which entries may be drawn and how many is captured.
- The order in which the database returns rows is an input (`rowOrder`). The properties about whole lists require that it list every row exactly once.
- The payment service and `Str::uuid()` are inputs (`Oracle.payment`, `Oracle.orderCode` and the entry code parameter). The properties about whole batches require that the generated uuids are distinct and unused.
- Prices and amounts are integer cents, compared only for equality. The float cast of the price is not modelled.
- Events are an append-only log. Listeners, mail and the product observer's cache flush are not modelled, and neither is logging.
- The encryption of the payment token is not modelled. The token is stored as given.
- The brand and category eager loads of the product lookups are not modelled.
- Authentication and request validation (`CreateRaffleEntryRequest`, `CancelRaffleEntryRequest`) are not modelled. The user id and the integer inputs are parameters.
- When an exception escapes a transaction that was begun but not committed, the state is modelled as unchanged. That is what the database keeps once the connection ends. The connection's open-transaction state itself is not modelled.
- When several constraints refuse one insert, the model reports the first of them in a fixed order. MySQL may name a different one, but the model still reports a query error exactly when MySQL does.
- The database is taken to run in strict mode, so an out-of-range `qty` is refused rather than clamped to 0.
- RaffleEntryController.DestroyResponse: answers 200 with status "failed" for a missing product, as the controller does. The feature tests expect 400 there; that comes from request validation, which is not part of this model.
- Store.RaffleStore.FindPendingByUserAndProduct: requires the schema constraints to hold, because the database picks an arbitrary first row and the unique (product, user) key is what makes the match unique.
- Store.RaffleStore.SaveOrder: requires the entry's product to exist, because the repository loads the product before inserting.
- ProductRepository.GetActiveProductIdsToRaffle: states exactness only when the row order lists the whole table (RaffleListIsExact).
- RaffleEntryRepository.RandomlySelectWinners: states the draw's size only when the random order lists the whole table (SelectionSize).
- Nothing shown sets an entry to LOSER or a product to RAFFLED, so those transitions are absent.
- Orders, addresses, users and DTOs are records folded into datatypes. The casts are covered by the enum `ToString` functions.
