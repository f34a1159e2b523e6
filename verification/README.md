# Settlement core of a two-party limit-order exchange

This project models the settlement core of a small limit-order exchange for
BTC and ETH quoted in USD. The core is two services:

- `OrderService` places orders and cancels them. Placement validates the
  request and locks what the order commits: a buy locks `price × amount` of
  cash, and a sell moves `amount` from the holding's available quantity to
  its locked quantity. Cancellation reverses the lock.
- `MatchingEngineService` makes one match attempt after each placement. It
  looks for one open counter-order from another user, on the opposite side,
  with exactly the same amount and a crossing price. The best price wins,
  then the earliest order. It then settles the trade. The execution price is
  the sell order's price, and the seller pays a 1.5 % commission out of the
  proceeds. The buyer gets a refund, the asset moves from the seller's locked
  quantity to the buyer's available quantity, both orders become `Filled`,
  and one trade row is written.

The database is abstracted as an immutable `Exchange.State` holding:

- the users' cash balances;
- one `(available, locked)` holding per (user, symbol);
- the orders table;
- the trades table.

Both tables are sequences, and a row's id is its index in its sequence.
Every operation is a pure function from one state to the next. It returns a
`Result` whose error values name the exceptions the services throw. All
money and quantities are integers counted in 10^-8 units, which is the
precision of the `decimal(20,8)` columns. `FixedPoint.Mul8` is bcmath
multiplication at scale 8: it takes the exact product and truncates it.

`Exchange.Valid` states the consistency the services maintain:

- every order belongs to an existing user;
- no cash balance is negative, and no available quantity is negative;
- every locked quantity equals the total amount of its owner's open sell
  orders in that symbol.

Placement, cancellation and matching each preserve `Valid`. In a valid
state, settlement and cancellation never reach the missing-row error.
`Exchange.Succeeds` states that an existing order row changes only from
`Open` to `Filled` or from `Open` to `Cancelled`, and that trades are only
ever appended.

Where the program's own comments and tests disagree with its code, the
model follows the code:

- The comment on the sell-side lock says the asset row is locked "or
  created if it doesn't exist" (backend/app/Services/OrderService.php:101).
  The check that follows rejects a missing row as insufficient asset
  (OrderService.php:107-109), and no row is created. The model does that.
- The settlement comment says the buyer "already paid" the volume plus the
  commission at the order price
  (backend/app/Services/MatchingEngineService.php:77 and :83). Buy
  placement debits only `price × amount` (OrderService.php:79-87). The
  refund is computed from that assumed payment, so it includes the
  difference between the commissions at the buy price and the execution
  price, which was never taken. The two parties together receive the
  locked cash minus the commission, plus the truncated commission at the
  buy price minus the commission taken (`Accounting.SettlementCashEffect`).
  That surplus is zero at equal prices
  (`Accounting.EqualPriceSettlementConserves`) and whenever the two
  truncated commissions agree (`Accounting.NearPricesRefundOnlyTheImprovement`).
  Otherwise it is positive: 0.75 for a buy at 1000 against a sell at 900
  for 0.5 (`Accounting.RefundOvershootsPriceImprovement`).
- The docblock of `match` says a buy finds the oldest sell order whose
  price is at most the buy price, and a sell finds the oldest such buy
  order (MatchingEngineService.php:20-21). The query orders by best price
  first and uses `created_at` only to break ties (MatchingEngineService.php:214-221).
  The model ranks by price first, then by creation.
- The equal-price matching test expects the buyer at 9492.5 and the seller
  at 500 (backend/tests/Feature/OrderMatchingTest.php:69-72). The code takes
  no commission from the buyer and charges the seller the commission, so
  the buyer ends at 9500 and the seller at 492.5.
  `Scenarios.EqualPricesMatch` states the values the code produces.

Two behaviours of the code worth knowing, which the model keeps:

- The execution price is always the sell order's price, even when the
  incoming order is the sell (MatchingEngineService.php:71-72).
- Placement returns the order as it was created, still open
  (OrderService.php:29 and :67-70). The match attempt re-reads the order and may fill
  it, but the returned value is not refreshed.

## Model

| member | source | states |
|---|---|---|
| FixedPoint.Mul8Truncates | backend/app/Services/MatchingEngineService.php:74 | A scale-8 product is the exact product rounded down: it falls short of the exact value by less than 10^-8 |
| FixedPoint.Commission | backend/app/Services/MatchingEngineService.php:75 | The commission is 0.015 of the volume rounded down, so it never exceeds the volume it is taken from |
| FixedPoint.Mul8Monotone | backend/app/Services/MatchingEngineService.php:88 | A higher price never gives a smaller scale-8 volume for the same amount, which is why the refund is never negative |
| FixedPoint.CommissionMonotone | backend/app/Services/MatchingEngineService.php:84-89 | A larger volume never carries a smaller commission |
| Exchange.ValidHasNoNegatives | backend/app/Services/OrderService.php:78-113 | In a consistent state no locked quantity is negative, since each equals a sum of open sell amounts. Balances and available quantities, non-negative by consistency, are restated alongside |
| Exchange.OpenSellIsLocked | backend/app/Services/OrderService.php:177-187 | In a consistent state every open sell order has a holding row, and that row locks at least the order's amount, so releasing or delivering the amount finds the row and keeps `locked` non-negative |
| Exchange.InitialStateIsValid | backend/database/seeders/UserSeeder.php:14-54 | A state with no orders, non-negative balances and nothing locked (as seeded) is consistent |
| Matching.FindCounterOrder | backend/app/Services/MatchingEngineService.php:202-225 | A returned counter-order is eligible (same symbol, open, equal amount, other user, opposite side, crossing price) and ranks ahead of every other eligible row. Nothing is returned only when no row is eligible |
| Matching.FindCounterOrderIsBest | backend/app/Services/MatchingEngineService.php:210-224 | The search is determined by the ranking (best price for the incoming side, then earliest creation): a row is returned if and only if it is the best eligible one |
| Matching.BuyerRefund | backend/app/Services/MatchingEngineService.php:79-89 | The refund is the volume difference plus the commission difference between the buy price and the execution price. It is non-negative whenever the execution price does not exceed the buy price, and zero at equal prices |
| Matching.Settle | backend/app/Services/MatchingEngineService.php:48-132 | Settlement fails, changing nothing, exactly when a user row or the seller's holding row is missing. Otherwise: the trade carries the sell price (at most the buy price), the volume and a commission no larger than the volume. The buyer's cash never decreases. The seller gains exactly volume minus commission. The buyer's available quantity rises by the amount, and a row is created if missing. The seller's locked quantity falls by the amount while the seller's available quantity is untouched. The pair's total holding is conserved. Both orders become Filled, no other row changes, and exactly one trade is appended |
| Matching.Match | backend/app/Services/MatchingEngineService.php:29-46 | An absent or non-open order, or one with no eligible counter-order, yields no trade and an unchanged state. An open order for which the search finds a counter-order is settled against it, so every settlement guarantee of Matching.Settle applies. A trade pairs the incoming order with the best eligible counter-order and is appended once |
| Matching.SettlePreservesValid | backend/app/Services/MatchingEngineService.php:101-121 | In a consistent state settlement never fails, keeps the state consistent and only fills the two open orders |
| Matching.SettleKeepsLocksExact | backend/app/Services/MatchingEngineService.php:112-121 | After a fill the seller's locked quantity still equals the seller's open sell volume: both drop by the filled amount |
| Matching.MatchPreservesValid | backend/app/Services/MatchingEngineService.php:33-132 | A match attempt on a consistent state always completes, keeps it consistent, and changes order rows only by filling open ones. It trades if and only if the order is open and some row is eligible against it |
| Orders.ParseSide | backend/app/Services/OrderService.php:44-46 | Only the strings `buy` and `sell` name a side |
| Orders.Validate | backend/app/Services/OrderService.php:39-54 | A request passes exactly when the symbol is BTC or ETH, the side is buy or sell, and price and amount are positive. Otherwise the first failing check, in that order, names the error |
| Orders.PlaceBuy | backend/app/Services/OrderService.php:73-97 | A buy fails, changing nothing, if and only if the balance is below price × amount. Otherwise exactly that cost is debited and one open order is appended |
| Orders.PlaceSell | backend/app/Services/OrderService.php:99-125 | A sell fails, changing nothing, if and only if the user has no holding row for the symbol or too little available. Otherwise the amount moves from available to locked with the total unchanged, no other row changes, and one open order is appended |
| Orders.PlaceOrder | backend/app/Services/OrderService.php:32-71 | A rejected request or a failed lock leaves the state unchanged. A valid request whose user can lock the cost or the asset is locked and then matched: the new state is the lock followed by the match attempt on the new order. The order gets the next id and is returned as created (open). If the match attempt fails, its error is reported although the placed order stays committed. The match attempt adds at most one trade |
| Orders.RefundBuy | backend/app/Services/OrderService.php:169-175 | Cancelling a buy credits its owner exactly price × amount, the cost its placement debited. It fails, as a missing row, exactly when the owner's balance row is absent |
| Orders.RefundSell | backend/app/Services/OrderService.php:177-187 | Cancelling a sell moves its amount from locked back to available, keeping the total holding unchanged. It fails, as a missing row, exactly when the holding row is absent |
| Orders.CancelOrder | backend/app/Services/OrderService.php:138-167 | Cancellation fails for an unknown order, then another user's order, then a non-open order. An existing, owned, open order whose balance or holding row is missing fails as a missing row. It succeeds exactly for an existing, owned, open order whose row is present. On success only that order changes, from Open to Cancelled, and its lock is released |
| Orders.PlaceBuyPreservesValid | backend/app/Services/OrderService.php:78-96 | A buy placement keeps a consistent state consistent |
| Orders.PlaceSellPreservesValid | backend/app/Services/OrderService.php:107-124 | A sell placement keeps a consistent state consistent: the lock it adds equals the amount of the open sell order it creates |
| Orders.PlaceOrderPreservesValid | backend/app/Services/OrderService.php:59-70 | Placement on a consistent state keeps it consistent and only fills existing open orders. It succeeds if and only if the request is valid and the user can lock the cost (buy) or has an asset row with enough available (sell). It never fails for a missing row |
| Orders.CancelOrderPreservesValid | backend/app/Services/OrderService.php:152-163 | On a consistent state cancellation succeeds if and only if the order exists, belongs to the user and is open. Otherwise it fails only as not found, not owner or not open. It keeps the state consistent and only closes one open order |
| Orders.PlaceBuyThenCancel | backend/app/Services/OrderService.php:169-175 | Placing a buy and then cancelling it restores every balance and holding |
| Orders.PlaceSellThenCancel | backend/app/Services/OrderService.php:177-187 | Placing a sell and then cancelling it restores the holding row exactly |
| Orders.PlaceOrderThenCancel | backend/app/Services/OrderService.php:138-167 | An order placed without a trade can be cancelled by its owner, and that restores every balance and holding |
| Accounting.SettlementCashEffect | backend/app/Services/MatchingEngineService.php:77-97 | Together the two parties are credited the cash the buy locked, minus the commission, plus the commission at the buy price minus the commission taken |
| Accounting.EqualPriceSettlementConserves | backend/app/Services/MatchingEngineService.php:88-97 | At equal prices the two parties together receive exactly the locked cash less the commission |
| Accounting.RefundOvershootsPriceImprovement | backend/app/Services/MatchingEngineService.php:83-89 | With a buy at 1000, a sell at 900 and amount 0.5, the refund is 50.75 while the price improvement is 50 |
| Accounting.NearPricesRefundOnlyTheImprovement | backend/app/Services/MatchingEngineService.php:79-89 | With a buy at 1000.0000001, a sell at 1000 and amount 1, the truncated commissions at the two prices agree, so the refund is exactly the price improvement and the two parties receive no surplus |
| Scenarios.EqualPricesMatch | backend/tests/Feature/OrderMatchingTest.php:18-81 | Sell 0.5 at 1000 then buy 0.5 at 1000: both orders are Filled and one trade of volume 500 with commission 7.5 is recorded. The buyer ends at 9500 and the seller at 492.5. The buyer holds 0.5 available, and the seller holds 0.5 available and 0 locked |
| Scenarios.BuyMatchesLowerSell | backend/tests/Feature/OrderMatchingTest.php:83-114 | A buy at 1000 trades at the resting sell's 900 with volume 450. The buyer ends at 9550.75 and the seller at 443.25 |
| Scenarios.DifferentAmountsDoNotMatch | backend/tests/Feature/OrderMatchingTest.php:116-155 | A buy of 0.3 against a sell of 0.5 makes no trade, and both stay open |
| Scenarios.UncrossedPricesDoNotMatch | backend/tests/Feature/OrderMatchingTest.php:157-186 | A buy at 900 against a sell at 1000 makes no trade |
| Scenarios.NoSelfMatch | backend/tests/Feature/OrderMatchingTest.php:188-216 | A user's own crossing orders make no trade |
| Scenarios.CommissionOfAThousand | backend/tests/Feature/OrderMatchingTest.php:218-250 | Sell 0.5 at 2000 then buy 0.5 at 2000 through placement and matching: exactly one trade is recorded, with volume 1000 and commission 15 |
| Scenarios.BuyPlacementLocksCost | backend/tests/Feature/OrderPlacementTest.php:15-52 | A buy of 0.1 at 95000 leaves 500 of 10000 and an open order. From a balance of 100 it is refused and nothing changes |
| Scenarios.SellPlacementLocksAsset | backend/tests/Feature/OrderPlacementTest.php:54-105 | Selling 0.5 of 1.0 leaves 0.5 available and 0.5 locked. Selling 1.0 with 0.01 available is refused and nothing changes |
| Scenarios.InvalidRequestsAreRefused | backend/tests/Feature/OrderPlacementTest.php:107-133 | An unknown symbol and a zero price are refused and nothing changes |
| Scenarios.CancellationScenarios | backend/tests/Feature/OrderCancellationTest.php:15-112 | Cancelling a buy of 1 at 1000 refunds 1000. Cancelling a sell of 1 unlocks it. Cancelling a filled order fails as not open, and cancelling another user's order fails as not owner |

## Left out

- Transactions, `lockForUpdate` row locks and the order in which rows are locked: each operation is one atomic state transition, so a concurrent double match cannot be expressed. The guard that a re-read order must still be open is modelled.
- The `OrderMatched` broadcast, `DB::afterCommit` and logging: these are post-commit I/O. In the code the event is dispatched only when a trade was created.
- Controllers, routes, request validation rules, resources, the order-book and trade-summary queries, models, migrations, the seeder and the whole frontend: these are presentation and transport, not settlement logic.
- Timestamps: `created_at` is a sequence number, and placement stamps each new order with the next one. The SQL query leaves rows tied on price and `created_at` in an unspecified order. The model takes the lower id among them, and that tie never arises between orders the model places.
- The trade's `created_at` is not modelled.
- Request values that are missing, non-numeric or more precise than 8 fractional digits: price and amount are integers of 10^-8 units here. The code rejects a missing or non-numeric value on the same branch as a non-positive one (`Orders.Validate` models that branch).
- The 20-digit width of the decimal columns: integers here are unbounded, so overflow of a column is not modelled.
- A PHP error on a row the code dereferences without checking (a missing user, or a missing seller or cancelled-sell holding row) is modelled as the error `MissingRow` with the whole transaction rolled back. In a consistent state it cannot occur.
- Orders.PlaceOrder: requires the placing user to exist, because the code receives an authenticated user record. What the match attempt does to the new state is stated by Matching.Match's contract, to which PlaceOrder's contract hands over.
- `Order::SIDE_BUY`, `Order::SIDE_SELL` and the status constants: the Order model (backend/app/Models/Order.php) is not part of this model. The sides are the strings `buy` and `sell` that the tests submit.
