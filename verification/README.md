# Verification of the order ledger, refresh tokens, idempotency lock, pricing and category cache

This project models the parts of the marketplace back end whose correctness spans several operations,
and proves what they keep over every run. The command is `dafny verify dfyconfig.toml`.

## What is modelled

**Order ledger** (`Entities`, `Cart`, `Discounts`, `Checkout`, `Orders`, `Answers`, `Ledger`, `LedgerInvariant`,
`LedgerRelease`, `LedgerPayments`, `Billing`, `Services`, `Shop`). The tables are one `Db` value; each transaction is a
function on it, and `Services` holds the classes that update the tables in place, step by step as the
program does, each method proved equal to its function. `Ledger` runs any sequence of checkouts, customer
cancels, refunds, status changes, payment intents, webhooks, stock edits, slot edits and new codes, beside
a history that counts how often each order's resources were given back. Each call of a handler is one event
of such a run; the refund is two, because the program marks the payment and cancels the order separately.
`Answers` says of each transaction, in the columns of the tables, who may call it, which refusal comes first and
what every row is afterwards; `Billing` says what orders cost, on every run and down to the doubles.
`Shop` puts the service classes together and carries the run along, so that what is proved of runs is proved
of the tables the classes leave.

**Overlapping cancels and edits** (`CancelRace`, `LostUpdates`). Cancels and status changes read the order
without a lock and commit or save later, with every other event of the ledger in between. Stock and slot
edits read the row without a lock and later save it whole, with checkouts and releases in between.

**Locking** (`Serializability`). Any number of checkouts interleave under row locks: product rows one at a
time in any order, then the slot row, then the code row, with rollback possible at any moment.

**Payment record** (`PaymentClaim`). The calls that touch one order's payment record - `createPaymentIntent`,
both webhooks and `refund` - interleave between their database and Stripe calls, together with status changes
of the order. None of them runs in a transaction, and a save writes every column of what was read.

**Refresh-token families** (`TokenValue`, `TokenFamilies`, `RefreshTokens`, `RefreshTokenService`). The
stored text and its three readers (JavaScript split, two Lua patterns); the round trips of rotate, issue
and revoke interleaved over any number of clients and an arbitrary clock; the same round trips run as whole
calls; and the service class over text values, proved to perform those calls. Rotation with reuse
detection is that of section 4.14.2 of RFC 9700.

**Idempotency lock** (`Idempotency`). Any number of requests with one key interleave between Redis round
trips, with expiry at any moment; and the interceptor as a class for one request at a time.

**Money** (`Doubles`, `Pricing`, `Fees`, `FeeDoubles`). Binary64 rounding is defined over the reals (section 4.3.1 of
IEEE 754-2019), with `toFixed(2)` of section 21.1.3.3 of ECMA-262, 2021 edition. Checkout's own sequence
of operations is then shown to print the pennies of the integer model, and the fee's to give the fee over the
reals for whole percentages.

**Category cache** (`CategoryCache`). Readers and creators interleave between their table and Redis calls;
then cache and service as classes with calls one at a time.

## Assumptions

- In the ledger's runs each event is one atomic step: a transaction, and also one whole call of
  `createPaymentIntent`, of a webhook handler, of `updateStatus`, `updateStock` or `updateSlot`, or of the
  payment half of `refund`, none of which runs in a transaction. `Serializability` drops this for checkout,
  `PaymentClaim` for the calls on the payment record, `CancelRace` for cancels and status changes and
  `LostUpdates` for stock and slot edits; there a single database call, or a commit, is atomic.
- A repository `save` of a loaded row writes every column as it was loaded or assigned.
- A row lock is exclusive from read to commit or rollback.
- Generated ids, tokens and payment intents are fresh. An order's id is its position in the order table.
- Redis expires keys at whole seconds and runs a script or a MULTI as one step.
- A product's `trackStock` does not change while an order holds it.
- Money, the delivery fee included, is integer pennies, except in `Pricing`. Percentages are hundredths of
  a percent, the scale of the decimal(10,2) column.
- Field bounds enforced by the request DTOs (non-negative quantities, prices and capacities) are types or
  preconditions. The text of a discount code, once upper-cased and trimmed, is the code's id.
- Which product row a query returns first and the verdict of the lead-time arithmetic are inputs of
  checkout (`Moment`); so is its clock reading. A Stripe refund always succeeds and returns a fresh id.

## Where the code and its comments disagree

The model follows the code.

- `releaseOrderResources` says it runs at most once per order, so that counters cannot fall below their
  checkout value (`src/order/order.service.ts:385-388`). A success webhook marks an order PAID whatever its
  status (`src/payment/payment.service.ts:144-146`), so one that reaches a CANCELLED order lets a refund
  release it again: `LedgerPayments.LateDeliveryReleasesTwice`. A redelivery after a refund qualifies too,
  since the claim tests only for SUCCEEDED. While each transaction and handler call is one step this is the
  only way (`DisciplineBreaksExactlyOnRevival`), and `ReleasedAtMostOnce` is what holds without it.
- The status check that guards a release reads the order without a lock (`src/order/order.service.ts:324-336`,
  `347-359`), so two cancels that overlap both release it (`CancelRace.OverlappingCancelsReleaseTwice`), and a
  seller's change that overlaps a cancel can revive the order (`StaleStatusRevives`). Overlap and revival are
  the only ways: `ReleasedTwiceExactly`.
- `updateStock` and `updateSlot` save the whole row they read. A sale in between goes back into stock
  (`LostUpdates.StaleIncrementForgetsSales`) and a booking in between is forgotten, so that a full slot is
  booked once more (`StaleSlotEditOverbooks`). Counts are conserved exactly when no edit saves over a count that
  has moved: `ConservedExactlyWithoutOverwrites`.
- A seller's CANCELLED transition changes the status and nothing else (`src/order/order.service.ts:443-444`):
  `SellerCancelReleasesNothing` and `CancelledIsFinal` show that the order then keeps its stock, slot and
  code use on every run in which no success delivery claims it.
- `handlePaymentSucceeded` promises that concurrent deliveries mark the order once
  (`src/payment/payment.service.ts:134-136`), but `handlePaymentFailed` saves unconditionally what it read
  earlier, so a failure that overlaps a success can undo the claim: `PaymentClaim.StaleFailurePaysTwice`.
- `createPaymentIntent` renews an intent from what it read earlier. One that overlaps a success leaves a PAID
  order with a PENDING record (`PaymentClaim.StaleIntentHidesThePayment`), and a charge on the intent it
  replaced is never recorded (`SupersededChargeIsUnknown`, `LedgerPayments.DeliveryMarksExactlyTheLatest`).
- `CacheService` says caching never affects correctness (`src/redis/cache.service.ts:5-9`). A reader that
  stores after a writer's delete leaves a stale tree for up to 300 seconds (`LateSetServesStaleTree`), and so
  does a delete that fails (`FailedDeleteServesStaleTree`); nothing else does
  (`CachedTreeIsCurrentUnlessStoredLate`).
- The preview does not clamp a percentage to the order, checkout does. They agree on every amount exactly
  for percentages up to 100, which `create` enforces: `PreviewNeedsTheCreateGuard`.
- A percentage discount that lands exactly half way between two pennies can be rounded down by the doubles:
  `Pricing.TieGoesDown`. Everywhere else it is the exact half-up discount: `PercentageIsExactOffTies`.
- A sum of doubles loses pennies in a large enough cart: with a line of 67108864 pounds, exactly from 932068
  lines of a penny on (`Pricing.PennyCartIsExactUpTo`).
- The fee's product and quotient are rounded, so with a percentage a hair below 100 one more minor unit of
  charge can leave the seller one minor unit less: `FeeDoubles.NetFalls`. That happens only where the product
  or the quotient crosses a power of two: `NetFallsOnlyAcrossAPowerOfTwo`. For whole percentages, the default
  included, the fee is exactly the one over the reals: `WholePercentIsExact`.
- `docs/architecture/adr/0007-seller-payouts-stripe-connect.md` has `PaymentService` merge the destination
  charge parameters into the intent; `createPaymentIntent` does not, so the fee split stands on its own.

## Model

| member | source | states |
|---|---|---|
| Cart.ReserveItems | src/order/order.service.ts:100-138 | The cart loop, imperative: it accepts exactly the carts that fit in aggregate; each tracked row loses the sum of its lines, and the i-th item has its line, the price in the table, and price times quantity as its total. |
| Cart.LoopRefinesAggregate | src/order/order.service.ts:100-138 | For any cart, products repeated in any way, the line-by-line loop succeeds iff every line is active and within its maximum and each tracked product has stock for the sum of its lines; then stock falls by exactly those sums. |
| Cart.RejectsAtFirstMisfit | src/order/order.service.ts:101-125 | A rejected cart is rejected at the first line whose prefix no longer fits, with the error of that line against the rows as the earlier lines left them. |
| Cart.QuantityOfPermutation | src/order/order.service.ts:101-128 | How much a cart asks of a product depends only on the multiset of its lines. |
| Cart.LineOrderIsIrrelevant | src/order/order.service.ts:100-138 | Reordering the lines changes neither acceptance nor the stock left. |
| Discounts.ChargeIsWithinSubtotal | src/order/order.service.ts:232-252 | For any code value, the discount is between 0 and the subtotal, so the stored total is at least the delivery fee and never negative, as the table's check requires. |
| Discounts.PreviewAgreesWithCharge | src/discount/discount.service.ts:66-131 | For a code as `create` makes it, used any number of times, the preview with the cart total and the customer accepts iff checkout's checks pass, and quotes checkout's discount and its total less the delivery fee; an anonymous preview refuses nothing that checkout accepts. |
| Discounts.RefusalsAgreeExceptOnOrder | src/discount/discount.service.ts:76-109 | When checkout refuses, the preview refuses with the same reason, except exactly when the customer has run out and the cart is also below the minimum. |
| Discounts.PreviewNeedsTheCreateGuard | src/discount/discount.service.ts:36-43 | Preview and charge agree on every amount iff the code is not a percentage over 100. |
| Discounts.DiscountedTotalIsMonotone | src/order/order.service.ts:232-243 | A larger subtotal never gives a smaller discount nor a smaller discounted subtotal, rounding and clamp included. |
| Discounts.CheckCodeAnswers | src/order/order.service.ts:197-230 | Checkout's checks accept a code iff it is active, its dates hold the clock, neither limit is reached and the minimum is met; otherwise the first of these to fail, in that order, is the reason. |
| Discounts.ValidateAnswers | src/discount/discount.service.ts:66-109 | The preview accepts on the same columns, asks the minimum before the customer's limit, and skips that limit for an anonymous caller. |
| Discounts.ValidateQuotes | src/discount/discount.service.ts:111-131 | What it quotes: the fixed amount or the order, whichever is less, or the percentage rounded half up; and the amount less that. |
| Discounts.ChargeTakesOff | src/order/order.service.ts:232-243 | What checkout takes off: the fixed amount or the subtotal, whichever is less; or the percentage, at most 100, to the nearest penny, halves up. |
| Discounts.MakeCodeAnswers | src/discount/discount.service.ts:36-57 | `create` refuses exactly percentages over 100 and stores each term in its own column, with no uses. |
| Checkout.CheckoutCommitsExactlyTheAcceptable | src/order/order.service.ts:47-306 | Checkout commits iff a condition on the columns of the tables it started from holds: customer, products, lines, one business that is open, lead time, slot, code in force with uses left and minimum met. Then it changes exactly the listed stock, slot, code, order and usage rows, and bills each line at table price times quantity, less what the code takes off, plus the fee, to the business of the first row. |
| Checkout.OneBusiness | src/order/order.service.ts:77-90 | The distinct-businesses test passes iff every line's product is unlinked or linked to the first row's business. |
| Checkout.CommittedIsBilled | src/order/order.service.ts:130-252 | The bill alone: unit prices, line totals, business, discount and total of an accepted order, from the columns of the tables. |
| Answers.AdmitAnswers | src/order/order.service.ts:48-98 | The admission refusals in their order: customer, products, two businesses among the lines, first row unlinked, suspended, not accepting; otherwise the first row's business. |
| Answers.LineAnswers | src/order/order.service.ts:106-124 | The refusals of one line in their order; a maximum of 0 is no maximum. |
| Answers.BookAnswers | src/order/order.service.ts:157-172 | Slot missing, inactive, full, in that order; otherwise one more place booked. |
| Answers.RefusalsComeInOrder | src/order/order.service.ts:47-248 | A refused checkout names the first stage that fails: admission, lines, lead time, slot, code. |
| Answers.CodeRefusalAnswers | src/order/order.service.ts:182-230 | A code refusal is "invalid" iff no code of that text belongs to the business, and otherwise the code's own first reason. |
| Billing.AcceptedIsWellBilled | src/order/order.service.ts:130-252 | Of an accepted order: every line total is unit price times quantity, they sum to the worth of the cart at table prices, and the total is that sum less a discount within it, plus the fee. |
| Billing.EveryOrderIsWellBilled | src/order/order.service.ts:130-268 | On every run every order is billed so, and no total is below its delivery fee. |
| Billing.AcceptedTotalIsTheDoubles | src/order/order.service.ts:130-252 | The total of an accepted checkout is the one that the program's own double operations print from the table prices on, or on a tie of the percentage up to a penny less than it. |
| LedgerInvariant.CheckoutKeepsInv | src/order/order.service.ts:47-306 | An accepted checkout keeps conservation, all limits, and the match of usage rows to orders. |
| LedgerInvariant.ReleaseKeepsInv | src/order/order.service.ts:368-406 | Releasing any order, even one released before, keeps the same invariant with that order's count one higher. |
| LedgerInvariant.StockEditKeepsInv | src/product/product.service.ts:219-250 | A seller's set, increment or clamped decrement keeps the invariant, with the net change recorded. |
| LedgerInvariant.SlotEditKeepsInv | src/delivery/delivery.service.ts:50-64 | A capacity or activity edit keeps it; lowering a capacity below the booked count leaves the count within the largest capacity so far. |
| LedgerInvariant.StepKeepsInv | src/order/order.service.ts:47-457 | Every event of every kind, those of the payment, product, delivery and discount services included, keeps the ledger invariant. |
| LedgerInvariant.ConservationOnEveryRun | src/order/order.service.ts:368-406 | On every run, each product's stock plus the sum over tracked order lines of quantity times (1 - releases) is opening stock plus net seller edits; each slot's and each code's counter is the sum of (1 - releases) over the orders naming it. |
| LedgerInvariant.LimitsOnEveryRun | src/order/order.service.ts:119-222 | In every reachable state stock is non-negative, booked counts are within the largest capacity the slot has had, used counts within maxUses, and a customer's usage rows within maxUsesPerCustomer. |
| LedgerRelease.OrdersAfterStep | src/order/order.service.ts:323-445 | What one event does to each existing order: only its status may change, by a claiming delivery, a release or a seller's change, and its release count rises exactly by a cancel. |
| LedgerRelease.DisciplineBreaksExactlyOnRevival | src/payment/payment.service.ts:127-147 | From a ledger where no order is released twice and only cancelled ones are released, an event breaks that iff it is a success delivery claiming the payment of a released order. |
| LedgerRelease.DisciplinedExactlyWithoutRevivals | src/payment/payment.service.ts:127-147 | Over runs: that holds at every moment iff no success delivery of the run marks an already released order PAID again. |
| LedgerRelease.SparingCancelledOrdersIsEnough | src/payment/payment.service.ts:127-147 | No delivery does so on a run in which none reaches an order already CANCELLED. |
| LedgerRelease.ReleasedAtMostOnce | src/order/order.service.ts:323-406 | On runs in which no success delivery marks a released order PAID again: each order is released at most once, counters are non-negative, and each code's used count is the number of its usage rows. |
| LedgerPayments.LateDeliveryReleasesTwice | src/payment/payment.service.ts:144-186 | In any ledger: cancel, late success delivery, and then the refund is accepted and releases the order a second time: stock is given back twice over and slot and code counters fall by two. |
| LedgerRelease.CancelledIsFinal | src/order/order.service.ts:428-445 | A CANCELLED order keeps its status and release count on every run in which no success delivery claims it. |
| LedgerRelease.SellerCancelReleasesNothing | src/order/order.service.ts:443-444 | Remark: a seller's cancel changes no product, slot, code or usage row and no release count. |
| LedgerRelease.BackwardsExactlyOnLateDelivery | src/payment/payment.service.ts:144-146 | Some order moves backwards along PENDING, PAID, SHIPPED, DELIVERED, CANCELLED iff the event is a success delivery claiming an order already past PAID. |
| LedgerRelease.CancelUndoesCheckout | src/order/order.service.ts:323-406 | A customer's cancel after any events in between moves every product, slot and code count by exactly the opposite of what that checkout did, and deletes exactly the usage row it added. |
| LedgerRelease.CancelAtOnceRestoresTheTables | src/order/order.service.ts:323-341 | With nothing in between, every product, slot and code row and the usage rows are as before the checkout. |
| LedgerRelease.RunKeepsOrders | src/order/order.service.ts:254-268 | On every run orders are only appended, and an old order changes at most its status. |
| Answers.CancelOwnAnswers | src/order/order.service.ts:323-341 | Cancels iff the order exists, is the caller's and is PENDING, with the first failing test's error; then each tracked product, the slot and the code get back exactly what the order held, its usage row goes, and nothing else changes. |
| Answers.CancelForRefundAnswers | src/order/order.service.ts:346-362 | The same for any order not CANCELLED, whoever owns it; nothing on one that is. |
| Answers.UpdateStatusAnswers | src/order/order.service.ts:422-457 | Changes the status, and only that, iff the order exists, is the caller's business's and the move is one of the five allowed. |
| Answers.StrangersChangeNothing | src/order/order.service.ts:331-333 | At any point of any run, cancelling, paying for, moving, refunding or editing what belongs to another leaves the whole world as it was. |
| CancelRace.LedgerHoldsUnderOverlap | src/order/order.service.ts:323-457 | However cancels, status changes and all other events overlap, and however often an order is released, conservation with (1 - releases) and all limits hold. |
| CancelRace.ReleasedTwiceExactly | src/order/order.service.ts:323-406 | On every such run an order has been released twice iff two cancels of it overlapped or a cancel was let through after a release; the latter only once a success delivery or a stale status save had revived it. |
| CancelRace.LoneCancelIsTheEvent | src/order/order.service.ts:323-362 | A cancel that runs alone is the event of the ledger. |
| CancelRace.LoneStatusChangeIsTheEvent | src/order/order.service.ts:422-457 | So is a status change. |
| CancelRace.OverlappingCancelsReleaseTwice | src/order/order.service.ts:324-336 | A schedule of two customer cancels that releases a pending order twice, with no delivery. |
| CancelRace.StaleStatusRevives | src/order/order.service.ts:422-444 | A schedule in which a seller's stale save revives a cancelled order, which is then released again. |
| LostUpdates.CountIsConservedLessTheLost | src/product/product.service.ts:219-250 | On every run of edits overlapping checkouts and releases, the count is opening plus what all meant to do, less what saves overwrote. |
| LostUpdates.ConservedExactlyWithoutOverwrites | src/delivery/delivery.service.ts:50-64 | Over runs: the count is conserved at every moment iff no edit saves over a count that moved since it read. |
| LostUpdates.LoneStockEditIsTheTransaction | src/product/product.service.ts:219-250 | A stock edit that runs alone is the one of the ledger and overwrites nothing. |
| LostUpdates.StaleIncrementForgetsSales | src/product/product.service.ts:233-249 | Units sold between the read and the save of an increment are back in stock. |
| LostUpdates.StaleSlotEditOverbooks | src/delivery/delivery.service.ts:61-63 | A slot edit overlapping a booking lets checkout book a full slot once more. |
| LedgerPayments.NothingShipsUnpaid | src/payment/payment.service.ts:46-147 | With each handler call one event, on every run: each order has at most one payment record, for exactly its positive total; every PAID, SHIPPED or DELIVERED order has a record showing it collected; no record of a PENDING order shows that. PaymentClaim.PaidOrdersAreBackedExactly says what is left when calls overlap. |
| LedgerPayments.AlreadyPaidNeedsOverlap | src/payment/payment.service.ts:56-62 | With each handler call one event, the "already paid" refusal is given on no run. |
| LedgerPayments.DeliveryMarksExactlyTheLatest | src/payment/payment.service.ts:127-147 | On every run, a success delivery marks an order PAID iff its intent is the last one issued for that order and the record is unclaimed; one that marks no order changes nothing. |
| LedgerPayments.SellersMoveOneStep | src/order/order.service.ts:428-441 | Remark: a seller's change goes through iff it cancels an order not in a final state or moves a paid one a single step on. |
| Answers.FirstIntentAnswers | src/payment/payment.service.ts:46-98 | For an order without a record: a new PENDING record for the order's total iff the order is the caller's, PENDING and costs something; otherwise the first failing test's error. |
| Answers.NextIntentAnswers | src/payment/payment.service.ts:46-98 | For one with a record: only that record's intent and status are renewed, unless it has succeeded. |
| Answers.SucceededAnswers | src/payment/payment.service.ts:127-147 | A success on an unknown intent or a succeeded record changes nothing; any other marks exactly that record and its order. |
| Answers.FailedAnswers | src/payment/payment.service.ts:149-156 | A failure marks exactly that record, unless it has succeeded. |
| Answers.RefundAnswers | src/payment/payment.service.ts:158-181 | The payment half of refund goes through iff the order exists, is the caller's business's and has a succeeded record; exactly that record becomes REFUNDED with the given refund; each refusal is the first failing test's. |
| Answers.UpdateStockAnswers | src/product/product.service.ts:219-250 | For the owner only: the new stock is the quantity, the old plus it, or the old less it and at least 0; every other row and column stays. |
| Answers.CreateSlotAnswers | src/delivery/delivery.service.ts:24-35 | Exactly one new slot, active, with nothing booked. |
| Answers.UpdateSlotAnswers | src/delivery/delivery.service.ts:50-64 | For the owner only: each given field is overwritten, the other fields and slots stay. |
| Answers.CreateCodeAnswers | src/discount/discount.service.ts:25-57 | Exactly one new code with each term in its column; refusals in their order. |
| Services.OrderService.Checkout | src/order/order.service.ts:47-306 | The imperative checkout succeeds iff the column condition holds, and then every table is as listed and the order billed as above; on every error the tables are the old ones. It is the transaction function. |
| Services.OrderService.SaveOrder | src/order/order.service.ts:250-281 | The order with its total and discount, its usage row and the commit of the working copies are those of the transaction function. |
| Services.OrderService.AdmitCart | src/order/order.service.ts:48-96 | The admission checks in the program's order, each with its own error, agree with the admission function. |
| Services.OrderService.BookSlot | src/order/order.service.ts:157-172 | The slot stage agrees with booking one place in an active slot that is not full. |
| Services.OrderService.ApplyCode | src/order/order.service.ts:182-248 | The inlined code checks, in the program's order, agree with the check function that the preview is compared with. |
| Services.OrderService.SumLineTotals | src/order/order.service.ts:174-176 | The reduce over line totals is the subtotal. |
| Services.OrderService.CancelOwnOrder | src/order/order.service.ts:323-341 | Cancels a customer's own pending order, releasing it; otherwise the right error and nothing changed. |
| Services.OrderService.CancelForRefund | src/order/order.service.ts:346-362 | Releases and cancels any order not already CANCELLED; a no-op on one that is. |
| Services.OrderService.ReleaseOrderResources | src/order/order.service.ts:368-406 | Increments, decrements and the usage delete leave exactly the tables of the release function. |
| Services.OrderService.RestoreStock | src/order/order.service.ts:372-381 | The item loop gives each tracked product back the sum of its lines. |
| Services.OrderService.UpdateStatus | src/order/order.service.ts:422-457 | Performs exactly the allowed transitions of the owning business. |
| Services.PaymentService.CreatePaymentIntent | src/payment/payment.service.ts:46-98 | Inserts or renews the order's payment record for a pending, unpaid order with a positive total; otherwise the right error. |
| Services.PaymentService.HandlePaymentSucceeded | src/payment/payment.service.ts:127-147 | Claims the payment unless already succeeded and then marks the order PAID whatever its status. |
| Services.PaymentService.HandlePaymentFailed | src/payment/payment.service.ts:149-156 | Marks the payment failed unless it has succeeded. |
| Services.PaymentService.Refund | src/payment/payment.service.ts:158-189 | A succeeded payment is marked refunded and the order then cancelled and released; otherwise nothing changes. |
| Services.CatalogueService.UpdateStock | src/product/product.service.ts:219-250 | Set, increment, or decrement clamped at 0, for the owning business only. |
| Services.CatalogueService.CreateSlot | src/delivery/delivery.service.ts:24-35 | A new active slot with nothing booked, for an existing business. |
| Services.CatalogueService.UpdateSlot | src/delivery/delivery.service.ts:50-64 | Overwrites capacity and activity as given, without looking at the booked count. |
| Services.CatalogueService.CreateCode | src/discount/discount.service.ts:25-57 | Refuses unknown businesses, percentages over 100 and taken codes, in that order; otherwise stores an unused code. |
| Shop.Service.Handle | src/order/order.service.ts:47-457 | Any request to the classes leaves the tables of the ledger run extended by its events, with the ledger invariant. |
| Shop.Service.Serve | src/order/order.service.ts:47-457 | After any requests to the classes, the tables are conserved and within all limits. |
| Serializability.CheckoutsAreSerializable | src/order/order.service.ts:56-305 | Any interleaving of any number of locked checkouts leaves the tables of running the committed ones alone, whole, in commit order, each at its own clock reading; the log names exactly the committed ones. |
| Serializability.CommitLeavesOthersUpToDate | src/order/order.service.ts:62-71 | A commit leaves every other session's private results equal to what it would compute on the new tables, because their locks are disjoint. |
| Serializability.InstallIsCheckout | src/order/order.service.ts:119-300 | Publishing a finished session's private rows is a whole checkout on the tables at commit time. |
| Serializability.UndisturbedSessionIsCheckout | src/order/order.service.ts:47-306 | A session nobody disturbs ends with the result of the whole-transaction checkout, accepted or refused. |
| PaymentClaim.ClaimsAreBalanced | src/payment/payment.service.ts:46-189 | Under any interleaving of createPaymentIntent, success, failure and refund calls with status changes: won claims are one for a record now SUCCEEDED plus one per success a save displaced; each has updated the order or is about to; an updated order is not PENDING. |
| PaymentClaim.AlreadyPaidExactlyInTheWindow | src/payment/payment.service.ts:56-62 | On any run, createPaymentIntent answers "already paid" iff more claims were won than displaced; while the order is PENDING, iff more deliveries stand between claim and order update than successes were displaced. |
| PaymentClaim.AlreadyPaidIsAnswered | src/payment/payment.service.ts:56-62 | A schedule in which it is answered for an order still PENDING. |
| PaymentClaim.BackedBreaksExactlyOnStaleSave | src/payment/payment.service.ts:79-82 | A step leaves a paid order (or one about to be marked) without a record showing the collection iff it is a stale save landing on a collected record. |
| PaymentClaim.OnlyIntentAndFailureSavesUncollect | src/payment/payment.service.ts:149-156 | Remark: only a renewed intent or a failure save writes a record that does not show a collection. |
| PaymentClaim.PaidOrdersAreBackedExactly | src/payment/payment.service.ts:46-189 | Over runs: every paid order has a record showing the collection at every moment iff no stale intent or failure save ever landed on such a record. |
| PaymentClaim.StaleIntentHidesThePayment | src/payment/payment.service.ts:79-82 | A schedule in which a stale renewal leaves a PAID order with a PENDING record. |
| PaymentClaim.UndisturbedDeliveryMarksExactly | src/payment/payment.service.ts:127-147 | A delivery nobody interleaves with marks its order iff its intent is on record and unclaimed, and otherwise changes nothing. |
| PaymentClaim.OnlyRenewalsSupersede | src/payment/payment.service.ts:127-189 | Without createPaymentIntent calls, on every interleaved run an intent on record stays there and every success of it is claimed or finds it claimed; so only a renewed intent leaves a charge unrecorded. |
| PaymentClaim.SupersededChargeIsUnknown | src/payment/payment.service.ts:79-82 | A schedule in which the success of a replaced intent is ignored and the order stays PENDING, uncollected on record. |
| PaymentClaim.SuccessDeliveriesPayOnce | src/payment/payment.service.ts:127-147 | Any number of success deliveries of the intent on record, any interleaving: never more than one order update, and exactly one, with SUCCEEDED and PAID, once all have finished. |
| PaymentClaim.ExactlyOnceUnlessOverwritten | src/payment/payment.service.ts:46-189 | With any calls and status changes, once no delivery is between claim and update and some are past their claim: exactly one order update and a SUCCEEDED record iff no save landed on a succeeded record; without refunds and other status changes the order is then PAID. |
| PaymentClaim.StaleFailurePaysTwice | src/payment/payment.service.ts:149-156 | A schedule with one stale failure in which the order update runs twice. |
| PaymentClaim.LoneDeliveryIsTheTransaction | src/payment/payment.service.ts:127-147 | A success delivery that nobody interleaves with is the ledger's event, and that changes nothing else. |
| PaymentClaim.LoneFailureIsTheTransaction | src/payment/payment.service.ts:149-156 | So is a failure delivery, on the order's record. |
| PaymentClaim.LoneIntentIsTheTransaction | src/payment/payment.service.ts:46-98 | So is createPaymentIntent, with its refusals. |
| PaymentClaim.LoneRefundIsTheTransactions | src/payment/payment.service.ts:158-189 | A refund that runs alone is the two events of the ledger, or its refusal. |
| TokenValue.ParsingReturnsTheFields | src/auth/refresh-token.service.ts:122-127 | For kinds without ':' or '\|' and principals and families without '\|', splitting the printed value returns kind, principal and family. |
| TokenValue.HeadSurvivesExactlyWithoutBars | src/auth/refresh-token.service.ts:124-127 | The first field comes back whole iff neither kind nor principal has a bar. |
| TokenValue.LuaKindIsTheKind | src/auth/refresh-token.service.ts:96-99 | The Lua match before the first colon is the kind the JavaScript slice takes. |
| TokenValue.UsedMarkIsTheStatus | src/auth/refresh-token.service.ts:100-104 | The used pattern matches iff the record is used, and the gsub of a printed active record is the printed used record. |
| TokenValue.InspectReadsTheRecord | src/auth/refresh-token.service.ts:93-106 | The script on the text of a record answers 3, 2 or 1 as the record's kind and status say, with the text it writes. |
| TokenValue.PrintIsInjective | src/auth/refresh-token.service.ts:71-74 | Printable records with the same text are equal. |
| TokenFamilies.StepKeepsInv | src/auth/refresh-token.service.ts:67-147 | Every round trip of every client, and the clock, keeps the family invariant. |
| TokenFamilies.OneHolder | src/auth/refresh-token.service.ts:93-106 | A family has at most one active token or rotation between flip and mint. |
| TokenFamilies.FamiliesAreLinear | src/auth/refresh-token.service.ts:67-147 | In every reachable state of any interleaving: at most one holder per family; chains repeat no token; the successful rotations are exactly the links of the chains, each with the issued kind and principal, and no token is rotated twice. |
| TokenFamilies.DeadStaysDead | src/auth/refresh-token.service.ts:129-147 | Once the family key is gone and no rotation stands between EXISTS and mint, on every later run the key stays gone, no token is added and no token of the family rotates, survivors included. |
| TokenFamilies.RevocationKillsExactlyUnlessAssured | src/auth/refresh-token.service.ts:158-166 | A rotation standing between EXISTS and mint when the deleting MULTI runs brings the key back with an active token; remark: it is the only thing that keeps the family from being dead then. |
| RefreshTokens.RotatesExactlyWhenActive | src/auth/refresh-token.service.ts:108-147 | With calls one at a time, a token rotates iff it is live, active and of the expected kind; the caller gets the issued kind and principal and a token good for a full lifetime. |
| RefreshTokens.TokensLastUntilTheirExpiry | src/auth/refresh-token.service.ts:69-80 | As time passes exactly the tokens whose expiry it reaches go, and the others stay unchanged. |
| RefreshTokens.LoginLastsThirtyDays | src/auth/refresh-token.service.ts:29-80 | A fresh login's token rotates for exactly 30 days, at an endpoint of its kind or one that asks for none. |
| RefreshTokens.WrongKindChangesNothing | src/auth/refresh-token.service.ts:118-120 | An unknown token or one of another kind leaves the whole state as it was. |
| RefreshTokens.ReplayBurnsTheFamily | src/auth/refresh-token.service.ts:129-138 | Presenting a used token deletes every token ever minted in its family and the family key, and nothing else. |
| RefreshTokens.LogoutBurnsTheFamily | src/auth/refresh-token.service.ts:150-166 | So does logging out with any live token of it. |
| RefreshTokens.EveryRunIsCovered | src/auth/refresh-token.service.ts:62-82 | On every run of calls under any clock, every live token is in a live member set of a live family, both expiring no earlier than it. |
| RefreshTokens.GoneStaysGone | src/auth/refresh-token.service.ts:158-166 | A burnt family's tokens stay absent for the rest of the run. |
| RefreshTokenService.Service.Issue | src/auth/refresh-token.service.ts:54-60 | Issuing over text values performs the login of the model and returns the new token. |
| RefreshTokenService.Service.IssueInFamily | src/auth/refresh-token.service.ts:62-82 | The MULTI writes the printed record, the family key and the enlarged member set, all for a full lifetime. |
| RefreshTokenService.Service.EvalRotate | src/auth/refresh-token.service.ts:93-106 | The script, on text: its code, its value, and the only key it changes, keeping that key's remaining life. |
| RefreshTokenService.Service.Rotate | src/auth/refresh-token.service.ts:108-147 | Performs the model's rotate, and answers principal, kind and new token exactly when the presented token was rotatable. |
| RefreshTokenService.Service.Parse | src/auth/refresh-token.service.ts:124-127 | Split, indexOf and slice return the fields of the printed record. |
| RefreshTokenService.Service.Revoke | src/auth/refresh-token.service.ts:150-156 | Performs the model's logout. |
| RefreshTokenService.Service.RevokeFamily | src/auth/refresh-token.service.ts:158-166 | The loop over members deletes exactly the members' token keys, the member set and the family key. |
| RefreshTokenService.ScriptAgrees | src/auth/refresh-token.service.ts:93-106 | The script over stored text and the flip over records answer alike for every live token. |
| Idempotency.StepKeepsInv | src/common/idempotency/idempotency.interceptor.ts:59-93 | Every round trip but expiry keeps the lock invariant. |
| Idempotency.OneRunIsEverAnswered | src/common/idempotency/idempotency.interceptor.ts:59-93 | While the key does not expire: handler runs never overlap, at most one returns, every response that is not an error carries that one's status and body, and a late delete finds only its own request's lock. |
| Idempotency.StoredResponseIsReplayed | src/common/idempotency/idempotency.interceptor.ts:67-86 | Once a response is stored, on every run without expiry it stays stored, no handler run returns again, and every request that arrives from then on is on its way to that response or answered with it, never a conflict. |
| Idempotency.FailureAllowsRetry | src/common/idempotency/idempotency.interceptor.ts:88-92 | After a failed run's delete, a retry runs the handler, with the invariant kept. |
| Idempotency.ExpiryBreaksExactlyWhenHeld | src/common/idempotency/idempotency.interceptor.ts:59-65 | Expiry keeps the invariant iff the key is absent; otherwise it lets a second run start beside or after the first. |
| Idempotency.OneReturnPerExpiry | src/common/idempotency/idempotency.interceptor.ts:59-93 | On every run, with expiries anywhere and late deletes of locks that belong to others: at most one handler run returns, and one more per expiry that hit a present key. |
| Idempotency.Interceptor.Intercept | src/common/idempotency/idempotency.interceptor.ts:40-94 | One whole request leaves the key and gives the answer of the protocol's own steps, runs the handler iff the key was absent and touches no other key; without a header it runs the handler, answers with its outcome and touches no key. |
| Doubles.HalfUlp | src/order/order.service.ts:131 | The result of an operation is within half an ulp of its exact value; the only fact about rounding that the prices use. |
| Doubles.RoundingKeepsOrder | src/payouts/payouts.service.ts:48-49 | Rounding to the nearest double never reverses an order. |
| Doubles.ToFixed2IsNearest | src/order/order.service.ts:131 | toFixed(2) gives a nearest number of hundredths, the larger of two equally near. |
| Doubles.MathRoundIsNearest | src/payment/payment.service.ts:39-44 | Math.round gives the nearest integer, the larger of two equally near. |
| Pricing.MinorUnitsAreExact | src/payment/payment.service.ts:39-44 | toMinorUnits recovers the exact pennies of every amount up to 2^50 of them, so of every decimal(10,2) value. |
| Pricing.LineIsExact | src/order/order.service.ts:130-131 | A line total in doubles is exactly price times quantity in pennies. |
| Pricing.SubtotalIsExact | src/order/order.service.ts:174-176 | For n lines totalling T pennies with (n + 1)*(T + 1) at most 4.2 * 10^15, the accumulated doubles print exactly T. |
| Pricing.SmallProductsSettle | src/order/order.service.ts:174-176 | Every n*T up to 2^50 is within that bound. |
| Pricing.PennyCartIsExactUpTo | src/order/order.service.ts:174-176 | Some bound is needed on amounts the columns hold: a cart of one line of 2^26 pounds and k lines of a penny prints its total exactly iff k is below 932068. |
| Pricing.PenniesBlurBeyondTheBound | src/order/order.service.ts:130-131 | Some bound is needed: a line of 7036874417766401 pennies prints a penny more. |
| Pricing.PriceCart | src/order/order.service.ts:130-176 | The loop and the reduce, imperative, end with the double of exactly T pennies. |
| Pricing.LedgerSubtotalIsTheDoubles | src/order/order.service.ts:174-176 | The ledger model's penny subtotal is the one the doubles print. |
| Pricing.TotalIsExact | src/order/order.service.ts:250-252 | Subtotal less discount plus fee in doubles prints the exact penny total. |
| Pricing.PercentageIsNear | src/order/order.service.ts:235-240 | The percentage in doubles is within five relative half-ulps of the exact one. |
| Pricing.PercentageIsExactOffTies | src/order/order.service.ts:232-241 | The charged percentage is the exact half-up discount unless it lands exactly half way between pennies, when it may be one penny less. |
| Pricing.PercentageIsExactlyExact | src/order/order.service.ts:232-241 | For every percentage code and subtotal, the charge is the exact half-up discount iff it is clamped, is not half way between pennies, or the computed double did not fall short of half way; a caller can check the first two beforehand. |
| Pricing.TieGoesDown | src/order/order.service.ts:235-240 | 10% of 15 pennies is charged as 1 penny, though half-up gives 2. |
| Pricing.TieGoesUp | src/order/order.service.ts:235-240 | 50% of 25 pennies is charged as 13, which is the exact half-up discount. |
| Pricing.PreviewAgreesInDoubles | src/discount/discount.service.ts:124-131 | The unclamped preview prints the same pennies as checkout, ties included, for percentages up to 100. |
| Pricing.FinalAmountIsStoredTotalLessFee | src/discount/discount.service.ts:111-131 | For percentage and fixed-amount codes that create lets through, the preview's discount in doubles is checkout's, and its finalAmount is the stored total less the delivery fee. |
| Pricing.StoredTotalIsTheLedgers | src/order/order.service.ts:174-252 | End to end, the total computed in doubles is the ledger's penny total, or one penny more on a tie. |
| Fees.FeeAndNetSplitTheCharge | src/payouts/payouts.service.ts:46-56 | For any numbers as percentage and fixed fee, fee and net are between 0 and the charge and add up to it. |
| Fees.FeeAnswers | src/payouts/payouts.service.ts:46-56 | The fee is the percentage rounded half up plus the fixed fee, no less than 0 and no more than the charge; 0 on charges up to 0; the net is the rest. |
| FeeDoubles.FeeAnswers | src/payouts/payouts.service.ts:46-56 | The same in doubles, the product and quotient rounded. |
| Fees.FeeAndNetAreMonotone | src/payouts/payouts.service.ts:46-56 | For percentages from 0 to 100 and any fixed fee, both grow with the charge in spite of rounding and clamping. |
| Fees.ClampIsIdleExactlyUpToHundred | src/payouts/payouts.service.ts:48-50 | Without a fixed fee the clamp does nothing on every charge iff the percentage is at most 100. |
| Fees.FeesDriftByHalfEach | src/payouts/payouts.service.ts:46-51 | Without a fixed fee, the fees over any n charges differ from the exact percentage of their sum by at most n/2 minor units. |
| FeeDoubles.WholePercentIsExact | src/payouts/payouts.service.ts:46-51 | For a whole percentage, the fee in doubles is exactly the fee over the reals whenever gross times percentage is within 2^50. |
| FeeDoubles.FeeAndNetAreMonotone | src/payouts/payouts.service.ts:46-56 | In doubles, for percentages up to 100 a larger charge never lowers the fee, nor the net while the percentage is short of 100 by 500 half-ulps of the charge. |
| FeeDoubles.NetFallsOnlyAcrossAPowerOfTwo | src/payouts/payouts.service.ts:54-56 | In doubles a larger charge lowers the net only where the product or the quotient crosses a power of two in between, and only closer to 100 than that. |
| FeeDoubles.NetFallsByAtMostOne | src/payouts/payouts.service.ts:54-56 | Without that margin the net falls by at most one minor unit, for charges up to 2^46. |
| FeeDoubles.NetFalls | src/payouts/payouts.service.ts:54-56 | A percentage just below 100 and two neighbouring charges for which it does. |
| FeeDoubles.ClampIsIdleUpToHundred | src/payouts/payouts.service.ts:48-50 | In doubles, without a fixed fee the clamp to the charge does nothing for percentages up to 100. |
| FeeDoubles.FeesDriftByHalfEach | src/payouts/payouts.service.ts:46-51 | In doubles, the fees over n charges differ from the exact percentage of their sum by at most n/2 and 2.1 half-ulps of it. |
| CategoryCache.ServedTreesWereCurrent | src/redis/cache.service.ts:20-58 | In any interleaving, Redis failing or not, every served tree is a prefix of the table no shorter than the table was when the computation that stored it began, which was within the run. |
| CategoryCache.ServedTreeIsATable | src/redis/cache.service.ts:20-58 | Every such prefix was the whole table at some moment of the run. |
| CategoryCache.SubmittingAnswers | src/category/category.service.ts:22-53 | A creator's save adds the category iff its parent exists and its name and slug are free. |
| CategoryCache.CachedTreeIsCurrentUnlessStoredLate | src/category/category.service.ts:39-60 | On every run, Redis failing or not: with no delete outstanding, the cached tree is current iff its reader stored it before the table moved on and no delete has failed on it since; a stale one is gone within 300 seconds. |
| CategoryCache.LateSetServesStaleTree | src/redis/cache.service.ts:50-58 | A schedule in which a set after a delete serves a tree without the new category. |
| CategoryCache.FailedDeleteServesStaleTree | src/redis/cache.service.ts:40-47 | A schedule in which a failed delete, its error swallowed, does. |
| CategoryCache.CacheService.Set | src/redis/cache.service.ts:31-38 | What a later get of any key answers after a set; without Redis, or with an expiry Redis refuses, nothing changes. |
| CategoryCache.CacheService.Del | src/redis/cache.service.ts:40-47 | After a delete exactly the listed keys answer nothing. |
| CategoryCache.CacheService.Wrap | src/redis/cache.service.ts:50-58 | Returns the live cached value or the computed one, which it leaves cached; other keys are untouched. |
| CategoryCache.CategoryService.Create | src/category/category.service.ts:22-53 | Adds the category iff its parent exists and its name and slug are free, with the right error, and leaves nothing stale cached. |
| CategoryCache.CategoryService.FindAll | src/category/category.service.ts:55-60 | With calls one at a time the tree served is always the current table. |

## Left out

- Controllers, guards, DTO validation, logging, metrics, mail, queues, storage and uploads: wiring and foreign calls.
- Stripe, password hashing, token signing and one-time codes: not part of this model beyond a refund that returns a fresh id.
- Overlaps across the parts: the payment calls of `PaymentClaim`, the cancels and status changes of `CancelRace`, the edits of `LostUpdates` and the checkouts of `Serializability` each overlap among themselves, with the rest in whole steps. In particular `LedgerInvariant.ConservationOnEveryRun` and `CancelRace.LedgerHoldsUnderOverlap` have stock and slot edits in whole steps.
- Connection failures part of the way through a transaction or between the database calls of a handler.
- `DeliveryService.bookSlot`, `DeliveryService.releaseSlot` and `DiscountService.applyDiscount`: checkout and cancel have their own inline versions.
- Lead-time date arithmetic and time zones: one verdict given to checkout.
- Product edits other than stock, product deletion, slot dates and times, currencies, addresses and notes.
- Custom orders, second-factor enrolment, pagination, analytics, reviews and search queries.
- The idempotency key's composition from principal, method and route: the whole Redis key is one value, and requests with different keys do not meet.
- Idempotency with failing Redis calls: every call succeeds in the interleaved model.
- The JSON round trip of cached values: a cached value comes back as it was stored.
- The tree shape of categories: a parent is a position in the table, and the served tree is the table itself.
- The exponent range of doubles: amounts are zero or far from both ends of it.
- Fees.FeeAndNetAreMonotone: over exact reals, where rounding is not the point; `FeeDoubles` has what the doubles keep of it.
- Fees.ClampIsIdleExactlyUpToHundred: over exact reals; of its two directions `FeeDoubles` has the one for percentages up to 100.
- Fees.FeesDriftByHalfEach: over exact reals; `FeeDoubles.FeesDriftByHalfEach` adds the rounding.
- FeeDoubles.FeeAndNetAreMonotone: the net's margin is sufficient; `FeeDoubles.NetFalls` shows that it can fall otherwise and `FeeDoubles.NetFallsOnlyAcrossAPowerOfTwo` where.
- FeeDoubles.WholePercentIsExact: the fixed fee is a whole number of minor units in `FeeDoubles`; a fractional one, or a configuration that is not a number, is not modelled in doubles.
- Pricing.SubtotalIsExact: stated for (n + 1)*(T + 1) up to 4.2 * 10^15, which for decimal(10,2) totals allows over 400,000 lines; by `Pricing.PennyCartIsExactUpTo` it is false of a cart of 932069 lines whose amounts fit the columns.
- Pricing.PriceCart: within the same bound.
- Pricing.LedgerSubtotalIsTheDoubles: within the same bound.
- Pricing.StoredTotalIsTheLedgers: within the same bound.
- Billing.AcceptedTotalIsTheDoubles: within the same bound, and for code values and amounts within 2^50; a subtotal times percentage beyond that is not covered.
- Pricing.TotalIsExact: stated for amounts whose double is within 2^50 pennies.
