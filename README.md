# A verified model of the point-of-sale order core

This project models the order-taking core of a small point-of-sale system for a cake
shop (an Express/MySQL backend and a React front end) and proves properties of it in
Dafny.

- **Order store** (`backend/server.js`). The `users`, `products`, `orders`,
  `order_details` and `transactions` tables are values of type `OrderStore.Db`.
  - Each route is a function from a database and a request to the new database and
    the reply. The routes are:
    - `POST /orders` with its inner `createOrder`;
    - `PUT /orders/:id/cancel`;
    - the ledger row and `app_trans_id` of `POST /zalopay/create-order`;
    - `POST /zalopay/callback`;
    - `POST /webhook/payhook`.
  - `OrderStoreProperties` proves what each route promises: its error cases, its
    effect on every table, the round trip between create and cancel, and the invariant
    `ValidDb`, which every route preserves.
  - `OrderDatabase.Database` is the same store as an object whose methods update its
    tables step by step, one stock update per line as the server issues them. Each
    method is proved to end in exactly the state and reply the matching function
    gives.
- **Correlation id** (`AppTransIds`). The wallet `app_trans_id` is the day as `YYMMDD`,
  an underscore and the order id. The order id can be read back out of it, and two ids
  coincide only for the same day and the same order.
- **Vietnamese number reading**. There are two converters, both proved against one
  reference reading (`NumberReading.Reading`, a sequence of syllables):
  - the server's `numberToVietnameseWords` (`ServerNumberWords`);
  - the payment-success screen's simpler one (`ClientNumberWords`).
- **Cart** (`frontend/src/components/OrderSummary.jsx`).
  - Module `Cart` models the pure cart transforms: add with merge and stock check,
    remove, and update quantity. It also models the phone-field filter and the checks
    and request of `handlePlaceOrder`.
  - `Cart.PlaceOrderDisabled` models the rule that disables the "create order" button.
  - `OrderSummaries.OrderSummary` is the component's state with one method per
    handler.
- **Product card** (`frontend/src/components/ProductItem.jsx`).
  - `ProductItems.ProductItem` models the quantity stepper and the add button.
  - `ProductItems.AddDisabled` models the disabled-button rule.

Where the code and its documentation differ, the model follows the code:
- A successful `POST /orders` is answered with `res.json`, that is with status 200.
- The callback marks orders paid with no `pending` guard. A cancelled order whose
  transaction is later confirmed becomes `paid`; `CallbackPaysCancelledOrder` proves
  this.
- Each stock line is checked against the stock as it was before the order, so two
  lines for one product can overdraw it (`DuplicateLinesOverdrawStock`).
- No line quantity is checked for its sign, so a negative line raises the stock at
  creation and lowers it at cancellation (`NegativeLineLetsCancelOverdraw`).
- For millions with an empty thousands group, the server's converter says "không
  nghìn" whatever the last three digits are.

## Model

| member | source | states |
|---|---|---|
| AppTransIds.Decimal | backend/server.js:990 | the order id as the template literal prints it: decimal digits, with a leading zero only for 0 |
| AppTransIds.ParseDecimalInverts | backend/server.js:990 | reading the printed order id back as decimal gives the order id |
| AppTransIds.DatePrefix | backend/server.js:990 | `moment().format("YYMMDD")` is six digits |
| AppTransIds.AppTransIdEmbedsOrderId | backend/server.js:990 | the order id can be recovered from every `app_trans_id` |
| AppTransIds.AppTransIdInjective | backend/server.js:990 | two `app_trans_id`s are equal exactly when they were made on the same day for the same order |
| OrderStore.FindUser | backend/server.js:275-287 | the customer is the first user row with the phone; there is none exactly when no row carries the phone |
| OrderStore.StockCheck | backend/server.js:314-338 | the stock check passes exactly when every line names an existing product and, for a managed product, asks no more than the stock before the order; otherwise the error is that of a failing line |
| OrderStore.AdjustStock | backend/server.js:381-401 | per-line stock updates never add or remove a product |
| OrderStore.DetailsOf | backend/server.js:362-369 | one detail row per request line, in order; row i belongs to the new order and copies line i's product id, name, quantity, price and discount |
| OrderStore.Debits | backend/server.js:381-401 | one stock decrement per request line, in order; decrement i takes line i's quantity from line i's product |
| OrderStore.Settle | backend/server.js:1076-1081 | the settlement update keeps every transaction row; rows with the app_trans_id become success with the provider's id and time and keep their other columns; other rows are untouched |
| OrderStore.MarkPaid | backend/server.js:1086-1092 | the joined order update keeps every order row; exactly the orders whose id is in the set become paid, and no other column changes |
| OrderStore.LatestMatchUpTo | backend/server.js:1741-1750 | the chosen order is a pending `cake` order within 1000 of the amount and has the latest `created_at` among them; there is none exactly when no order matches |
| OrderStoreProperties.NetDeltaAppend | backend/server.js:381-401 | the stock change of two runs of updates is the sum of their changes |
| OrderStoreProperties.AdjustStockPointwise | backend/server.js:381-401 | after the updates, each product's stock moved by the net of its updates when it manages stock, and did not move otherwise |
| OrderStoreProperties.AdjustStockSnoc | backend/server.js:381-401 | one more update is applied on top of the earlier ones |
| OrderStoreProperties.DebitsStep | backend/server.js:381-401 | the decrements are applied line by line in request order |
| OrderStoreProperties.CreditsStep | backend/server.js:602-613 | the restorations are applied detail row by detail row |
| OrderStoreProperties.DebitsNet | backend/server.js:381-401 | the decrements take from each product exactly the total quantity the lines ask of it |
| OrderStoreProperties.CreditsNet | backend/server.js:602-613 | the restorations give back exactly the total quantity of the product in the order's detail rows |
| OrderStoreProperties.OrderedQuantityAppend | backend/server.js:587-594 | an order's quantity of a product adds up over appended detail rows |
| OrderStoreProperties.OrderedQuantityOfAbsentOrder | backend/server.js:587-594 | an order with no detail rows has nothing to restore |
| OrderStoreProperties.OrderedQuantityOfDetails | backend/server.js:362-369 | the detail rows of a new order hold exactly the quantities of its lines |
| OrderStoreProperties.LineQuantityOfDistinct | backend/server.js:381-401 | with distinct product ids, a product's total quantity is its own line's quantity, or zero |
| OrderStoreProperties.CreateRejectedIff | backend/server.js:270-338 | creation is rejected exactly when the phone or lines are missing, the phone is unknown with no name, or some line fails the stock check |
| OrderStoreProperties.CreateRejectedWritesNoOrder | backend/server.js:270-338 | a rejected creation writes no order, detail, stock or transaction; only a new customer row written before the stock check persists, and exactly when the phone was unknown and a name was given |
| OrderStoreProperties.CreateSucceededEffect | backend/server.js:340-432 | a created order is appended with the next id and the client's status; its lines become detail rows; each managed product's stock drops by its line quantities and unmanaged ones are untouched; the reply re-reads the ordered products |
| OrderStoreProperties.DistinctLinesKeepStockNonNegative | backend/server.js:323-401 | with distinct product ids, non-negative managed stock stays non-negative |
| OrderStoreProperties.OneLineOrderStep | backend/server.js:323-401 | a one-line order by the only customer, covered by the stock, is accepted, takes its quantity from the stock and writes one order row and one detail row |
| OrderStoreProperties.NegativeLineLetsCancelOverdraw | backend/server.js:323-616 | with no sign check on quantities, from stock 0 an order of -5 (stock 5), an order of 5 (stock 0) and cancelling the first leave stock -5 |
| OrderStoreProperties.DuplicateLinesOverdrawStock | backend/server.js:323-401 | two lines of 2 for a product with stock 2 both pass the check and leave stock -2 |
| OrderStoreProperties.CancelFailsIff | backend/server.js:572-584 | cancelling fails exactly for a missing order or one not `pending`, names the status, and changes nothing |
| OrderStoreProperties.CancelSucceededEffect | backend/server.js:587-616 | a successful cancel sets that order to `cancelled`, gives back each managed product's ordered quantity, and changes no other order, product or table |
| OrderStoreProperties.OrderedQuantityNonNegative | backend/server.js:587-616 | the quantity given back for a product is non-negative when every row of the cancelled order is |
| OrderStoreProperties.CancelKeepsStockNonNegative | backend/server.js:587-616 | when the cancelled order's rows are non-negative, non-negative managed stock stays non-negative |
| OrderStoreProperties.SecondCancelFails | backend/server.js:582-584 | cancelling the same order twice fails the second time with status `cancelled` |
| OrderStoreProperties.CreditsUndoDebits | backend/server.js:381-613 | restoring an order's detail rows undoes its decrements |
| OrderStoreProperties.CancelUndoesCreate | backend/server.js:340-616 | cancelling a freshly created pending order returns every product's stock to what it was before the order |
| OrderStoreProperties.PaidOrderCannotBeCancelled | backend/server.js:582-584 | an order created as `paid` cannot be cancelled |
| OrderStoreProperties.WalletPaymentRecordsPendingRow | backend/server.js:986-1050 | with a provider token one pending ledger row carrying the order's `app_trans_id` is appended; without one nothing is written |
| OrderStoreProperties.CallbackRejectsBadMac | backend/server.js:1059-1071 | an unparsable payload or a MAC other than `Hmac(key2, data)` returns `return_code` -1 and changes nothing |
| OrderStoreProperties.SettledOrderIdsAfterSettle | backend/server.js:1076-1092 | after settlement the orders joined to a successful row are exactly those of the rows carrying the `app_trans_id` |
| OrderStoreProperties.CallbackSettlesAndPays | backend/server.js:1073-1103 | a valid callback settles every row with the `app_trans_id` with its `zp_trans_id` and time, marks every order linked to such a row `paid`, and touches nothing else |
| OrderStoreProperties.CallbackPaysCancelledOrder | backend/server.js:1086-1092 | a cancelled order linked to the settled `app_trans_id` becomes `paid` |
| OrderStoreProperties.CallbackIdempotent | backend/server.js:1073-1103 | delivering a valid callback twice leaves the state of one delivery, and both return `return_code` 1 |
| OrderStoreProperties.WalletFlowPaysOrder | backend/server.js:986-1103 | create order, then wallet payment, then a valid callback quoting its `app_trans_id`, leaves the order `paid` |
| OrderStoreProperties.PayhookBadRequestIff | backend/server.js:1726-1734 | the webhook answers 400 exactly for a wrong event or missing transaction data, and changes nothing |
| OrderStoreProperties.PayhookNoMatchIff | backend/server.js:1741-1760 | `success:false` is returned exactly when no pending `cake` order is within 1000 of the amount, and nothing changes |
| OrderStoreProperties.PayhookConfirmsLatestMatch | backend/server.js:1762-1796 | otherwise exactly the matching order with the latest `created_at` becomes `paid`; the ledger row is appended when its insert succeeds, with that order's id, the bank transaction id as `app_trans_id`, the amount, the cake description, status `success` and the payment time; the reply does not depend on that insert |
| OrderStoreProperties.PayhookChoiceIsUnique | backend/server.js:1741-1750 | with strictly increasing `created_at`, the confirmed order is the only latest match |
| OrderStoreProperties.CreatePreservesValid | backend/server.js:340-369 | order creation keeps `created_at` increasing and every detail row attached to an order |
| OrderStoreProperties.CancelPreservesValid | backend/server.js:564-627 | cancellation keeps the store invariant |
| OrderStoreProperties.WalletPaymentPreservesValid | backend/server.js:1033-1037 | the wallet ledger insert keeps the store invariant |
| OrderStoreProperties.CallbackPreservesValid | backend/server.js:1053-1109 | the callback keeps the store invariant |
| OrderStoreProperties.PayhookPreservesValid | backend/server.js:1719-1805 | the webhook keeps the store invariant |
| OrderDatabase.CheckStock | backend/server.js:314-338 | the line-by-line stock query reports the first failing line, as `StockCheck` |
| OrderDatabase.Database.DebitStock | backend/server.js:381-401 | the per-line unguarded decrements leave the stock `AdjustStock` gives |
| OrderDatabase.Database.RestoreStock | backend/server.js:602-613 | the per-row restorations leave the stock `AdjustStock` gives for the order's credits |
| OrderDatabase.Database.RegisterCustomer | backend/server.js:284-306 | the customer lookup and insert give the customer `Register` does |
| OrderDatabase.Database.CommitOrder | backend/server.js:340-401 | the order, detail and stock writes give the database `Commit` does |
| OrderDatabase.Database.CreateOrder | backend/server.js:266-448 | the route leaves the tables and reply of `OrderStore.CreateOrder` and keeps `ValidDb` |
| OrderDatabase.Database.CancelOrder | backend/server.js:564-627 | the transaction leaves the tables and reply of `OrderStore.CancelOrder` and keeps `ValidDb` |
| OrderDatabase.Database.CreateWalletPayment | backend/server.js:986-1050 | the ledger insert matches `OrderStore.CreateWalletPayment` and keeps `ValidDb` |
| OrderDatabase.Database.ZaloPayCallback | backend/server.js:1053-1109 | the callback matches `OrderStore.ZaloPayCallback` and keeps `ValidDb` |
| OrderDatabase.Database.Payhook | backend/server.js:1719-1805 | the webhook matches `OrderStore.Payhook` and keeps `ValidDb` |
| NumberReading.TrimEnd | backend/server.js:1638 | trimming the end leaves a prefix that does not end in a space |
| NumberReading.TrimStart | backend/server.js:1638 | trimming the start leaves a suffix that does not start with a space |
| NumberReading.JoinWellSpaced | backend/server.js:1589-1639 | syllables joined by single spaces have no space at either end and no two spaces in a row |
| NumberReading.GroupReadingMarkers | backend/server.js:1603-1614 | a group says "lẻ" exactly when it has hundreds, a zero tens digit and a non-zero unit; it says "mười" exactly when its tens digit is 1; it never says "không" |
| NumberReading.ReadingSaysKhong | backend/server.js:1593-1632 | the reading says "không" exactly for 0, or for millions with an empty thousands group; in that case "triệu" is followed directly by "không" and "nghìn" |
| NumberReading.ReadingSyllables | backend/server.js:1589-1639 | every reading below 10^9 is a non-empty sequence of known syllables |
| ServerNumberWords.HundredsWords | backend/server.js:1603-1606 | the hundreds block is the hundreds digit, "trăm" and, for a lone unit, "lẻ" |
| ServerNumberWords.TensWords | backend/server.js:1608-1614 | the tens block reads the tens digit ("mười" for 1) and the unit |
| ServerNumberWords.GroupWordsIsReading | backend/server.js:1595-1617 | `toWordsBelowThousand` reads a group as the reference reading, single-spaced |
| ServerNumberWords.MillionsPartIsReading | backend/server.js:1624-1626 | the millions block is the group's reading followed by "triệu" |
| ServerNumberWords.ThousandsPartIsReading | backend/server.js:1628-1632 | the thousands block is the group followed by "nghìn", or "không nghìn" under millions |
| ServerNumberWords.GroupsWordsIsReading | backend/server.js:1619-1638 | the three blocks, trimmed, are the reference reading joined by single spaces |
| ServerNumberWords.WordsIsReading | backend/server.js:1589-1639 | for n < 10^9 the converter prints the reference reading |
| ServerNumberWords.WordsWellSpaced | backend/server.js:1589-1639 | for n < 10^9: 0 is "không"; the result is non-empty, has no space at either end and no double space |
| ClientNumberWords.TensAndUnitIsReading | frontend/src/components/PaymentSuccessTTS.jsx:37-39 | the two-digit reader reads 10..99 as the reference tens reading |
| ClientNumberWords.ThousandsPartIsReading | frontend/src/components/PaymentSuccessTTS.jsx:19-27 | below 100 thousands, the thousands block is the reference reading followed by "nghìn" |
| ClientNumberWords.CorrectedThousandsPartIsReading | frontend/src/components/PaymentSuccessTTS.jsx:19-27 | the corrected thousands block reads every count below 1000 |
| ClientNumberWords.HundredsPartIsReading | frontend/src/components/PaymentSuccessTTS.jsx:29-31 | the hundreds block is the hundreds digit and "trăm" |
| ClientNumberWords.RoundHundredsIsReading | frontend/src/components/PaymentSuccessTTS.jsx:29-41 | a round hundred reads as the reference reading |
| ClientNumberWords.LeUnitIsReading | frontend/src/components/PaymentSuccessTTS.jsx:33-35 | hundreds followed by a lone unit read "lẻ" and the unit |
| ClientNumberWords.TensIsReading | frontend/src/components/PaymentSuccessTTS.jsx:36-40 | a tens digit of one or more reads as the reference reading |
| ClientNumberWords.LoneUnitIsReading | frontend/src/components/PaymentSuccessTTS.jsx:36-40 | a lone unit without hundreds goes through the empty tens word and gains a leading space |
| ClientNumberWords.BelowThousandPartIsReading | frontend/src/components/PaymentSuccessTTS.jsx:29-41 | the last three digits read as the reference group, with one leading space exactly for a lone unit |
| ClientNumberWords.WordsByGroups | frontend/src/components/PaymentSuccessTTS.jsx:14-17 | below 10^6 both converters split the number into the same thousands and last three digits |
| ClientNumberWords.GroupsAgree | frontend/src/components/PaymentSuccessTTS.jsx:19-43 | without a lone unit, the corrected client prints what the server does |
| ClientNumberWords.LoneUnitAgrees | frontend/src/components/PaymentSuccessTTS.jsx:36-43 | a lone unit alone is trimmed to the server's reading |
| ClientNumberWords.ServerThousandsThenUnit | backend/server.js:1628-1638 | the server reads thousands and a lone unit with one space between them |
| ClientNumberWords.GroupsDoubleSpace | frontend/src/components/PaymentSuccessTTS.jsx:36-43 | the client reads thousands and a lone unit with two spaces between them |
| ClientNumberWords.CorrectedIsServer | frontend/src/components/PaymentSuccessTTS.jsx:8-44 | below 10^6 the corrected client agrees with the server except for the double space before a lone unit after thousands |
| ClientNumberWords.ClientIsCorrected | frontend/src/components/PaymentSuccessTTS.jsx:8-44 | below 100000 the client as written equals the corrected client |
| ClientNumberWords.ClientAgreesWithServer | frontend/src/components/PaymentSuccessTTS.jsx:8-44 | below 100000: 0 is "không", and the client prints the server's words except for that double space |
| ClientNumberWords.OneThousandReading | frontend/src/components/PaymentSuccessTTS.jsx:15-43 | the client converter turns 1000 into "một nghìn" |
| ClientNumberWords.Example1005 | frontend/src/components/PaymentSuccessTTS.jsx:8-44 | 1005 is read "một nghìn  năm", with two spaces |
| ClientNumberWords.ClientWellEnded | frontend/src/components/PaymentSuccessTTS.jsx:43 | the result never starts or ends with a space |
| ClientNumberWords.ClientSaysLe | frontend/src/components/PaymentSuccessTTS.jsx:29-43 | below 100000, outside the lone-unit-after-thousands case the client prints the reading joined by single spaces; that reading holds "lẻ" exactly when the hundreds digit is non-zero and the last two digits are 1..9, and then ends with "lẻ" and the unit word; in the lone-unit-after-thousands case the client prints the thousands (no "lẻ"), two spaces and the unit |
| ClientNumberWords.ThousandsPartUndefined | frontend/src/components/PaymentSuccessTTS.jsx:22-25 | from 100 thousands up the tens lookup is past the table and the block starts "undefined" |
| ClientNumberWords.ClientSaysUndefined | frontend/src/components/PaymentSuccessTTS.jsx:8-44 | from 100000 up the client's words start with "undefined" |
| Cart.Find | frontend/src/components/OrderSummary.jsx:31 | `find` returns the first line with the id, or none exactly when no line has it |
| Cart.AddToOrder | frontend/src/components/OrderSummary.jsx:28-48 | a new id is appended unchanged; an over-stock merge leaves the cart as it was |
| Cart.RemoveItem | frontend/src/components/OrderSummary.jsx:177-181 | no line with the id remains, and an absent id leaves the cart unchanged |
| Cart.FindUnique | frontend/src/components/OrderSummary.jsx:31 | with unique ids, `find` returns the line's own position |
| Cart.AddMerges | frontend/src/components/OrderSummary.jsx:41-45 | a merge adds the quantity to that line and leaves every other line as it was |
| Cart.AddKeepsUnique | frontend/src/components/OrderSummary.jsx:28-48 | adding keeps product ids unique |
| Cart.RemoveAt | frontend/src/components/OrderSummary.jsx:177-181 | removing deletes exactly that line and keeps the others in order |
| Cart.DeleteKeepsUnique | frontend/src/components/OrderSummary.jsx:177-181 | deleting one line keeps ids unique |
| Cart.RemoveKeepsUnique | frontend/src/components/OrderSummary.jsx:177-181 | removing keeps product ids unique |
| Cart.UpdateQuantityEffect | frontend/src/components/OrderSummary.jsx:183-193 | a quantity of zero or less removes the line; otherwise only that line's quantity is set |
| Cart.UpdateKeepsUnique | frontend/src/components/OrderSummary.jsx:183-193 | updating keeps product ids unique |
| Cart.StripNonDigits | frontend/src/components/OrderSummary.jsx:376 | `replace(/\D/g, '')` leaves only digits and never lengthens the text |
| Cart.StripDistributes | frontend/src/components/OrderSummary.jsx:376 | the filter works character by character: the digits of a concatenation are the digits of each part, in order |
| Cart.StripOne | frontend/src/components/OrderSummary.jsx:376 | a single character is kept exactly when it is a digit; with StripDistributes this fixes the result for every input |
| Cart.FilterPhone | frontend/src/components/OrderSummary.jsx:375-379 | a keystroke is accepted exactly when its digits are empty or start with '0' and number at most 10, and the field becomes those digits |
| Cart.StripKeepsDigits | frontend/src/components/OrderSummary.jsx:376 | digits pass the filter unchanged |
| Cart.StripIdempotent | frontend/src/components/OrderSummary.jsx:376 | stripping twice strips nothing more |
| Cart.PhoneFieldIsFixpoint | frontend/src/components/OrderSummary.jsx:375-379 | a valid field is accepted as it is |
| Cart.StatusFor | frontend/src/components/OrderSummary.jsx:252 | the status sent is `pending` exactly for zalopay, and `paid` otherwise |
| Cart.LinesOf | frontend/src/components/OrderSummary.jsx:254-260 | one request line per cart line, in order, carrying its product id, name, quantity, price and discount: the snapshot the server copies into the detail rows |
| Cart.PlaceOrder | frontend/src/components/OrderSummary.jsx:223-261 | placing is refused exactly for an empty phone, or a new customer with no name; otherwise the request carries the phone, name, role "customer", the total, the method, its status, the note and the lines |
| Cart.ServerNameCheck | frontend/src/components/OrderSummary.jsx:223-261 | a sent non-empty cart never hits the server's missing-information error, and hits its name error exactly when the phone is unknown and the name is empty |
| Cart.EmptyCartRefusedByServer | frontend/src/components/OrderSummary.jsx:223-261 | an empty cart passes `handlePlaceOrder`'s own checks but the server rejects it with nothing written; the button that calls it is disabled for an empty cart (`Cart.EnabledButtonSends`) |
| Cart.EnabledButtonSends | frontend/src/components/OrderSummary.jsx:532-539 | a click on the enabled button (non-empty cart, a phone, a name for a new customer, no QR loading) always sends a request with one line per cart item, which the server never rejects for missing information |
| OrderSummaries.OrderSummary.constructor | frontend/src/components/OrderSummary.jsx:10-15 | the component starts with an empty cart, cash, and empty customer fields |
| OrderSummaries.OrderSummary.AddToOrder | frontend/src/components/OrderSummary.jsx:28-48 | the cart becomes `Cart.AddToOrder` of the old cart, keeping ids unique |
| OrderSummaries.OrderSummary.RemoveItem | frontend/src/components/OrderSummary.jsx:177-181 | the cart becomes `Cart.RemoveItem` of the old cart, keeping ids unique |
| OrderSummaries.OrderSummary.UpdateQuantity | frontend/src/components/OrderSummary.jsx:183-193 | the cart becomes `Cart.UpdateQuantity` of the old cart, keeping ids unique |
| OrderSummaries.OrderSummary.TypePhone | frontend/src/components/OrderSummary.jsx:120-167 | a rejected keystroke changes nothing; from 7 digits an exact match selects that customer, otherwise the customer is new with no name; below 7 digits the customer is neither |
| OrderSummaries.OrderSummary.SelectCustomer | frontend/src/components/OrderSummary.jsx:169-175 | picking a suggested customer takes their name and phone and marks them known |
| OrderSummaries.OrderSummary.SetPaymentMethod | frontend/src/components/OrderSummary.jsx:424 | the payment method becomes the chosen one |
| OrderSummaries.OrderSummary.PlaceOrder | frontend/src/components/OrderSummary.jsx:223-261 | the checks and request of `handlePlaceOrder` on the component's state, as `Cart.PlaceOrder` |
| OrderSummaries.OrderSummary.Reset | frontend/src/components/OrderSummary.jsx:209-221 | `resetOrderState` empties the cart and customer fields and goes back to cash |
| ProductItems.ProductItem.constructor | frontend/src/components/ProductItem.jsx:4-5 | the stepper starts at 1 with the product's stock, within bounds when there is stock |
| ProductItems.ProductItem.Decrease | frontend/src/components/ProductItem.jsx:11-15 | the quantity drops by one from above 1 and never goes below 1 |
| ProductItems.ProductItem.Increase | frontend/src/components/ProductItem.jsx:17-21 | the quantity rises freely when stock is unmanaged, and only below the shown stock when it is managed; the bounds are kept |
| ProductItems.ProductItem.AddToOrder | frontend/src/components/ProductItem.jsx:23-39 | over the managed stock nothing is emitted and the quantity stays; otherwise the line is emitted with the quantity and shown stock and the stepper returns to 1; when the card shows the add button disabled, the handler emits nothing |
| ProductItems.ProductItem.SyncStock | frontend/src/components/ProductItem.jsx:7-9 | a new stock value from the product replaces the shown stock |
| ProductItems.DisabledMeansNothingEmitted | frontend/src/components/ProductItem.jsx:108-116 | when the button is disabled, the add handler's own check also refuses |

## Left out

- I/O is not modelled: Express routing, the MySQL pool, and SQL or driver errors after the first write. For example, a failed detail insert after the order row exists is not modelled. Each route is modelled as a sequential run whose writes all succeed. Only the callback's `JSON.parse` failure and the webhook's best-effort ledger insert are kept, as parameters.
- Concurrency is not modelled. `Promise.all` over the stock queries is modelled as the first failing line in request order decides the error.
- HMAC-SHA256 is the uninterpreted function parameter `hmac`.
- The call to the wallet provider's `/v2/create` is the `provider` parameter: the token, or None for a failure.
- `moment()` and `NOW()` are the parameters `datePrefix` and `now`; `created_at` is a strictly increasing counter.
- The replies' message texts and the re-read products' field names are not modelled. Cancel failures carry an error value, not the Vietnamese message.
- ServerNumberWords.Words and ClientNumberWords.Words are modelled on non-negative integers only. Both call sites pass `parseInt(Number(amount))`, which is `NaN` for a missing amount and negative for a negative one. For such input both converters fail every `> 0` guard and return "", so the sentence reads "Thanh toán thành công  đồng"; the model does not cover that case.
- OrderStore.CreateOrder: like the server, it has no sign check on a line's quantity. backend/server.js:323-338 only compares `stock_quantity < quantity`, so negative quantities are accepted. `NegativeLineLetsCancelOverdraw` shows the effect. `CancelKeepsStockNonNegative` therefore assumes non-negative rows, and no corrected creation with a sign check is modelled.
- Numbers coming from JSON are modelled as integers. Missing fields and `NaN` are modelled as "" or 0 where the code tests them for falsiness.
- Report and analytics queries, the AI endpoint, and the user, login, product and category CRUD routes are not part of this model.
- The TTS endpoint, the Google call and `speak()` are not modelled; only the two number converters are.
- `calculateSubtotal` uses floating point, so the order total is a parameter of `PlaceOrder`.
- The payment-status polling, QR codes, toasts, alerts and the `fetch` replies of the front end are not modelled.
- The `/users?phone=` lookup in `handlePhoneChange` is the `exactMatch` parameter of `TypePhone`. The suggestion list is not kept.
- The `note` and customer-name text fields are plain fields set by React.
- `Trim` removes only the space character. Strings here never contain other whitespace.
- ServerNumberWords.Words is proved against the reference reading only below 10^9. Beyond that, the millions group itself exceeds 999 and is not read by the reference.

## Findings

| source | as written | input that shows it | evidently intended | confidence | as-written member | corrected member |
|---|---|---|---|---|---|---|
| frontend/src/components/PaymentSuccessTTS.jsx:22-25 | the thousands count is read with the two-digit reader, so `tens[t]` is looked up with `t = thousands / 10`, which is 10 or more once the count reaches 100 | 150000: `tens[15]` is `undefined`, and the words start "undefined" | read the thousands count as a three-digit group, as the server does | high (not executed) | ClientNumberWords.ClientSaysUndefined | ClientNumberWords.CorrectedIsServer |
