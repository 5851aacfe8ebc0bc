/**
 * The order store of the point-of-sale backend (backend/server.js) as values:
 * the `users`, `products`, `orders`, `order_details` and `transactions` tables,
 * and one function per route that maps a database and a request to the new
 * database and the reply. Rows of `users` and `orders` are never deleted and
 * their ids are AUTO_INCREMENT, so a row's id is its position plus one.
 */
module OrderStore {
  import opened Wrappers
  import opened AppTransIds

  datatype PaymentStatus = Pending | Paid | Cancelled

  datatype TxStatus = TxPending | TxSuccess

  datatype User = User(name: string, phone: string, role: string)

  /** `stock` is meaningful only when `manageStock`; nothing keeps it non-negative. */
  datatype Product = Product(name: string, manageStock: bool, stock: int)

  datatype Order = Order(userId: nat, total: int, paymentMethod: string, status: PaymentStatus,
                         note: string, createdAt: nat)

  /** One row of `order_details`: a snapshot of a line at order time. */
  datatype Detail = Detail(orderId: nat, productId: nat, productName: string, quantity: int,
                           price: int, discount: int)

  /** One row of `transactions`; the options stand for nullable columns. */
  datatype Transaction = Transaction(orderId: nat, appTransId: string, token: Option<string>,
                                     amount: int, description: string, status: TxStatus,
                                     zpTransId: Option<string>, paymentTime: Option<int>)

  /** The whole database; `clock` is the value the next `created_at` receives. */
  datatype Db = Db(users: seq<User>, products: map<nat, Product>, orders: seq<Order>,
                   details: seq<Detail>, transactions: seq<Transaction>, clock: nat)

  predicate HasOrder(orders: seq<Order>, id: nat) {
    1 <= id <= |orders|
  }

  /** The invariant the routes keep: `created_at` strictly increases with the id and stays
      below the clock, and every detail row belongs to an existing order. */
  ghost predicate ValidDb(db: Db) {
    && (forall i, j :: 0 <= i < j < |db.orders| ==> db.orders[i].createdAt < db.orders[j].createdAt)
    && (forall i :: 0 <= i < |db.orders| ==> db.orders[i].createdAt < db.clock)
    && (forall k :: 0 <= k < |db.details| ==> HasOrder(db.orders, db.details[k].orderId))
  }

  // ---------------------------------------------------------------------------
  // Stock adjustments, shared by order creation (debits) and cancellation (credits)
  // ---------------------------------------------------------------------------

  datatype StockMove = StockMove(productId: nat, delta: int)

  /** Sum of the deltas that `moves` carry for product `id`. */
  function NetDelta(moves: seq<StockMove>, id: nat): int
    decreases |moves|
  {
    if |moves| == 0 then 0
    else NetDelta(moves[..|moves| - 1], id)
         + (if moves[|moves| - 1].productId == id then moves[|moves| - 1].delta else 0)
  }

  /** `UPDATE products SET stock_quantity = stock_quantity + delta WHERE id = ?`, issued only
      for an existing stock-managed product. */
  function ApplyMove(products: map<nat, Product>, m: StockMove): map<nat, Product> {
    if m.productId in products && products[m.productId].manageStock then
      products[m.productId := products[m.productId].(stock := products[m.productId].stock + m.delta)]
    else products
  }

  /** The moves applied one after the other. No product is added or removed; the stock of
      each is stated by AdjustStockPointwise. */
  function AdjustStock(products: map<nat, Product>, moves: seq<StockMove>): (r: map<nat, Product>)
    ensures r.Keys == products.Keys
    decreases |moves|
  {
    if |moves| == 0 then products
    else ApplyMove(AdjustStock(products, moves[..|moves| - 1]), moves[|moves| - 1])
  }

  // ---------------------------------------------------------------------------
  // POST /orders
  // ---------------------------------------------------------------------------

  datatype LineRequest = LineRequest(productId: nat, productName: string, quantity: int,
                                     price: int, discount: int)

  /** The request body; an empty string stands for a missing (falsy) field. The payment
      status is the client's choice and is stored as sent. */
  datatype OrderRequest = OrderRequest(phone: string, name: string, role: string, total: int,
                                       paymentMethod: string, status: PaymentStatus, note: string,
                                       lines: seq<LineRequest>)

  datatype CreateError =
    | MissingOrderInfo
    | NameRequired
    | ProductNotFound(productId: nat)
    | InsufficientStock(productName: string)

  /** Every rejection is answered with HTTP 400; `updated` is the re-read of the ordered
      products. */
  datatype CreateReply =
    | Created(orderId: nat, userId: nat, userName: string, updated: map<nat, Product>)
    | Rejected(error: CreateError)

  /** Index of the first user row with this phone, as `userResults[0]` picks it. */
  function FindUser(users: seq<User>, phone: string): (r: Option<nat>)
    ensures r.Some? ==> r.value < |users| && users[r.value].phone == phone
                        && forall j :: 0 <= j < r.value ==> users[j].phone != phone
    ensures r.None? <==> forall j :: 0 <= j < |users| ==> users[j].phone != phone
    decreases |users|
  {
    if |users| == 0 then None
    else if users[0].phone == phone then Some(0)
    else match FindUser(users[1..], phone)
      case None => None
      case Some(k) => Some(k + 1)
  }

  function NewUser(req: OrderRequest): User {
    User(req.name, req.phone, if req.role == "" then "customer" else req.role)
  }

  /** The outcome of the stock query for one line. */
  function LineError(products: map<nat, Product>, line: LineRequest): Option<CreateError> {
    if line.productId !in products then Some(ProductNotFound(line.productId))
    else if products[line.productId].manageStock && products[line.productId].stock < line.quantity
    then Some(InsufficientStock(line.productName))
    else None
  }

  /** The stock check over all lines, each against the stock as it is before the order;
      the first failing line decides the error. */
  function StockCheck(products: map<nat, Product>, lines: seq<LineRequest>): (r: Option<CreateError>)
    ensures r.None? <==> forall i :: 0 <= i < |lines| ==> LineError(products, lines[i]).None?
    ensures r.Some? ==> exists i :: 0 <= i < |lines| && LineError(products, lines[i]) == r
    decreases |lines|
  {
    if |lines| == 0 then None
    else if LineError(products, lines[0]).Some? then LineError(products, lines[0])
    else
      var rest := StockCheck(products, lines[1..]);
      assert forall i :: 1 <= i < |lines| ==> lines[i] == lines[1..][i - 1];
      rest
  }

  function DetailsOf(orderId: nat, lines: seq<LineRequest>): (r: seq<Detail>)
    ensures |r| == |lines|
    ensures forall i :: 0 <= i < |r| ==>
      && r[i].orderId == orderId && r[i].productId == lines[i].productId
      && r[i].productName == lines[i].productName && r[i].quantity == lines[i].quantity
      && r[i].price == lines[i].price && r[i].discount == lines[i].discount
  {
    seq(|lines|, i requires 0 <= i < |lines| =>
      Detail(orderId, lines[i].productId, lines[i].productName, lines[i].quantity,
             lines[i].price, lines[i].discount))
  }

  /** One stock decrement per line, in request order. */
  function Debits(lines: seq<LineRequest>): (r: seq<StockMove>)
    ensures |r| == |lines|
    ensures forall i :: 0 <= i < |r| ==> r[i].productId == lines[i].productId && r[i].delta == -lines[i].quantity
  {
    seq(|lines|, i requires 0 <= i < |lines| => StockMove(lines[i].productId, -lines[i].quantity))
  }

  /** Total quantity the lines ask of product `id`. */
  function LineQuantity(lines: seq<LineRequest>, id: nat): int
    decreases |lines|
  {
    if |lines| == 0 then 0
    else LineQuantity(lines[..|lines| - 1], id)
         + (if lines[|lines| - 1].productId == id then lines[|lines| - 1].quantity else 0)
  }

  function LineIds(lines: seq<LineRequest>): set<nat> {
    set i | 0 <= i < |lines| :: lines[i].productId
  }

  /** `SELECT ... FROM products WHERE id IN (?)` over the ordered product ids. */
  function Snapshot(products: map<nat, Product>, lines: seq<LineRequest>): map<nat, Product> {
    map id | id in products && id in LineIds(lines) :: products[id]
  }

  /** The customer an order is filed under: the first row with the phone, or a new row
      appended for the request (role defaults to `customer`). */
  datatype Customer = Customer(users: seq<User>, userId: nat, userName: string)

  function Register(users: seq<User>, req: OrderRequest): Customer
    requires FindUser(users, req.phone).Some? || req.name != ""
  {
    var found := FindUser(users, req.phone);
    if found.Some? then Customer(users, found.value + 1, users[found.value].name)
    else Customer(users + [NewUser(req)], |users| + 1, req.name)
  }

  /** The writes of an accepted order: the order row (stamped with the clock), one detail
      row per line, and one stock decrement per line. */
  function Commit(db: Db, req: OrderRequest, userId: nat): Db {
    var orderId := |db.orders| + 1;
    db.(orders := db.orders + [Order(userId, req.total, req.paymentMethod, req.status, req.note, db.clock)],
        details := db.details + DetailsOf(orderId, req.lines),
        products := AdjustStock(db.products, Debits(req.lines)),
        clock := db.clock + 1)
  }

  function CreateOrder(db: Db, req: OrderRequest): (Db, CreateReply) {
    if req.phone == "" || |req.lines| == 0 then (db, Rejected(MissingOrderInfo))
    else if FindUser(db.users, req.phone).None? && req.name == "" then (db, Rejected(NameRequired))
    else
      // A new customer row is written before the stock check and is kept on rejection.
      var c := Register(db.users, req);
      var check := StockCheck(db.products, req.lines);
      if check.Some? then (db.(users := c.users), Rejected(check.value))
      else
        var db' := Commit(db.(users := c.users), req, c.userId);
        (db', Created(|db.orders| + 1, c.userId, c.userName, Snapshot(db'.products, req.lines)))
  }

  // ---------------------------------------------------------------------------
  // PUT /orders/:id/cancel
  // ---------------------------------------------------------------------------

  datatype CancelError = OrderNotFound | NotPending(status: PaymentStatus)

  /** A failure is answered with HTTP 500 and a message naming the error. */
  datatype CancelReply = CancelOk(orderId: nat) | CancelFailed(error: CancelError)

  /** One stock restoration per detail row of order `orderId`, in table order. */
  function Credits(details: seq<Detail>, orderId: nat): seq<StockMove>
    decreases |details|
  {
    if |details| == 0 then []
    else
      var last := details[|details| - 1];
      Credits(details[..|details| - 1], orderId)
      + (if last.orderId == orderId then [StockMove(last.productId, last.quantity)] else [])
  }

  /** Total quantity of product `id` in the detail rows of order `orderId`. */
  function OrderedQuantity(details: seq<Detail>, orderId: nat, id: nat): int
    decreases |details|
  {
    if |details| == 0 then 0
    else
      var last := details[|details| - 1];
      OrderedQuantity(details[..|details| - 1], orderId, id)
      + (if last.orderId == orderId && last.productId == id then last.quantity else 0)
  }

  function CancelOrder(db: Db, id: nat): (Db, CancelReply) {
    if !HasOrder(db.orders, id) then (db, CancelFailed(OrderNotFound))
    else if db.orders[id - 1].status != Pending then
      (db, CancelFailed(NotPending(db.orders[id - 1].status)))
    else
      (db.(orders := db.orders[id - 1 := db.orders[id - 1].(status := Cancelled)],
           products := AdjustStock(db.products, Credits(db.details, id))),
       CancelOk(id))
  }

  // ---------------------------------------------------------------------------
  // POST /zalopay/create-order: the ledger row it inserts
  // ---------------------------------------------------------------------------

  /** The row inserted once the wallet provider has answered with a payment token. */
  function PendingTransaction(orderId: nat, appTransId: string, token: string, amount: int,
                              description: string): Transaction {
    Transaction(orderId, appTransId, Some(token), amount, description, TxPending, None, None)
  }

  datatype WalletReply = WalletOrderCreated(appTransId: string) | WalletProviderError

  /** `datePrefix` is the day as YYMMDD; `provider` is the provider's payment token, or None
      when the call to the provider failed (answered with HTTP 500, nothing written). */
  function CreateWalletPayment(db: Db, orderId: nat, datePrefix: string, provider: Option<string>,
                               amount: int, description: string): (Db, WalletReply) {
    var appTransId := AppTransId(datePrefix, orderId);
    if provider.None? then (db, WalletProviderError)
    else
      (db.(transactions := db.transactions
             + [PendingTransaction(orderId, appTransId, provider.value, amount, description)]),
       WalletOrderCreated(appTransId))
  }

  // ---------------------------------------------------------------------------
  // POST /zalopay/callback
  // ---------------------------------------------------------------------------

  /** The fields of the parsed callback `data` that the handler reads. */
  datatype CallbackData = CallbackData(appTransId: string, zpTransId: string, serverTime: int,
                                       amount: int)

  datatype CallbackReply = CallbackReply(httpStatus: nat, returnCode: int, returnMessage: string)

  /** `UPDATE transactions SET status = 'success', ... WHERE app_trans_id = ?`. */
  function Settle(txs: seq<Transaction>, appTransId: string, zpTransId: string, time: int)
    : (r: seq<Transaction>)
    ensures |r| == |txs|
    ensures forall i :: 0 <= i < |r| && txs[i].appTransId != appTransId ==> r[i] == txs[i]
    ensures forall i :: 0 <= i < |r| && txs[i].appTransId == appTransId ==>
      && r[i].status == TxSuccess && r[i].zpTransId == Some(zpTransId) && r[i].paymentTime == Some(time)
      && r[i].orderId == txs[i].orderId && r[i].appTransId == appTransId
      && r[i].token == txs[i].token && r[i].amount == txs[i].amount
      && r[i].description == txs[i].description
  {
    seq(|txs|, i requires 0 <= i < |txs| =>
      if txs[i].appTransId == appTransId
      then txs[i].(status := TxSuccess, zpTransId := Some(zpTransId), paymentTime := Some(time))
      else txs[i])
  }

  /** Ids of the orders joined to a successful transaction carrying `appTransId`. */
  function SettledOrderIds(txs: seq<Transaction>, appTransId: string): set<nat> {
    set i | 0 <= i < |txs| && txs[i].appTransId == appTransId && txs[i].status == TxSuccess
      :: txs[i].orderId
  }

  /** `UPDATE orders SET payment_status = 'paid'` for the orders whose id is in `ids`. */
  function MarkPaid(orders: seq<Order>, ids: set<nat>): (r: seq<Order>)
    ensures |r| == |orders|
    ensures forall i :: 0 <= i < |r| ==>
      && r[i].status == (if i + 1 in ids then Paid else orders[i].status)
      && r[i] == orders[i].(status := r[i].status)
  {
    seq(|orders|, i requires 0 <= i < |orders| =>
      if i + 1 in ids then orders[i].(status := Paid) else orders[i])
  }

  /** `payload` is `JSON.parse(data)`, or None when `data` is not valid JSON; `hmac` is the
      provider's HMAC-SHA256, left uninterpreted. */
  function ZaloPayCallback(db: Db, key2: string, hmac: (string, string) -> string, data: string,
                           payload: Option<CallbackData>, mac: string): (Db, CallbackReply) {
    if payload.None? then (db, CallbackReply(500, -1, "Server Error"))
    else if mac != hmac(key2, data) then (db, CallbackReply(400, -1, "Invalid MAC"))
    else
      var p := payload.value;
      var txs := Settle(db.transactions, p.appTransId, p.zpTransId, p.serverTime);
      (db.(transactions := txs, orders := MarkPaid(db.orders, SettledOrderIds(txs, p.appTransId))),
       CallbackReply(200, 1, "OK"))
  }

  // ---------------------------------------------------------------------------
  // POST /webhook/payhook
  // ---------------------------------------------------------------------------

  /** `transactionId` "" and `amountVND` 0 stand for missing (falsy) values. */
  datatype PayhookTx = PayhookTx(transactionId: string, amountVND: int, bank: string,
                                 description: string)

  datatype PayhookRequest = PayhookRequest(event: string, transaction: Option<PayhookTx>)

  /** Bad requests are answered with HTTP 400; the other two with 200 and `success`
      false or true. */
  datatype PayhookReply =
    | PayhookBadRequest(error: string)
    | PayhookNoMatch(transactionId: string, amount: int)
    | PayhookConfirmed(orderId: nat, amount: int)

  const AmountTolerance: int := 1000

  /** The WHERE clause of the webhook's order search. */
  predicate MatchesPayment(o: Order, amount: int) {
    o.paymentMethod == "cake" && o.status == Pending
    && -AmountTolerance <= o.total - amount <= AmountTolerance
  }

  /** The matching order with the latest `created_at` among the first `n` orders, as an id;
      between equal `created_at` values the larger id wins. */
  function LatestMatchUpTo(orders: seq<Order>, amount: int, n: nat): (r: Option<nat>)
    requires n <= |orders|
    ensures r.Some? ==> 1 <= r.value <= n && MatchesPayment(orders[r.value - 1], amount)
    ensures r.Some? ==> forall i :: 0 <= i < n && MatchesPayment(orders[i], amount) ==>
                          orders[i].createdAt <= orders[r.value - 1].createdAt
    ensures r.None? <==> forall i :: 0 <= i < n ==> !MatchesPayment(orders[i], amount)
  {
    if n == 0 then None
    else
      var best := LatestMatchUpTo(orders, amount, n - 1);
      if MatchesPayment(orders[n - 1], amount)
         && (best.None? || orders[best.value - 1].createdAt <= orders[n - 1].createdAt)
      then Some(n)
      else best
  }

  function LatestMatch(orders: seq<Order>, amount: int): Option<nat> {
    LatestMatchUpTo(orders, amount, |orders|)
  }

  function CakeDescription(tx: PayhookTx): string {
    "Cake payment - " + (if tx.bank == "" then "UNKNOWN" else tx.bank) + " - " + tx.description
  }

  /** `now` is the database's NOW(); `ledgerWritten` says whether the best-effort insert
      of the ledger row succeeded. */
  function Payhook(db: Db, req: PayhookRequest, now: int, ledgerWritten: bool): (Db, PayhookReply) {
    if req.event != "transaction.detected" then (db, PayhookBadRequest("Unknown event type"))
    else if req.transaction.None? || req.transaction.value.transactionId == ""
            || req.transaction.value.amountVND == 0
    then (db, PayhookBadRequest("Missing required transaction data"))
    else
      var tx := req.transaction.value;
      var found := LatestMatch(db.orders, tx.amountVND);
      if found.None? then (db, PayhookNoMatch(tx.transactionId, tx.amountVND))
      else
        var id := found.value;
        var orders := db.orders[id - 1 := db.orders[id - 1].(status := Paid)];
        var row := Transaction(id, tx.transactionId, None, tx.amountVND, CakeDescription(tx),
                               TxSuccess, None, Some(now));
        (db.(orders := orders,
             transactions := if ledgerWritten then db.transactions + [row] else db.transactions),
         PayhookConfirmed(id, tx.amountVND))
  }
}
