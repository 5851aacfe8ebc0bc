/**
 * The order store as the server runs it: one object holding the tables, and
 * one method per route that updates them step by step. Each method is proved
 * to leave the tables, and answer, as the matching function of OrderStore
 * says, and to keep ValidDb.
 */
module OrderDatabase {
  import opened Wrappers
  import opened AppTransIds
  import opened OrderStore
  import opened OrderStoreProperties

  /** The stock query of `POST /orders`, one line after the other; the first failing
      line decides the error. */
  method CheckStock(products: map<nat, Product>, lines: seq<LineRequest>) returns (r: Option<CreateError>)
    ensures r == StockCheck(products, lines)
  {
    var i := 0;
    while i < |lines|
      invariant 0 <= i <= |lines|
      invariant StockCheck(products, lines) == StockCheck(products, lines[i..])
    {
      var e := LineError(products, lines[i]);
      if e.Some? {
        return e;
      }
      assert lines[i..][1..] == lines[i + 1..];
      i := i + 1;
    }
    return None;
  }

  class Database {
    var users: seq<User>
    var products: map<nat, Product>
    var orders: seq<Order>
    var details: seq<Detail>
    var transactions: seq<Transaction>
    var clock: nat
    /** The wallet provider's callback key and its HMAC-SHA256, given at construction. */
    const key2: string
    const hmac: (string, string) -> string

    function State(): Db
      reads this
    {
      Db(users, products, orders, details, transactions, clock)
    }

    ghost predicate Valid()
      reads this
    {
      ValidDb(State())
    }

    constructor (catalog: map<nat, Product>, key2: string, hmac: (string, string) -> string)
      ensures Valid()
      ensures State() == Db([], catalog, [], [], [], 0)
      ensures this.key2 == key2 && this.hmac == hmac
    {
      users, products, orders, details, transactions, clock := [], catalog, [], [], [], 0;
      this.key2, this.hmac := key2, hmac;
    }

    /** The stock decrement of `POST /orders`: one update per line, in request order;
        the stock is not re-checked at the time of the write. */
    method DebitStock(lines: seq<LineRequest>)
      modifies this`products
      ensures products == AdjustStock(old(products), Debits(lines))
    {
      ghost var before := products;
      var i := 0;
      while i < |lines|
        invariant 0 <= i <= |lines|
        invariant products == AdjustStock(before, Debits(lines)[..i])
      {
        var line := lines[i];
        DebitsStep(before, lines, i);
        products := ApplyMove(products, StockMove(line.productId, -line.quantity));
        i := i + 1;
      }
      assert Debits(lines)[..|lines|] == Debits(lines);
    }

    /** The stock restoration of `PUT /orders/:id/cancel`: one update per detail row of
        the order, on the products that still exist and manage stock. */
    method RestoreStock(id: nat)
      modifies this`products
      ensures products == AdjustStock(old(products), Credits(details, id))
    {
      ghost var before := products;
      var k := 0;
      while k < |details|
        invariant 0 <= k <= |details|
        invariant products == AdjustStock(before, Credits(details[..k], id))
      {
        var row := details[k];
        CreditsStep(before, details, k, id);
        if row.orderId == id {
          products := ApplyMove(products, StockMove(row.productId, row.quantity));
        }
        k := k + 1;
      }
      assert details[..|details|] == details;
    }

    /** The customer lookup and, for a new phone, the customer insert of `POST /orders`. */
    method RegisterCustomer(req: OrderRequest) returns (userId: nat, userName: string)
      requires FindUser(users, req.phone).Some? || req.name != ""
      modifies this`users
      ensures Customer(users, userId, userName) == Register(old(users), req)
    {
      var found := FindUser(users, req.phone);
      if found.Some? {
        userId, userName := found.value + 1, users[found.value].name;
      } else {
        users := users + [NewUser(req)];
        userId, userName := |users|, req.name;
      }
    }

    /** The writes of `POST /orders` once the stock check has passed. */
    method CommitOrder(req: OrderRequest, userId: nat)
      modifies this
      ensures State() == Commit(old(State()), req, userId)
    {
      var orderId := |orders| + 1;
      orders := orders + [Order(userId, req.total, req.paymentMethod, req.status, req.note, clock)];
      clock := clock + 1;
      details := details + DetailsOf(orderId, req.lines);
      DebitStock(req.lines);
    }

    /** `POST /orders`. */
    method CreateOrder(req: OrderRequest) returns (reply: CreateReply)
      requires Valid()
      modifies this
      ensures (State(), reply) == OrderStore.CreateOrder(old(State()), req)
      ensures Valid()
    {
      CreatePreservesValid(State(), req);
      if req.phone == "" || |req.lines| == 0 {
        return Rejected(MissingOrderInfo);
      }
      if FindUser(users, req.phone).None? && req.name == "" {
        return Rejected(NameRequired);
      }
      // The customer row is written before, and independently of, the stock check.
      var userId, userName := RegisterCustomer(req);
      var check := CheckStock(products, req.lines);
      if check.Some? {
        return Rejected(check.value);
      }
      CommitOrder(req, userId);
      reply := Created(|orders|, userId, userName, Snapshot(products, req.lines));
    }

    /** `PUT /orders/:id/cancel`. Both failures are detected before anything is written,
        so the rollback leaves the tables as they were. */
    method CancelOrder(id: nat) returns (reply: CancelReply)
      requires Valid()
      modifies this
      ensures (State(), reply) == OrderStore.CancelOrder(old(State()), id)
      ensures Valid()
    {
      CancelPreservesValid(State(), id);
      if !HasOrder(orders, id) {
        return CancelFailed(OrderNotFound);
      }
      var status := orders[id - 1].status;
      if status != Pending {
        return CancelFailed(NotPending(status));
      }
      orders := orders[id - 1 := orders[id - 1].(status := Cancelled)];
      RestoreStock(id);
      reply := CancelOk(id);
    }

    /** `POST /zalopay/create-order`, after the provider call. */
    method CreateWalletPayment(orderId: nat, datePrefix: string, provider: Option<string>,
                               amount: int, description: string) returns (reply: WalletReply)
      requires Valid()
      modifies this
      ensures (State(), reply)
              == OrderStore.CreateWalletPayment(old(State()), orderId, datePrefix, provider, amount, description)
      ensures Valid()
    {
      WalletPaymentPreservesValid(State(), orderId, datePrefix, provider, amount, description);
      var appTransId := AppTransId(datePrefix, orderId);
      if provider.None? {
        return WalletProviderError;
      }
      transactions := transactions
        + [PendingTransaction(orderId, appTransId, provider.value, amount, description)];
      reply := WalletOrderCreated(appTransId);
    }

    /** `POST /zalopay/callback`; `payload` is `JSON.parse(data)`, None when it throws. */
    method ZaloPayCallback(data: string, payload: Option<CallbackData>, mac: string)
      returns (reply: CallbackReply)
      requires Valid()
      modifies this
      ensures (State(), reply)
              == OrderStore.ZaloPayCallback(old(State()), key2, hmac, data, payload, mac)
      ensures Valid()
    {
      CallbackPreservesValid(State(), key2, hmac, data, payload, mac);
      if payload.None? {
        return CallbackReply(500, -1, "Server Error");
      }
      if mac != hmac(key2, data) {
        return CallbackReply(400, -1, "Invalid MAC");
      }
      var p := payload.value;
      transactions := Settle(transactions, p.appTransId, p.zpTransId, p.serverTime);
      orders := MarkPaid(orders, SettledOrderIds(transactions, p.appTransId));
      reply := CallbackReply(200, 1, "OK");
    }

    /** `POST /webhook/payhook`; `now` is NOW() and `ledgerWritten` the outcome of the
        best-effort ledger insert. */
    method Payhook(req: PayhookRequest, now: int, ledgerWritten: bool) returns (reply: PayhookReply)
      requires Valid()
      modifies this
      ensures (State(), reply) == OrderStore.Payhook(old(State()), req, now, ledgerWritten)
      ensures Valid()
    {
      PayhookPreservesValid(State(), req, now, ledgerWritten);
      if req.event != "transaction.detected" {
        return PayhookBadRequest("Unknown event type");
      }
      if req.transaction.None? || req.transaction.value.transactionId == ""
         || req.transaction.value.amountVND == 0 {
        return PayhookBadRequest("Missing required transaction data");
      }
      var tx := req.transaction.value;
      var found := LatestMatch(orders, tx.amountVND);
      if found.None? {
        return PayhookNoMatch(tx.transactionId, tx.amountVND);
      }
      var id := found.value;
      orders := orders[id - 1 := orders[id - 1].(status := Paid)];
      if ledgerWritten {
        transactions := transactions + [Transaction(id, tx.transactionId, None, tx.amountVND,
                                                    CakeDescription(tx), TxSuccess, None, Some(now))];
      }
      reply := PayhookConfirmed(id, tx.amountVND);
    }
  }
}
