/**
 * What the order-store routes promise, stated over the functions of OrderStore:
 * which requests are refused and what a refusal leaves behind, exactly how stock
 * moves on creation and cancellation, the idempotence of the wallet callback,
 * the choice the bank webhook makes, and the invariant all routes keep.
 */
module OrderStoreProperties {
  import opened Wrappers
  import opened AppTransIds
  import opened OrderStore

  // ---------------------------------------------------------------------------
  // Stock arithmetic
  // ---------------------------------------------------------------------------

  lemma {:induction false} NetDeltaAppend(a: seq<StockMove>, b: seq<StockMove>, id: nat)
    ensures NetDelta(a + b, id) == NetDelta(a, id) + NetDelta(b, id)
    decreases |b|
  {
    if |b| > 0 {
      var b' := b[..|b| - 1];
      assert (a + b)[..|a + b| - 1] == a + b';
      NetDeltaAppend(a, b', id);
    } else {
      assert a + b == a;
    }
  }

  /** The moves applied one after the other: each stock-managed product moves by its net
      delta, and nothing else about a product changes. */
  lemma {:induction false} AdjustStockPointwise(products: map<nat, Product>, moves: seq<StockMove>, id: nat)
    requires id in products
    ensures AdjustStock(products, moves)[id]
            == products[id].(stock := products[id].stock
                                      + (if products[id].manageStock then NetDelta(moves, id) else 0))
    decreases |moves|
  {
    if |moves| > 0 {
      AdjustStockPointwise(products, moves[..|moves| - 1], id);
    }
  }

  /** Applying one more move is one more ApplyMove. */
  lemma AdjustStockSnoc(products: map<nat, Product>, moves: seq<StockMove>, m: StockMove)
    ensures AdjustStock(products, moves + [m]) == ApplyMove(AdjustStock(products, moves), m)
  {
    assert (moves + [m])[..|moves|] == moves;
  }

  /** The stock after the first i + 1 decrements of an order is the stock after i of
      them, moved by line i. */
  lemma DebitsStep(products: map<nat, Product>, lines: seq<LineRequest>, i: nat)
    requires i < |lines|
    ensures AdjustStock(products, Debits(lines)[..i + 1])
            == ApplyMove(AdjustStock(products, Debits(lines)[..i]),
                         StockMove(lines[i].productId, -lines[i].quantity))
  {
    var debits := Debits(lines);
    assert debits[..i + 1] == debits[..i] + [debits[i]];
    AdjustStockSnoc(products, debits[..i], debits[i]);
  }

  /** One more detail row moves the stock of its product only when it belongs to the
      order being cancelled. */
  lemma CreditsStep(products: map<nat, Product>, details: seq<Detail>, k: nat, id: nat)
    requires k < |details|
    ensures AdjustStock(products, Credits(details[..k + 1], id))
            == if details[k].orderId == id
               then ApplyMove(AdjustStock(products, Credits(details[..k], id)),
                              StockMove(details[k].productId, details[k].quantity))
               else AdjustStock(products, Credits(details[..k], id))
  {
    assert details[..k + 1][..k] == details[..k];
    var prefix := Credits(details[..k], id);
    if details[k].orderId == id {
      AdjustStockSnoc(products, prefix, StockMove(details[k].productId, details[k].quantity));
    } else {
      assert prefix + [] == prefix;
    }
  }

  /** The debits of an order take from each product exactly the quantity its lines ask. */
  lemma {:induction false} DebitsNet(lines: seq<LineRequest>, id: nat)
    ensures NetDelta(Debits(lines), id) == -LineQuantity(lines, id)
    decreases |lines|
  {
    if |lines| > 0 {
      var init := lines[..|lines| - 1];
      assert Debits(lines)[..|lines| - 1] == Debits(init);
      DebitsNet(init, id);
    }
  }

  /** The credits of a cancellation give back exactly the quantity the order's rows hold. */
  lemma {:induction false} CreditsNet(details: seq<Detail>, orderId: nat, id: nat)
    ensures NetDelta(Credits(details, orderId), id) == OrderedQuantity(details, orderId, id)
    decreases |details|
  {
    if |details| > 0 {
      var init := details[..|details| - 1];
      var last := details[|details| - 1];
      var tail := if last.orderId == orderId then [StockMove(last.productId, last.quantity)] else [];
      NetDeltaAppend(Credits(init, orderId), tail, id);
      CreditsNet(init, orderId, id);
      if last.orderId == orderId {
        assert [StockMove(last.productId, last.quantity)][..0] == [];
      }
    }
  }

  lemma {:induction false} OrderedQuantityAppend(a: seq<Detail>, b: seq<Detail>, orderId: nat, id: nat)
    ensures OrderedQuantity(a + b, orderId, id)
            == OrderedQuantity(a, orderId, id) + OrderedQuantity(b, orderId, id)
    decreases |b|
  {
    if |b| > 0 {
      var b' := b[..|b| - 1];
      assert (a + b)[..|a + b| - 1] == a + b';
      OrderedQuantityAppend(a, b', orderId, id);
    } else {
      assert a + b == a;
    }
  }

  /** Rows of other orders contribute nothing to an order's quantities. */
  lemma {:induction false} OrderedQuantityOfAbsentOrder(details: seq<Detail>, orderId: nat, id: nat)
    requires forall k :: 0 <= k < |details| ==> details[k].orderId != orderId
    ensures OrderedQuantity(details, orderId, id) == 0
    decreases |details|
  {
    if |details| > 0 {
      OrderedQuantityOfAbsentOrder(details[..|details| - 1], orderId, id);
    }
  }

  /** The rows written for an order hold exactly the quantities its lines asked for. */
  lemma {:induction false} OrderedQuantityOfDetails(orderId: nat, lines: seq<LineRequest>, id: nat)
    ensures OrderedQuantity(DetailsOf(orderId, lines), orderId, id) == LineQuantity(lines, id)
    decreases |lines|
  {
    if |lines| > 0 {
      var init := lines[..|lines| - 1];
      assert DetailsOf(orderId, lines)[..|lines| - 1] == DetailsOf(orderId, init);
      OrderedQuantityOfDetails(orderId, init, id);
    }
  }

  /** With distinct product ids, a product's total is its one line's quantity, or 0. */
  lemma {:induction false} LineQuantityOfDistinct(lines: seq<LineRequest>, id: nat)
    requires forall i, j :: 0 <= i < j < |lines| ==> lines[i].productId != lines[j].productId
    ensures (forall k :: 0 <= k < |lines| ==> lines[k].productId != id) ==> LineQuantity(lines, id) == 0
    ensures forall k :: 0 <= k < |lines| && lines[k].productId == id ==>
              LineQuantity(lines, id) == lines[k].quantity
    decreases |lines|
  {
    if |lines| > 0 {
      var init := lines[..|lines| - 1];
      LineQuantityOfDistinct(init, id);
      if lines[|lines| - 1].productId == id {
        assert forall k :: 0 <= k < |init| ==> init[k].productId != id;
      }
    }
  }

  // ---------------------------------------------------------------------------
  // POST /orders
  // ---------------------------------------------------------------------------

  /** Creation is refused exactly when the phone or the lines are missing, the phone is
      unknown and no name was given, or some line names a missing product or asks a
      stock-managed product for more than its stock. */
  lemma CreateRejectedIff(db: Db, req: OrderRequest)
    ensures CreateOrder(db, req).1.Rejected? <==>
      || req.phone == "" || |req.lines| == 0
      || (FindUser(db.users, req.phone).None? && req.name == "")
      || exists i :: 0 <= i < |req.lines| && LineError(db.products, req.lines[i]).Some?
  {
  }

  /** A refused creation writes no order, detail, stock change or ledger row; the only
      write it keeps is the new customer row, made when the phone was unknown and a name
      was given but a line failed the stock check. */
  lemma CreateRejectedWritesNoOrder(db: Db, req: OrderRequest)
    requires CreateOrder(db, req).1.Rejected?
    ensures var db' := CreateOrder(db, req).0;
      && db'.orders == db.orders && db'.details == db.details && db'.products == db.products
      && db'.transactions == db.transactions && db'.clock == db.clock
      && (db'.users == db.users || db'.users == db.users + [NewUser(req)])
      && (db'.users != db.users <==>
            req.phone != "" && |req.lines| > 0 && FindUser(db.users, req.phone).None? && req.name != "")
  {
    var db' := CreateOrder(db, req).0;
    if req.phone != "" && |req.lines| > 0 && FindUser(db.users, req.phone).None? && req.name != "" {
      assert |db'.users| == |db.users| + 1;
    }
  }

  /** An accepted creation appends one order carrying the client's status and the current
      clock, one detail row per line, and takes from each stock-managed product exactly
      the total quantity its lines ask; unmanaged products and the ledger are untouched. */
  lemma CreateSucceededEffect(db: Db, req: OrderRequest)
    requires CreateOrder(db, req).1.Created?
    ensures var (db', r) := CreateOrder(db, req);
      && r.orderId == |db.orders| + 1
      && db'.orders == db.orders + [Order(r.userId, req.total, req.paymentMethod, req.status,
                                          req.note, db.clock)]
      && db'.details == db.details + DetailsOf(r.orderId, req.lines)
      && db'.transactions == db.transactions && db'.clock == db.clock + 1
      && db'.products.Keys == db.products.Keys
      && (forall id :: id in db.products ==>
            db'.products[id] == db.products[id].(stock := db.products[id].stock
              - (if db.products[id].manageStock then LineQuantity(req.lines, id) else 0)))
      && (forall i :: 0 <= i < |req.lines| ==> LineError(db.products, req.lines[i]).None?)
      && (forall id :: id in r.updated <==> id in db.products && id in LineIds(req.lines))
      && (forall id :: id in r.updated ==> r.updated[id] == db'.products[id])
      && 1 <= r.userId <= |db'.users| && db'.users[r.userId - 1].phone == req.phone
      && (db'.users == db.users || db'.users == db.users + [NewUser(req)])
  {
    CreateCommits(db, req);
    var c := Register(db.users, req);
    RegisterFindsPhone(db.users, req);
    CommitDebitsStock(db.(users := c.users), req, c.userId);
  }

  /** The writes of an accepted order take from each stock-managed product the total
      quantity its lines ask and keep the set of products. */
  lemma CommitDebitsStock(db: Db, req: OrderRequest, userId: nat)
    ensures var products := Commit(db, req, userId).products;
      && products.Keys == db.products.Keys
      && forall id :: id in db.products ==>
           products[id] == db.products[id].(stock := db.products[id].stock
             - (if db.products[id].manageStock then LineQuantity(req.lines, id) else 0))
  {
    var products := AdjustStock(db.products, Debits(req.lines));
    forall id | id in db.products
      ensures products[id] == db.products[id].(stock := db.products[id].stock
                - (if db.products[id].manageStock then LineQuantity(req.lines, id) else 0))
    {
      DebitsNet(req.lines, id);
      AdjustStockPointwise(db.products, Debits(req.lines), id);
    }
  }

  /** The customer an order is filed under has the request's phone, and is either an
      existing row or one new row at the end. */
  lemma RegisterFindsPhone(users: seq<User>, req: OrderRequest)
    requires FindUser(users, req.phone).Some? || req.name != ""
    ensures var c := Register(users, req);
      && 1 <= c.userId <= |c.users| && c.users[c.userId - 1].phone == req.phone
      && (c.users == users || c.users == users + [NewUser(req)])
  {
  }

  /** With distinct product ids in the request, a successful creation leaves every
      stock-managed product at a non-negative stock if it was there before. */
  lemma DistinctLinesKeepStockNonNegative(db: Db, req: OrderRequest)
    requires CreateOrder(db, req).1.Created?
    requires forall i, j :: 0 <= i < j < |req.lines| ==> req.lines[i].productId != req.lines[j].productId
    requires forall id :: id in db.products && db.products[id].manageStock ==> db.products[id].stock >= 0
    ensures var db' := CreateOrder(db, req).0;
      forall id :: id in db'.products && db'.products[id].manageStock ==> db'.products[id].stock >= 0
  {
    var db' := CreateOrder(db, req).0;
    CreateSucceededEffect(db, req);
    forall id | id in db'.products && db'.products[id].manageStock
      ensures db'.products[id].stock >= 0
    {
      LineQuantityOfDistinct(req.lines, id);
      if exists k :: 0 <= k < |req.lines| && req.lines[k].productId == id {
        var k :| 0 <= k < |req.lines| && req.lines[k].productId == id;
        assert LineError(db.products, req.lines[k]).None?;
      }
    }
  }

  /** Each line is checked against the stock before the order, so two lines for the same
      product can together overdraw it: stock 2 and two lines of 2 end at -2. */
  lemma DuplicateLinesOverdrawStock()
    ensures var db := Db([User("An", "0901234567", "customer")], map[1 := Product("Cake", true, 2)],
                         [], [], [], 0);
            var line := LineRequest(1, "Cake", 2, 20000, 0);
            var req := OrderRequest("0901234567", "", "", 80000, "cash", Paid, "", [line, line]);
            CreateOrder(db, req).1.Created? && CreateOrder(db, req).0.products[1].stock == -2
  {
    var db := Db([User("An", "0901234567", "customer")], map[1 := Product("Cake", true, 2)],
                 [], [], [], 0);
    var line := LineRequest(1, "Cake", 2, 20000, 0);
    var req := OrderRequest("0901234567", "", "", 80000, "cash", Paid, "", [line, line]);
    assert FindUser(db.users, req.phone) == Some(0);
    assert LineError(db.products, line).None?;
    assert StockCheck(db.products, req.lines).None?;
    DebitsNet(req.lines, 1);
    AdjustStockPointwise(db.products, Debits(req.lines), 1);
    assert [line, line][..1] == [line];
    assert [line][..0] == [];
    assert LineQuantity([line], 1) == 2;
    assert LineQuantity([line, line], 1) == 4;
  }

  // ---------------------------------------------------------------------------
  // PUT /orders/:id/cancel
  // ---------------------------------------------------------------------------

  /** Cancelling fails exactly for a missing order or one not exactly pending; the error
      names the status, and the database is left as it was. */
  lemma CancelFailsIff(db: Db, id: nat)
    ensures var (db', r) := CancelOrder(db, id);
      && (r.CancelFailed? <==> !HasOrder(db.orders, id) || db.orders[id - 1].status != Pending)
      && (r.CancelFailed? ==> db' == db)
      && (!HasOrder(db.orders, id) ==> r == CancelFailed(OrderNotFound))
      && (HasOrder(db.orders, id) && db.orders[id - 1].status != Pending ==>
            r == CancelFailed(NotPending(db.orders[id - 1].status)))
  {
  }

  /** A successful cancel sets that order to cancelled and gives each stock-managed
      product back the quantity the order's rows hold; nothing else changes. */
  lemma CancelSucceededEffect(db: Db, id: nat)
    requires CancelOrder(db, id).1.CancelOk?
    ensures var db' := CancelOrder(db, id).0;
      && HasOrder(db.orders, id) && db.orders[id - 1].status == Pending
      && |db'.orders| == |db.orders|
      && db'.orders[id - 1] == db.orders[id - 1].(status := Cancelled)
      && (forall i :: 0 <= i < |db.orders| && i != id - 1 ==> db'.orders[i] == db.orders[i])
      && db'.products.Keys == db.products.Keys
      && (forall p :: p in db.products ==>
            db'.products[p] == db.products[p].(stock := db.products[p].stock
              + (if db.products[p].manageStock then OrderedQuantity(db.details, id, p) else 0)))
      && db'.users == db.users && db'.details == db.details
      && db'.transactions == db.transactions && db'.clock == db.clock
  {
    var products := AdjustStock(db.products, Credits(db.details, id));
    assert CancelOrder(db, id).0.products == products;
    forall p | p in db.products
      ensures products[p] == db.products[p].(stock := db.products[p].stock
                + (if db.products[p].manageStock then OrderedQuantity(db.details, id, p) else 0))
    {
      CreditsNet(db.details, id, p);
      AdjustStockPointwise(db.products, Credits(db.details, id), p);
    }
  }

  /** The rows of one order add up to a non-negative quantity of a product when each of
      that order's rows is non-negative. */
  lemma {:induction false} OrderedQuantityNonNegative(details: seq<Detail>, orderId: nat, id: nat)
    requires forall k :: 0 <= k < |details| && details[k].orderId == orderId ==> details[k].quantity >= 0
    ensures OrderedQuantity(details, orderId, id) >= 0
    decreases |details|
  {
    if |details| > 0 {
      var init := details[..|details| - 1];
      assert forall k :: 0 <= k < |init| ==> init[k] == details[k];
      OrderedQuantityNonNegative(init, orderId, id);
    }
  }

  /** When every row of the cancelled order has a non-negative quantity, a successful
      cancel leaves every stock-managed product at a non-negative stock if it was there
      before. */
  lemma CancelKeepsStockNonNegative(db: Db, id: nat)
    requires CancelOrder(db, id).1.CancelOk?
    requires forall k :: 0 <= k < |db.details| && db.details[k].orderId == id ==> db.details[k].quantity >= 0
    requires forall p :: p in db.products && db.products[p].manageStock ==> db.products[p].stock >= 0
    ensures var db' := CancelOrder(db, id).0;
      forall p :: p in db'.products && db'.products[p].manageStock ==> db'.products[p].stock >= 0
  {
    var db' := CancelOrder(db, id).0;
    CancelSucceededEffect(db, id);
    forall p | p in db'.products && db'.products[p].manageStock
      ensures db'.products[p].stock >= 0
    {
      OrderedQuantityNonNegative(db.details, id, p);
    }
  }

  /** No line quantity is checked for its sign, so a negative line raises the stock at
      creation and lowers it at cancellation: from stock 0, an order of -5 (stock 5), an
      order of 5 (stock 0) and cancelling the first leave stock -5. */
  lemma NegativeLineLetsCancelOverdraw(db0: Db, req1: OrderRequest, req2: OrderRequest)
    requires db0 == Db([User("An", "0901234567", "customer")], map[1 := Product("Cake", true, 0)],
                       [], [], [], 0)
    requires req1 == OrderRequest("0901234567", "", "", -100000, "cash", Pending, "",
                                  [LineRequest(1, "Cake", -5, 20000, 0)])
    requires req2 == OrderRequest("0901234567", "", "", 100000, "cash", Paid, "",
                                  [LineRequest(1, "Cake", 5, 20000, 0)])
    ensures var (db1, r1) := CreateOrder(db0, req1);
            var (db2, r2) := CreateOrder(db1, req2);
            var (db3, c) := CancelOrder(db2, 1);
            && r1.Created? && db1.products[1].stock == 5
            && r2.Created? && db2.products[1].stock == 0
            && c == CancelOk(1) && db3.products[1].stock == -5
  {
    OneLineOrderStep(db0, req1);
    var db1 := CreateOrder(db0, req1).0;
    OneLineOrderStep(db1, req2);
    var db2 := CreateOrder(db1, req2).0;
    var rows := [Detail(1, 1, "Cake", -5, 20000, 0), Detail(2, 1, "Cake", 5, 20000, 0)];
    assert db2.details == rows;
    assert db2.orders[0].status == Pending;
    CancelSucceededEffect(db2, 1);
    assert rows[..1] == [rows[0]] && [rows[0]][..0] == [];
    assert OrderedQuantity(rows, 1, 1) == -5;
    assert CreateOrder(db0, req1).1.Created? && db1.products[1].stock == 5;
    assert CreateOrder(db1, req2).1.Created? && db2.products[1].stock == 0;
    assert CancelOrder(db2, 1).1 == CancelOk(1);
    assert CancelOrder(db2, 1).0.products[1].stock == -5;
  }

  /** An order of one line for product 1 by the first customer: accepted when the stock
      covers it, it takes the quantity from the stock and writes one detail row. */
  lemma OneLineOrderStep(db: Db, req: OrderRequest)
    requires |db.users| == 1 && db.users[0].phone == req.phone && req.phone != ""
    requires db.products.Keys == {1} && db.products[1].manageStock
    requires |req.lines| == 1 && req.lines[0].productId == 1
    requires db.products[1].stock >= req.lines[0].quantity
    ensures var (db', r) := CreateOrder(db, req);
      && r.Created? && r.orderId == |db.orders| + 1
      && db'.users == db.users
      && db'.products == map[1 := db.products[1].(stock := db.products[1].stock - req.lines[0].quantity)]
      && db'.orders == db.orders + [Order(1, req.total, req.paymentMethod, req.status, req.note, db.clock)]
      && db'.details == db.details + [Detail(|db.orders| + 1, 1, req.lines[0].productName,
                                             req.lines[0].quantity, req.lines[0].price,
                                             req.lines[0].discount)]
  {
    assert FindUser(db.users, req.phone) == Some(0);
    assert LineError(db.products, req.lines[0]).None?;
    assert req.lines[..0] == [];
    assert LineQuantity(req.lines, 1) == req.lines[0].quantity;
    CreateSucceededEffect(db, req);
  }

  /** Cancelling the same order twice: the second attempt fails naming `cancelled` and
      changes nothing. */
  lemma SecondCancelFails(db: Db, id: nat)
    requires CancelOrder(db, id).1.CancelOk?
    ensures var db' := CancelOrder(db, id).0;
      CancelOrder(db', id) == (db', CancelFailed(NotPending(Cancelled)))
  {
  }

  /** Crediting the rows written for an order undoes the debits of its lines. */
  lemma CreditsUndoDebits(products: map<nat, Product>, details: seq<Detail>, id: nat,
                          lines: seq<LineRequest>)
    requires forall k :: 0 <= k < |details| ==> details[k].orderId != id
    ensures AdjustStock(AdjustStock(products, Debits(lines)), Credits(details + DetailsOf(id, lines), id))
            == products
  {
    var debited := AdjustStock(products, Debits(lines));
    var restored := AdjustStock(debited, Credits(details + DetailsOf(id, lines), id));
    forall p | p in products
      ensures restored[p] == products[p]
    {
      DebitsNet(lines, p);
      CreditsNet(details + DetailsOf(id, lines), id, p);
      AdjustStockPointwise(products, Debits(lines), p);
      AdjustStockPointwise(debited, Credits(details + DetailsOf(id, lines), id), p);
      OrderedQuantityAppend(details, DetailsOf(id, lines), id, p);
      OrderedQuantityOfAbsentOrder(details, id, p);
      OrderedQuantityOfDetails(id, lines, p);
    }
  }

  /** Cancelling a pending order right after creating it gives every product its stock
      back: cancellation undoes creation's stock effect. */
  lemma CancelUndoesCreate(db: Db, req: OrderRequest)
    requires ValidDb(db)
    requires CreateOrder(db, req).1.Created? && req.status == Pending
    ensures var (db1, r) := CreateOrder(db, req);
      var (db2, c) := CancelOrder(db1, r.orderId);
      && c == CancelOk(r.orderId)
      && db2.products == db.products
      && db2.orders == db.orders + [Order(r.userId, req.total, req.paymentMethod, Cancelled,
                                          req.note, db.clock)]
  {
    CreateCommits(db, req);
    var c := Register(db.users, req);
    CancelUndoesCommit(db.(users := c.users), req, c.userId);
  }

  /** Cancelling the order a commit has just written restores the stock and leaves the
      order cancelled. */
  lemma CancelUndoesCommit(db: Db, req: OrderRequest, userId: nat)
    requires ValidDb(db) && req.status == Pending
    ensures var id := |db.orders| + 1;
      var (db2, c) := CancelOrder(Commit(db, req, userId), id);
      && c == CancelOk(id)
      && db2.products == db.products
      && db2.orders == db.orders + [Order(userId, req.total, req.paymentMethod, Cancelled,
                                          req.note, db.clock)]
  {
    var id := |db.orders| + 1;
    var db1 := Commit(db, req, userId);
    assert db1.orders[id - 1].status == Pending;
    assert db1.orders[id - 1 := db1.orders[id - 1].(status := Cancelled)]
           == db.orders + [Order(userId, req.total, req.paymentMethod, Cancelled, req.note, db.clock)];
    assert forall k :: 0 <= k < |db.details| ==> db.details[k].orderId != id;
    CreditsUndoDebits(db.products, db.details, id, req.lines);
  }

  /** An accepted order is the customer registration followed by the commit. */
  lemma CreateCommits(db: Db, req: OrderRequest)
    requires CreateOrder(db, req).1.Created?
    ensures FindUser(db.users, req.phone).Some? || req.name != ""
    ensures var c := Register(db.users, req);
      && CreateOrder(db, req).0 == Commit(db.(users := c.users), req, c.userId)
      && CreateOrder(db, req).1.orderId == |db.orders| + 1
      && CreateOrder(db, req).1.userId == c.userId
    ensures StockCheck(db.products, req.lines).None?
    ensures CreateOrder(db, req).1.updated == Snapshot(CreateOrder(db, req).0.products, req.lines)
  {
  }

  /** An order created as paid (the cash path) can never be cancelled. */
  lemma PaidOrderCannotBeCancelled(db: Db, req: OrderRequest)
    requires CreateOrder(db, req).1.Created? && req.status == Paid
    ensures var (db1, r) := CreateOrder(db, req);
      CancelOrder(db1, r.orderId) == (db1, CancelFailed(NotPending(Paid)))
  {
    CreateSucceededEffect(db, req);
  }

  // ---------------------------------------------------------------------------
  // POST /zalopay/create-order and POST /zalopay/callback
  // ---------------------------------------------------------------------------

  /** The wallet payment row is pending, quotes the order id inside its correlation id,
      and is written only when the provider answered. */
  lemma WalletPaymentRecordsPendingRow(db: Db, orderId: nat, datePrefix: string,
                                       provider: Option<string>, amount: int, description: string)
    requires IsDatePrefix(datePrefix)
    ensures var (db', r) := CreateWalletPayment(db, orderId, datePrefix, provider, amount, description);
      && (provider.None? <==> r == WalletProviderError)
      && (provider.None? ==> db' == db)
      && (provider.Some? ==>
            && OrderIdOf(r.appTransId) == Some(orderId)
            && db' == db.(transactions := db.transactions + [Transaction(orderId, r.appTransId,
                 provider, amount, description, TxPending, None, None)]))
  {
    AppTransIdEmbedsOrderId(datePrefix, orderId);
  }

  /** A callback whose payload does not parse, or whose mac is not the HMAC of `data`
      under key2, answers return_code -1 and changes nothing. */
  lemma CallbackRejectsBadMac(db: Db, key2: string, hmac: (string, string) -> string, data: string,
                              payload: Option<CallbackData>, mac: string)
    requires payload.None? || mac != hmac(key2, data)
    ensures var (db', r) := ZaloPayCallback(db, key2, hmac, data, payload, mac);
      db' == db && r.returnCode == -1
      && (payload.Some? ==> r == CallbackReply(400, -1, "Invalid MAC"))
  {
  }

  /** After settling, the successful transactions with the id are all those carrying it. */
  lemma SettledOrderIdsAfterSettle(txs: seq<Transaction>, a: string, zp: string, time: int)
    ensures forall id :: id in SettledOrderIds(Settle(txs, a, zp, time), a) <==>
      exists k :: 0 <= k < |txs| && txs[k].appTransId == a && txs[k].orderId == id
  {
    var s := Settle(txs, a, zp, time);
    forall id | exists k :: 0 <= k < |txs| && txs[k].appTransId == a && txs[k].orderId == id
      ensures id in SettledOrderIds(s, a)
    {
      var k :| 0 <= k < |txs| && txs[k].appTransId == a && txs[k].orderId == id;
      assert s[k].orderId == id;
    }
  }

  /** A valid callback settles every transaction carrying its app_trans_id (status,
      provider id and time) and marks every order linked to one of them paid, whatever
      that order's status was; nothing else changes, and the reply is return_code 1. */
  lemma CallbackSettlesAndPays(db: Db, key2: string, hmac: (string, string) -> string, data: string,
                               p: CallbackData)
    ensures var (db', r) := ZaloPayCallback(db, key2, hmac, data, Some(p), hmac(key2, data));
      && r == CallbackReply(200, 1, "OK")
      && |db'.transactions| == |db.transactions|
      && (forall k :: 0 <= k < |db.transactions| ==>
            db'.transactions[k] ==
              if db.transactions[k].appTransId == p.appTransId
              then db.transactions[k].(status := TxSuccess, zpTransId := Some(p.zpTransId),
                                       paymentTime := Some(p.serverTime))
              else db.transactions[k])
      && |db'.orders| == |db.orders|
      && (forall i :: 0 <= i < |db.orders| ==>
            db'.orders[i] ==
              if exists k :: 0 <= k < |db.transactions| && db.transactions[k].appTransId == p.appTransId
                             && db.transactions[k].orderId == i + 1
              then db.orders[i].(status := Paid)
              else db.orders[i])
      && db'.users == db.users && db'.products == db.products
      && db'.details == db.details && db'.clock == db.clock
  {
    SettledOrderIdsAfterSettle(db.transactions, p.appTransId, p.zpTransId, p.serverTime);
  }

  /** There is no pending guard: a valid callback turns a cancelled order paid. */
  lemma CallbackPaysCancelledOrder(db: Db, key2: string, hmac: (string, string) -> string,
                                   data: string, p: CallbackData, k: nat)
    requires k < |db.transactions| && db.transactions[k].appTransId == p.appTransId
    requires HasOrder(db.orders, db.transactions[k].orderId)
    requires db.orders[db.transactions[k].orderId - 1].status == Cancelled
    ensures var db' := ZaloPayCallback(db, key2, hmac, data, Some(p), hmac(key2, data)).0;
      db'.orders[db.transactions[k].orderId - 1].status == Paid
  {
    CallbackSettlesAndPays(db, key2, hmac, data, p);
  }

  /** Delivering the same valid callback twice leaves the state of one delivery, and both
      deliveries answer return_code 1. */
  lemma CallbackIdempotent(db: Db, key2: string, hmac: (string, string) -> string, data: string,
                           p: CallbackData)
    ensures var mac := hmac(key2, data);
      var (db1, r1) := ZaloPayCallback(db, key2, hmac, data, Some(p), mac);
      var (db2, r2) := ZaloPayCallback(db1, key2, hmac, data, Some(p), mac);
      db2 == db1 && r1 == r2 && r2.returnCode == 1
  {
    var a := p.appTransId;
    var t1 := Settle(db.transactions, a, p.zpTransId, p.serverTime);
    var t2 := Settle(t1, a, p.zpTransId, p.serverTime);
    assert t2 == t1;
    var ids := SettledOrderIds(t1, a);
    var o1 := MarkPaid(db.orders, ids);
    assert MarkPaid(o1, ids) == o1;
  }

  /** The wallet flow end to end: a created order, its pending wallet row, and the
      provider's valid callback for that row leave the order paid. */
  lemma WalletFlowPaysOrder(db: Db, req: OrderRequest, datePrefix: string, token: string,
                            description: string, key2: string, hmac: (string, string) -> string,
                            data: string, p: CallbackData)
    requires CreateOrder(db, req).1.Created?
    requires var (db1, r) := CreateOrder(db, req);
      p.appTransId == AppTransId(datePrefix, r.orderId)
    ensures var (db1, r) := CreateOrder(db, req);
      var (db2, w) := CreateWalletPayment(db1, r.orderId, datePrefix, Some(token), req.total, description);
      var (db3, c) := ZaloPayCallback(db2, key2, hmac, data, Some(p), hmac(key2, data));
      w == WalletOrderCreated(p.appTransId) && c.returnCode == 1
      && HasOrder(db3.orders, r.orderId) && db3.orders[r.orderId - 1].status == Paid
  {
    var (db1, r) := CreateOrder(db, req);
    CreateSucceededEffect(db, req);
    var (db2, w) := CreateWalletPayment(db1, r.orderId, datePrefix, Some(token), req.total, description);
    var k := |db2.transactions| - 1;
    assert db2.transactions[k].appTransId == p.appTransId && db2.transactions[k].orderId == r.orderId;
    CallbackSettlesAndPays(db2, key2, hmac, data, p);
  }

  // ---------------------------------------------------------------------------
  // POST /webhook/payhook
  // ---------------------------------------------------------------------------

  /** The webhook answers 400 and changes nothing exactly when the event is not
      `transaction.detected` or the transaction id or amount is missing. */
  lemma PayhookBadRequestIff(db: Db, req: PayhookRequest, now: int, ledgerWritten: bool)
    ensures var (db', r) := Payhook(db, req, now, ledgerWritten);
      && (r.PayhookBadRequest? <==>
            req.event != "transaction.detected" || req.transaction.None?
            || req.transaction.value.transactionId == "" || req.transaction.value.amountVND == 0)
      && (r.PayhookBadRequest? ==> db' == db)
  {
  }

  /** With no pending `cake` order within the tolerance of the amount, the webhook answers
      success false and changes nothing; otherwise it confirms an order. */
  lemma PayhookNoMatchIff(db: Db, tx: PayhookTx, now: int, ledgerWritten: bool)
    requires tx.transactionId != "" && tx.amountVND != 0
    ensures var (db', r) := Payhook(db, PayhookRequest("transaction.detected", Some(tx)), now, ledgerWritten);
      && (r.PayhookNoMatch? <==> forall i :: 0 <= i < |db.orders| ==> !MatchesPayment(db.orders[i], tx.amountVND))
      && (r.PayhookNoMatch? ==> db' == db && r == PayhookNoMatch(tx.transactionId, tx.amountVND))
      && (!r.PayhookNoMatch? ==> r.PayhookConfirmed?)
  {
  }

  /** A confirmation marks exactly one order paid: a matching pending `cake` order whose
      `created_at` is the latest among the matches. The ledger row, carrying the bank transaction id, the amount,
      the cake description and the time, is appended only if its insert succeeded, and the
      reply does not depend on that. */
  lemma PayhookConfirmsLatestMatch(db: Db, req: PayhookRequest, now: int, ledgerWritten: bool)
    requires Payhook(db, req, now, ledgerWritten).1.PayhookConfirmed?
    ensures var (db', r) := Payhook(db, req, now, ledgerWritten);
      var amount := req.transaction.value.amountVND;
      && HasOrder(db.orders, r.orderId) && MatchesPayment(db.orders[r.orderId - 1], amount)
      && (forall i :: 0 <= i < |db.orders| && MatchesPayment(db.orders[i], amount) ==>
            db.orders[i].createdAt <= db.orders[r.orderId - 1].createdAt)
      && |db'.orders| == |db.orders|
      && db'.orders[r.orderId - 1] == db.orders[r.orderId - 1].(status := Paid)
      && (forall i :: 0 <= i < |db.orders| && i != r.orderId - 1 ==> db'.orders[i] == db.orders[i])
      && db'.users == db.users && db'.products == db.products && db'.details == db.details
      && db'.clock == db.clock
      && (ledgerWritten ==>
            && |db'.transactions| == |db.transactions| + 1
            && db'.transactions[..|db.transactions|] == db.transactions
            && db'.transactions[|db.transactions|].orderId == r.orderId
            && db'.transactions[|db.transactions|].appTransId == req.transaction.value.transactionId
            && db'.transactions[|db.transactions|].amount == amount
            && db'.transactions[|db.transactions|].description == CakeDescription(req.transaction.value)
            && db'.transactions[|db.transactions|].status == TxSuccess
            && db'.transactions[|db.transactions|].paymentTime == Some(now))
      && (!ledgerWritten ==> db'.transactions == db.transactions)
      && Payhook(db, req, now, !ledgerWritten).1 == r
  {
    var db' := Payhook(db, req, now, ledgerWritten).0;
    if ledgerWritten {
      assert db'.transactions[..|db.transactions|] == db.transactions;
    }
  }

  /** In a valid database the order the webhook picks is the only matching order with the
      latest `created_at`. */
  lemma PayhookChoiceIsUnique(db: Db, req: PayhookRequest, now: int, ledgerWritten: bool, id: nat)
    requires ValidDb(db)
    requires Payhook(db, req, now, ledgerWritten).1.PayhookConfirmed?
    requires var amount := req.transaction.value.amountVND;
      HasOrder(db.orders, id) && MatchesPayment(db.orders[id - 1], amount)
      && forall i :: 0 <= i < |db.orders| && MatchesPayment(db.orders[i], amount) ==>
           db.orders[i].createdAt <= db.orders[id - 1].createdAt
    ensures Payhook(db, req, now, ledgerWritten).1.orderId == id
  {
    PayhookConfirmsLatestMatch(db, req, now, ledgerWritten);
  }

  // ---------------------------------------------------------------------------
  // The invariant
  // ---------------------------------------------------------------------------

  /** Appending an order stamped with the clock, and detail rows that all belong to it,
      keeps the invariant. */
  lemma AppendOrderKeepsValid(db: Db, db': Db, o: Order, ds: seq<Detail>)
    requires ValidDb(db)
    requires db'.orders == db.orders + [o] && o.createdAt == db.clock && db'.clock == db.clock + 1
    requires db'.details == db.details + ds
    requires forall k :: 0 <= k < |ds| ==> ds[k].orderId == |db.orders| + 1
    ensures ValidDb(db')
  {
    var n := |db.orders|;
    assert forall i :: 0 <= i < n ==> db'.orders[i] == db.orders[i];
    forall k | 0 <= k < |db'.details|
      ensures HasOrder(db'.orders, db'.details[k].orderId)
    {
      if k >= |db.details| {
        assert db'.details[k] == ds[k - |db.details|];
      } else {
        assert db'.details[k] == db.details[k];
      }
    }
  }

  lemma CreatePreservesValid(db: Db, req: OrderRequest)
    requires ValidDb(db)
    ensures ValidDb(CreateOrder(db, req).0)
  {
    if CreateOrder(db, req).1.Created? {
      var c := Register(db.users, req);
      var db' := Commit(db.(users := c.users), req, c.userId);
      assert CreateOrder(db, req).0 == db';
      var ds := DetailsOf(|db.orders| + 1, req.lines);
      assert forall k :: 0 <= k < |ds| ==> ds[k].orderId == |db.orders| + 1;
      AppendOrderKeepsValid(db, db', Order(c.userId, req.total, req.paymentMethod, req.status,
                                           req.note, db.clock), ds);
    }
  }

  lemma CancelPreservesValid(db: Db, id: nat)
    requires ValidDb(db)
    ensures ValidDb(CancelOrder(db, id).0)
  {
  }

  lemma WalletPaymentPreservesValid(db: Db, orderId: nat, datePrefix: string,
                                    provider: Option<string>, amount: int, description: string)
    requires ValidDb(db)
    ensures ValidDb(CreateWalletPayment(db, orderId, datePrefix, provider, amount, description).0)
  {
  }

  lemma CallbackPreservesValid(db: Db, key2: string, hmac: (string, string) -> string, data: string,
                               payload: Option<CallbackData>, mac: string)
    requires ValidDb(db)
    ensures ValidDb(ZaloPayCallback(db, key2, hmac, data, payload, mac).0)
  {
  }

  lemma PayhookPreservesValid(db: Db, req: PayhookRequest, now: int, ledgerWritten: bool)
    requires ValidDb(db)
    ensures ValidDb(Payhook(db, req, now, ledgerWritten).0)
  {
    var db' := Payhook(db, req, now, ledgerWritten).0;
    assert db'.clock == db.clock && db'.details == db.details && |db'.orders| == |db.orders|;
    assert forall k :: 0 <= k < |db.orders| ==> db'.orders[k].createdAt == db.orders[k].createdAt;
    SameTimesKeepValid(db, db');
  }

  /** Validity only looks at the orders' `created_at`, their number, the clock and the
      detail rows. */
  lemma SameTimesKeepValid(db: Db, db': Db)
    requires ValidDb(db)
    requires db'.clock == db.clock && db'.details == db.details && |db'.orders| == |db.orders|
    requires forall k :: 0 <= k < |db.orders| ==> db'.orders[k].createdAt == db.orders[k].createdAt
    ensures ValidDb(db')
  {
  }
}
