/**
 * The cashier's cart of frontend/src/components/OrderSummary.jsx: lines keyed by
 * product id, merged on add with a stock check, updated and removed by id; the
 * phone field's input filter; and the checks `handlePlaceOrder` runs before it
 * sends the order to `POST /orders`.
 */
module Cart {
  import opened Wrappers
  import opened AppTransIds
  import opened OrderStore

  /** A cart line, as the product card emits it. */
  datatype CartItem = CartItem(id: nat, name: string, price: int, discount: int, quantity: int,
                               manageStock: bool, stock: int)

  // ---------------------------------------------------------------------------
  // Cart lines
  // ---------------------------------------------------------------------------

  /** `prevItems.find((i) => i.id === id)`: the first line with this id. */
  function Find(items: seq<CartItem>, id: nat): (r: Option<nat>)
    ensures r.Some? ==> r.value < |items| && items[r.value].id == id
    ensures r.Some? ==> forall j :: 0 <= j < r.value ==> items[j].id != id
    ensures r.None? ==> forall j :: 0 <= j < |items| ==> items[j].id != id
  {
    if |items| == 0 then None
    else if items[0].id == id then Some(0)
    else match Find(items[1..], id)
      case None => None
      case Some(k) => Some(k + 1)
  }

  /** Line j is the first with this id. */
  predicate FirstWithId(items: seq<CartItem>, j: nat, id: nat)
    requires j < |items|
  {
    items[j].id == id && forall k :: 0 <= k < j ==> items[k].id != id
  }

  /** The line `find` returns is the first line with the id. */
  lemma FindIsFirst(items: seq<CartItem>, id: nat)
    ensures forall j :: 0 <= j < |items| && FirstWithId(items, j, id) ==> Find(items, id) == Some(j)
  {
    forall j | 0 <= j < |items| && FirstWithId(items, j, id)
      ensures Find(items, id) == Some(j)
    {
      var r := Find(items, id);
      assert r.Some?;
    }
  }

  predicate UniqueIds(items: seq<CartItem>) {
    forall i, j :: 0 <= i < j < |items| ==> items[i].id != items[j].id
  }

  /** `prevItems.map(...)` adding `added` to the quantity of every line with this id. */
  function AddQuantity(items: seq<CartItem>, id: nat, added: int): seq<CartItem> {
    seq(|items|, i requires 0 <= i < |items| =>
      if items[i].id == id then items[i].(quantity := items[i].quantity + added) else items[i])
  }

  /** `prevItems.map(...)` setting the quantity of every line with this id. */
  function SetQuantity(items: seq<CartItem>, id: nat, quantity: int): seq<CartItem> {
    seq(|items|, i requires 0 <= i < |items| =>
      if items[i].id == id then items[i].(quantity := quantity) else items[i])
  }

  /** The refusal of the add handler: the product's stock is managed and the line would
      exceed the stock the card reported. */
  predicate OverStock(existing: CartItem, item: CartItem) {
    item.manageStock && existing.quantity + item.quantity > item.stock
  }

  /** The `addToOrder` handler: a new id is appended as emitted; an id already in the cart
      has its quantity increased, unless that would exceed the managed stock, in which
      case the cart is left as it was. */
  function AddToOrder(items: seq<CartItem>, item: CartItem): (r: seq<CartItem>)
    ensures (forall j :: 0 <= j < |items| ==> items[j].id != item.id) ==> r == items + [item]
    ensures forall j :: 0 <= j < |items| && FirstWithId(items, j, item.id) && OverStock(items[j], item)
                        ==> r == items
  {
    FindIsFirst(items, item.id);
    match Find(items, item.id)
    case None => items + [item]
    case Some(i) =>
      if OverStock(items[i], item) then items else AddQuantity(items, item.id, item.quantity)
  }

  /** `prevItems.filter((item) => item.id !== itemId)`. */
  function RemoveItem(items: seq<CartItem>, id: nat): (r: seq<CartItem>)
    ensures |r| <= |items|
    ensures forall k :: 0 <= k < |r| ==> r[k].id != id
    ensures (forall j :: 0 <= j < |items| ==> items[j].id != id) ==> r == items
  {
    if |items| == 0 then []
    else (if items[0].id == id then [] else [items[0]]) + RemoveItem(items[1..], id)
  }

  /** `handleUpdateQuantity`: a quantity of zero or less removes the line. */
  function UpdateQuantity(items: seq<CartItem>, id: nat, quantity: int): seq<CartItem> {
    if quantity <= 0 then RemoveItem(items, id) else SetQuantity(items, id, quantity)
  }

  // ---------------------------------------------------------------------------
  // Lemmas about the cart
  // ---------------------------------------------------------------------------

  lemma FindUnique(items: seq<CartItem>, i: nat)
    requires UniqueIds(items) && i < |items|
    ensures Find(items, items[i].id) == Some(i)
  {
  }

  /** Adding to a line already in the cart increases that line's quantity by the added
      quantity and changes nothing else. */
  lemma AddMerges(items: seq<CartItem>, item: CartItem, i: nat)
    requires UniqueIds(items) && i < |items| && items[i].id == item.id
    requires !OverStock(items[i], item)
    ensures AddToOrder(items, item) == items[i := items[i].(quantity := items[i].quantity + item.quantity)]
  {
    FindUnique(items, i);
    var r := AddToOrder(items, item);
    assert r == AddQuantity(items, item.id, item.quantity);
    forall j | 0 <= j < |items| && j != i
      ensures r[j] == items[j]
    {
      assert items[j].id != items[i].id;
    }
  }

  /** Product ids stay unique under add. */
  lemma AddKeepsUnique(items: seq<CartItem>, item: CartItem)
    requires UniqueIds(items)
    ensures UniqueIds(AddToOrder(items, item))
  {
    var r := AddToOrder(items, item);
    match Find(items, item.id)
    case None =>
      assert r == items + [item];
    case Some(i) =>
      forall j | 0 <= j < |r|
        ensures r[j].id == items[j].id
      {
      }
  }

  /** Removing an id from a cart with unique ids takes out exactly its line and keeps the
      others in order. */
  lemma {:induction false} RemoveAt(items: seq<CartItem>, i: nat)
    requires UniqueIds(items) && i < |items|
    ensures RemoveItem(items, items[i].id) == items[..i] + items[i + 1..]
    decreases |items|
  {
    var id := items[i].id;
    if i == 0 {
      assert RemoveItem(items[1..], id) == items[1..];
    } else {
      var tail := items[1..];
      assert tail[i - 1] == items[i];
      RemoveAt(tail, i - 1);
      assert items[0].id != id;
      assert RemoveItem(items, id) == [items[0]] + (tail[..i - 1] + tail[i..]);
      assert items[..i] == [items[0]] + tail[..i - 1];
      assert items[i + 1..] == tail[i..];
    }
  }

  lemma DeleteKeepsUnique(items: seq<CartItem>, i: nat)
    requires UniqueIds(items) && i < |items|
    ensures UniqueIds(items[..i] + items[i + 1..])
  {
    var r := items[..i] + items[i + 1..];
    forall a, b | 0 <= a < b < |r|
      ensures r[a].id != r[b].id
    {
      var a' := if a < i then a else a + 1;
      var b' := if b < i then b else b + 1;
      assert r[a] == items[a'] && r[b] == items[b'];
    }
  }

  /** Removing an id that is not in the cart leaves it as it was; otherwise see RemoveAt. */
  lemma RemoveKeepsUnique(items: seq<CartItem>, id: nat)
    requires UniqueIds(items)
    ensures UniqueIds(RemoveItem(items, id))
  {
    match Find(items, id)
    case None =>
    case Some(i) =>
      RemoveAt(items, i);
      DeleteKeepsUnique(items, i);
  }

  /** A quantity of zero or less removes the line, keeping the others in order; any other
      quantity is set on that line only. */
  lemma UpdateQuantityEffect(items: seq<CartItem>, i: nat, quantity: int)
    requires UniqueIds(items) && i < |items|
    ensures quantity <= 0 ==> UpdateQuantity(items, items[i].id, quantity) == items[..i] + items[i + 1..]
    ensures quantity > 0 ==> UpdateQuantity(items, items[i].id, quantity) == items[i := items[i].(quantity := quantity)]
  {
    if quantity <= 0 {
      RemoveAt(items, i);
    } else {
      var r := UpdateQuantity(items, items[i].id, quantity);
      forall j | 0 <= j < |items| && j != i
        ensures r[j] == items[j]
      {
        assert items[j].id != items[i].id;
      }
    }
  }

  /** Product ids stay unique under update. */
  lemma UpdateKeepsUnique(items: seq<CartItem>, id: nat, quantity: int)
    requires UniqueIds(items)
    ensures UniqueIds(UpdateQuantity(items, id, quantity))
  {
    if quantity <= 0 {
      RemoveKeepsUnique(items, id);
    } else {
      var r := UpdateQuantity(items, id, quantity);
      forall j | 0 <= j < |r|
        ensures r[j].id == items[j].id
      {
      }
    }
  }

  // ---------------------------------------------------------------------------
  // The phone field
  // ---------------------------------------------------------------------------

  /** `value.replace(/\D/g, '')`: the ASCII digits of the text, in order. */
  function StripNonDigits(s: string): (r: string)
    ensures AllDigits(r) && |r| <= |s|
  {
    if |s| == 0 then ""
    else (if IsDigit(s[0]) then [s[0]] else "") + StripNonDigits(s[1..])
  }

  /** What the field may hold: at most ten digits, starting with '0' unless empty. */
  predicate PhoneField(p: string) {
    AllDigits(p) && |p| <= 10 && (p == "" || p[0] == '0')
  }

  /** The field's `onChange`: the typed text's digits replace the field when they form a
      valid field; otherwise the keystroke is ignored (None). */
  function FilterPhone(typed: string): (r: Option<string>)
    ensures r.Some? <==> PhoneField(StripNonDigits(typed))
    ensures r.Some? ==> r.value == StripNonDigits(typed)
  {
    var value := StripNonDigits(typed);
    if |value| <= 10 && (value == "" || value[0] == '0') then Some(value) else None
  }

  /** Text that is already digits passes through the filter unchanged. */
  lemma {:induction false} StripKeepsDigits(s: string)
    requires AllDigits(s)
    ensures StripNonDigits(s) == s
  {
    if |s| > 0 {
      StripKeepsDigits(s[1..]);
      assert [s[0]] + s[1..] == s;
    }
  }

  /** Stripping works character by character: the digits of a concatenation are the
      digits of each part, one after the other. */
  lemma {:induction false} StripDistributes(a: string, b: string)
    ensures StripNonDigits(a + b) == StripNonDigits(a) + StripNonDigits(b)
    decreases |a|
  {
    if |a| == 0 {
      assert a + b == b;
    } else {
      var x := if IsDigit(a[0]) then [a[0]] else "";
      assert (a + b)[0] == a[0] && (a + b)[1..] == a[1..] + b;
      assert StripNonDigits(a + b) == x + StripNonDigits(a[1..] + b);
      StripDistributes(a[1..], b);
      assert x + (StripNonDigits(a[1..]) + StripNonDigits(b))
          == (x + StripNonDigits(a[1..])) + StripNonDigits(b);
    }
  }

  /** A single character survives exactly when it is a digit. */
  lemma StripOne(c: char)
    ensures StripNonDigits([c]) == if IsDigit(c) then [c] else ""
  {
    assert [c][1..] == "";
  }

  /** Stripping twice is stripping once. */
  lemma StripIdempotent(s: string)
    ensures StripNonDigits(StripNonDigits(s)) == StripNonDigits(s)
  {
    StripKeepsDigits(StripNonDigits(s));
  }

  /** Re-entering what the field holds is accepted and changes nothing. */
  lemma PhoneFieldIsFixpoint(p: string)
    requires PhoneField(p)
    ensures FilterPhone(p) == Some(p)
  {
    StripKeepsDigits(p);
  }

  // ---------------------------------------------------------------------------
  // Placing the order
  // ---------------------------------------------------------------------------

  datatype PlaceError = PhoneRequired | CustomerNameRequired

  datatype Placement = Refused(error: PlaceError) | Send(request: OrderRequest)

  /** The status sent with the order: pending for a wallet payment, paid otherwise. */
  function StatusFor(paymentMethod: string): (s: PaymentStatus)
    ensures s == Pending <==> paymentMethod == "zalopay"
    ensures s != Cancelled
  {
    if paymentMethod == "zalopay" then Pending else Paid
  }

  /** The `products` array of the request body. */
  function LinesOf(items: seq<CartItem>): (r: seq<LineRequest>)
    ensures |r| == |items|
    ensures forall k :: 0 <= k < |items| ==>
      && r[k].productId == items[k].id && r[k].quantity == items[k].quantity
      && r[k].productName == items[k].name && r[k].price == items[k].price
      && r[k].discount == items[k].discount
  {
    seq(|items|, k requires 0 <= k < |items| =>
      LineRequest(items[k].id, items[k].name, items[k].quantity, items[k].price, items[k].discount))
  }

  /** `handlePlaceOrder` up to the request it sends: it needs a phone, and a name when the
      phone lookup marked the customer as new. The cart itself is not checked. The
      subtotal is computed in floating point and is taken here as `total`. */
  function PlaceOrder(items: seq<CartItem>, phone: string, name: string, isNewCustomer: bool,
                      paymentMethod: string, note: string, total: int): (r: Placement)
    ensures r.Refused? <==> phone == "" || (isNewCustomer && name == "")
    ensures r.Refused? ==> r.error == (if phone == "" then PhoneRequired else CustomerNameRequired)
    ensures r.Send? ==> r.request.phone == phone && r.request.name == name
                        && r.request.paymentMethod == paymentMethod
                        && r.request.role == "customer" && r.request.total == total
                        && r.request.note == note
                        && (r.request.status == Pending <==> paymentMethod == "zalopay")
                        && r.request.lines == LinesOf(items)
  {
    if phone == "" then Refused(PhoneRequired)
    else if isNewCustomer && name == "" then Refused(CustomerNameRequired)
    else Send(OrderRequest(phone, name, "customer", total, paymentMethod, StatusFor(paymentMethod),
                           note, LinesOf(items)))
  }

  /** The "create order" button is disabled for an empty cart, a missing phone, a new
      customer without a name, or while a payment QR is being fetched. */
  predicate PlaceOrderDisabled(items: seq<CartItem>, phone: string, name: string, isNewCustomer: bool,
                               isLoadingQR: bool) {
    |items| == 0 || phone == "" || (isNewCustomer && name == "") || isLoadingQR
  }

  /** A click on the enabled button always sends a request, and the server never answers
      it with the missing-information error: the button covers every check of
      `handlePlaceOrder` and the server's empty-cart check. */
  lemma EnabledButtonSends(db: Db, items: seq<CartItem>, phone: string, name: string,
                           isNewCustomer: bool, isLoadingQR: bool, paymentMethod: string,
                           note: string, total: int)
    requires !PlaceOrderDisabled(items, phone, name, isNewCustomer, isLoadingQR)
    ensures var r := PlaceOrder(items, phone, name, isNewCustomer, paymentMethod, note, total);
      && r.Send? && |r.request.lines| == |items| > 0
      && CreateOrder(db, r.request).1 != Rejected(MissingOrderInfo)
  {
    ServerNameCheck(db, items, phone, name, isNewCustomer, paymentMethod, note, total);
  }

  /** An order the cashier sends is never refused by the server for a missing phone, and is
      refused for a missing name exactly when the phone is unknown and no name was typed:
      the client only asks for a name when its lookup marked the customer as new. */
  lemma ServerNameCheck(db: Db, items: seq<CartItem>, phone: string, name: string, isNewCustomer: bool,
                        paymentMethod: string, note: string, total: int)
    requires |items| > 0
    requires PlaceOrder(items, phone, name, isNewCustomer, paymentMethod, note, total).Send?
    ensures var req := PlaceOrder(items, phone, name, isNewCustomer, paymentMethod, note, total).request;
      && CreateOrder(db, req).1 != Rejected(MissingOrderInfo)
      && (CreateOrder(db, req).1 == Rejected(NameRequired) <==> FindUser(db.users, phone).None? && name == "")
  {
  }

  /** `handlePlaceOrder` itself lets an empty cart through, and the server refuses it and
      changes nothing; the button that calls it is disabled for an empty cart
      (`PlaceOrderDisabled`). */
  lemma EmptyCartRefusedByServer(db: Db, phone: string, name: string, isNewCustomer: bool,
                                 paymentMethod: string, note: string, total: int)
    requires PlaceOrder([], phone, name, isNewCustomer, paymentMethod, note, total).Send?
    ensures var req := PlaceOrder([], phone, name, isNewCustomer, paymentMethod, note, total).request;
      CreateOrder(db, req) == (db, Rejected(MissingOrderInfo))
  {
  }
}
