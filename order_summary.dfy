/**
 * The state of the `OrderSummary` component (frontend/src/components/OrderSummary.jsx)
 * and its event handlers, over the cart operations of module Cart.
 */
module OrderSummaries {
  import opened Wrappers
  import Cart
  import opened OrderStore

  /** The state `OrderSummary` keeps between events. The subtotal, the QR code, the
      polling and the toasts are not part of it here. */
  class OrderSummary {
    var orderItems: seq<Cart.CartItem>
    var paymentMethod: string
    var customerName: string
    var customerPhone: string
    var note: string
    var isNewCustomer: bool

    ghost predicate Valid()
      reads this
    {
      Cart.UniqueIds(orderItems) && Cart.PhoneField(customerPhone)
    }

    constructor()
      ensures Valid()
      ensures orderItems == [] && paymentMethod == "cash" && customerName == ""
      ensures customerPhone == "" && note == "" && !isNewCustomer
    {
      orderItems := [];
      paymentMethod := "cash";
      customerName := "";
      customerPhone := "";
      note := "";
      isNewCustomer := false;
    }

    method AddToOrder(item: Cart.CartItem)
      requires Valid()
      modifies this`orderItems
      ensures Valid()
      ensures orderItems == Cart.AddToOrder(old(orderItems), item)
    {
      Cart.AddKeepsUnique(orderItems, item);
      orderItems := Cart.AddToOrder(orderItems, item);
    }

    method RemoveItem(id: nat)
      requires Valid()
      modifies this`orderItems
      ensures Valid()
      ensures orderItems == Cart.RemoveItem(old(orderItems), id)
    {
      Cart.RemoveKeepsUnique(orderItems, id);
      orderItems := Cart.RemoveItem(orderItems, id);
    }

    /** A quantity of zero or less goes through `RemoveItem`. */
    method UpdateQuantity(id: nat, quantity: int)
      requires Valid()
      modifies this`orderItems
      ensures Valid()
      ensures orderItems == Cart.UpdateQuantity(old(orderItems), id, quantity)
    {
      if quantity <= 0 {
        RemoveItem(id);
        return;
      }
      Cart.UpdateKeepsUnique(orderItems, id, quantity);
      orderItems := Cart.SetQuantity(orderItems, id, quantity);
    }

    /** The phone field's `onChange` followed by `handlePhoneChange`. From seven digits the
        customer is looked up; `exactMatch` is the name of the customer whose phone is
        exactly the field, None when there is none or the lookup failed. */
    method TypePhone(typed: string, exactMatch: Option<string>)
      requires Valid()
      modifies this`customerPhone, this`customerName, this`isNewCustomer
      ensures Valid()
      ensures Cart.FilterPhone(typed).None? ==> unchanged(this)
      ensures Cart.FilterPhone(typed).Some? ==> customerPhone == Cart.FilterPhone(typed).value
      ensures Cart.FilterPhone(typed).Some? && |customerPhone| >= 7 ==>
        if exactMatch.Some? then customerName == exactMatch.value && !isNewCustomer
        else customerName == "" && isNewCustomer
      ensures Cart.FilterPhone(typed).Some? && |customerPhone| < 7 ==> customerName == "" && !isNewCustomer
    {
      var value := Cart.FilterPhone(typed);
      if value.None? {
        return;
      }
      customerPhone := value.value;
      if |customerPhone| >= 7 {
        if exactMatch.Some? {
          customerName := exactMatch.value;
          isNewCustomer := false;
        } else {
          customerName := "";
          isNewCustomer := true;
        }
      } else {
        customerName := "";
        isNewCustomer := false;
      }
    }

    /** `handleSelectCustomer`, when a suggested customer is clicked: the field takes the
        customer's phone and name, and the customer is no longer new. */
    method SelectCustomer(name: string, phone: string)
      requires Valid()
      modifies this`customerPhone, this`customerName, this`isNewCustomer
      ensures customerName == name && customerPhone == phone && !isNewCustomer
      ensures Cart.PhoneField(phone) ==> Valid()
    {
      customerName := name;
      customerPhone := phone;
      isNewCustomer := false;
    }

    method SetPaymentMethod(method_: string)
      modifies this`paymentMethod
      ensures paymentMethod == method_
    {
      paymentMethod := method_;
    }

    /** The checks of `handlePlaceOrder` and the request it sends. */
    method PlaceOrder(total: int) returns (r: Cart.Placement)
      ensures r == Cart.PlaceOrder(orderItems, customerPhone, customerName, isNewCustomer,
                                   paymentMethod, note, total)
    {
      if customerPhone == "" {
        return Cart.Refused(Cart.PhoneRequired);
      }
      if isNewCustomer && customerName == "" {
        return Cart.Refused(Cart.CustomerNameRequired);
      }
      r := Cart.Send(OrderRequest(customerPhone, customerName, "customer", total, paymentMethod,
                             Cart.StatusFor(paymentMethod), note, Cart.LinesOf(orderItems)));
    }

    /** `resetOrderState`, after a cash order was created or an order was cancelled. */
    method Reset()
      modifies this
      ensures Valid()
      ensures orderItems == [] && paymentMethod == "cash" && customerName == ""
      ensures customerPhone == "" && note == "" && !isNewCustomer
    {
      orderItems := [];
      customerName := "";
      customerPhone := "";
      note := "";
      isNewCustomer := false;
      paymentMethod := "cash";
    }
  }
}
