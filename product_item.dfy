/**
 * The product card of frontend/src/components/ProductItem.jsx: a quantity stepper
 * bounded by the stock the card shows, and the add button that emits a cart line.
 */
module ProductItems {
  import opened Wrappers
  import Cart

  /** The product as the card receives it. */
  datatype ProductInfo = ProductInfo(id: nat, name: string, price: int, discount: int,
                                     manageStock: bool, stock: int)

  /** The add button is disabled exactly when the stock is managed and none is left. */
  predicate AddDisabled(manageStock: bool, currentStock: int) {
    manageStock && currentStock == 0
  }

  class ProductItem {
    const product: ProductInfo
    var quantity: int
    var currentStock: int

    /** The stepper stays at one or more, and within the stock when the stock is
        managed. */
    ghost predicate Bounded()
      reads this
    {
      1 <= quantity && (product.manageStock ==> quantity <= currentStock)
    }

    constructor(product: ProductInfo)
      ensures this.product == product && quantity == 1 && currentStock == product.stock
      ensures product.stock >= 1 ==> Bounded()
    {
      this.product := product;
      quantity := 1;
      currentStock := product.stock;
    }

    /** `handleDecrease`: never below one. */
    method Decrease()
      modifies this`quantity
      ensures quantity == if old(quantity) > 1 then old(quantity) - 1 else old(quantity)
      ensures old(Bounded()) ==> Bounded()
    {
      if quantity > 1 {
        quantity := quantity - 1;
      }
    }

    /** `handleIncrease`: free for unmanaged products, up to the stock otherwise. */
    method Increase()
      modifies this`quantity
      ensures !product.manageStock || old(quantity) < currentStock ==> quantity == old(quantity) + 1
      ensures product.manageStock && old(quantity) >= currentStock ==> quantity == old(quantity)
      ensures old(Bounded()) ==> Bounded()
    {
      if !product.manageStock || quantity < currentStock {
        quantity := quantity + 1;
      }
    }

    /** `handleAddToOrder`: with managed stock and more than the stock selected nothing is
        emitted and the quantity stays; otherwise the line is emitted with the selected
        quantity and the shown stock, and the stepper goes back to one. */
    method AddToOrder() returns (emitted: Option<Cart.CartItem>)
      modifies this`quantity
      ensures product.manageStock && old(quantity) > currentStock ==>
        emitted.None? && quantity == old(quantity)
      ensures !(product.manageStock && old(quantity) > currentStock) ==>
        && emitted == Some(Cart.CartItem(product.id, product.name, product.price, product.discount,
                                         old(quantity), product.manageStock, currentStock))
        && quantity == 1
      ensures currentStock >= 1 && old(Bounded()) ==> Bounded()
      ensures old(IsAddDisabled()) && old(quantity) >= 1 ==> emitted.None? && quantity == old(quantity)
    {
      if product.manageStock && quantity > currentStock {
        return None;
      }
      emitted := Some(Cart.CartItem(product.id, product.name, product.price, product.discount,
                                    quantity, product.manageStock, currentStock));
      quantity := 1;
    }

    /** The effect that copies a new `stock_quantity` into the card; the selected quantity
        is kept as it is. */
    method SyncStock(stock: int)
      modifies this`currentStock
      ensures currentStock == stock
    {
      currentStock := stock;
    }

    predicate IsAddDisabled()
      reads this
    {
      AddDisabled(product.manageStock, currentStock)
    }
  }

  /** A card whose managed stock has run out emits nothing when the add handler runs, so
      the disabled button and the handler's own check agree. */
  lemma DisabledMeansNothingEmitted(manageStock: bool, currentStock: int, quantity: int)
    requires 1 <= quantity
    ensures AddDisabled(manageStock, currentStock) ==> manageStock && quantity > currentStock
  {
  }
}
