/**
  The storefront's two records: a catalogue product and a cart line that
  pairs a product with a quantity. Prices are whole cents rather than
  floating-point dollars.
 */
module Catalog {

  datatype Product = Product(
    id: string,
    name: string,
    price: int,
    description: string,
    image: string,
    category: string,
    stock: int)

  datatype CartItem = CartItem(product: Product, quantity: int)

  /** What one line contributes to the cart total. */
  function LineTotal(item: CartItem): int
  {
    item.product.price * item.quantity
  }

  /** What one line contributes to the badge count. */
  function Quantity(item: CartItem): int
  {
    item.quantity
  }

  /** Changing a line's quantity changes its amount by the price times the change. */
  lemma LineTotalChange(item: CartItem, quantity: int)
    ensures LineTotal(item.(quantity := quantity)) - LineTotal(item)
      == item.product.price * (quantity - item.quantity)
  {
    var p := item.product.price;
    assert p * quantity - p * item.quantity == p * (quantity - item.quantity);
  }
}
