/**
 * The records both stores hold. A product keeps only the fields the
 * reducers read; price and rating are integers (minor currency units and
 * tenths of a star, say) instead of JavaScript numbers.
 */
module Types {
  import opened Wrappers

  datatype Product = Product(
    id: string,
    name: string,
    description: string,
    price: int,
    category: string,
    subCategory: Option<string>,
    stock: int,
    rating: int)

  /** One cart line: a product (a copy of the value added) and how many of it. */
  datatype CartItem = CartItem(product: Product, quantity: int)
}
