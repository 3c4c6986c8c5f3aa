/**
 * The cart reducers as Redux Toolkit runs them: on a draft whose fields are
 * updated in place. Each method performs the source's steps and is proved to
 * land in the state the matching transition of module Cart describes, so
 * every fact proved there (the invariant, idempotence, the add-n-times
 * result) holds of the store.
 */
module CartStore {
  import opened Wrappers
  import opened Types
  import opened Seqs
  import Cart

  /** The cart slice's state; the lines are values, so updating one line is reassigning the sequence. */
  class Store {
    var items: seq<CartItem>
    var totalItems: int
    var totalAmount: int

    function State(): Cart.CartState
      reads this
    {
      Cart.CartState(items, totalItems, totalAmount)
    }

    /** The totals agree with the lines, ids are unique and quantities positive. */
    ghost predicate Valid()
      reads this
    {
      Cart.Consistent(State())
    }

    /** `initialState`. */
    constructor ()
      ensures State() == Cart.Initial
      ensures Valid()
    {
      items := [];
      totalItems := 0;
      totalAmount := 0;
    }

    method AddToCart(product: Product)
      modifies this
      ensures State() == Cart.AddToCart(old(State()), product)
      ensures old(Valid()) && Cart.PriceAgrees(old(items), product) ==> Valid()
    {
      ghost var before := State();
      match FindIndex(items, Cart.HasId(product.id)) {
        case Some(i) =>
          items := items[i := items[i].(quantity := items[i].quantity + 1)];
        case None =>
          items := items + [CartItem(product, 1)];
      }
      totalItems := totalItems + 1;
      totalAmount := totalAmount + product.price;
      if Cart.Consistent(before) && Cart.PriceAgrees(before.items, product) {
        Cart.AddToCartKeepsConsistent(before, product);
      }
    }

    method RemoveFromCart(productId: string)
      modifies this
      ensures State() == Cart.RemoveFromCart(old(State()), productId)
      ensures old(Valid()) ==> Valid()
    {
      ghost var before := State();
      match FindIndex(items, Cart.HasId(productId)) {
        case None =>
        case Some(i) =>
          var line := items[i];
          totalItems := totalItems - line.quantity;
          totalAmount := totalAmount - line.product.price * line.quantity;
          items := Filter(items, Cart.OtherId(productId));
      }
      if Cart.Consistent(before) {
        Cart.RemoveFromCartKeepsConsistent(before, productId);
      }
    }

    method IncreaseQuantity(productId: string)
      modifies this
      ensures State() == Cart.IncreaseQuantity(old(State()), productId)
      ensures old(Valid()) ==> Valid()
    {
      ghost var before := State();
      match FindIndex(items, Cart.HasId(productId)) {
        case None =>
        case Some(i) =>
          var line := items[i];
          items := items[i := line.(quantity := line.quantity + 1)];
          totalItems := totalItems + 1;
          totalAmount := totalAmount + line.product.price;
      }
      if Cart.Consistent(before) {
        Cart.IncreaseQuantityKeepsConsistent(before, productId);
      }
    }

    method DecreaseQuantity(productId: string)
      modifies this
      ensures State() == Cart.DecreaseQuantity(old(State()), productId)
      ensures old(Valid()) ==> Valid()
    {
      ghost var before := State();
      match FindIndex(items, Cart.HasId(productId)) {
        case None =>
        case Some(i) =>
          var line := items[i];
          if line.quantity > 1 {
            items := items[i := line.(quantity := line.quantity - 1)];
            totalItems := totalItems - 1;
            totalAmount := totalAmount - line.product.price;
          } else if line.quantity == 1 {
            totalItems := totalItems - 1;
            totalAmount := totalAmount - line.product.price;
            items := Filter(items, Cart.OtherId(productId));
          }
      }
      if Cart.Consistent(before) {
        Cart.DecreaseQuantityKeepsConsistent(before, productId);
      }
    }

    method ClearCart()
      modifies this
      ensures State() == Cart.ClearCart(old(State()))
      ensures Valid()
    {
      items := [];
      totalItems := 0;
      totalAmount := 0;
    }
  }
}
