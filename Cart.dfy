/**
 * The cart reducer (src/store/slices/cartSlice.ts) as pure state
 * transitions. Redux Toolkit runs each reducer on a draft and publishes a
 * fresh immutable state, so a reducer is exactly a function from the old
 * state and the payload to the new state; the class in CartStore.dfy
 * performs the same steps by assignment.
 */
module Cart {
  import opened Wrappers
  import opened Types
  import opened Seqs

  /** `CartState`: the lines in insertion order and the two running totals. */
  datatype CartState = CartState(items: seq<CartItem>, totalItems: int, totalAmount: int)

  /** `initialState`. */
  const Initial := CartState([], 0, 0)

  /** The `find` callback `item => item.product.id === id`. */
  function HasId(id: string): CartItem -> bool
  {
    (item: CartItem) => item.product.id == id
  }

  /** The `filter` callback `item => item.product.id !== id`. */
  function OtherId(id: string): CartItem -> bool
  {
    (item: CartItem) => item.product.id != id
  }

  /** Sum of the quantities of `items`. */
  function SumQuantity(items: seq<CartItem>): int
  {
    if items == [] then 0 else items[0].quantity + SumQuantity(items[1..])
  }

  /** Sum of `price * quantity` over `items`. */
  function SumAmount(items: seq<CartItem>): int
  {
    if items == [] then 0
    else items[0].product.price * items[0].quantity + SumAmount(items[1..])
  }

  /** At most one line per product id. */
  predicate UniqueIds(items: seq<CartItem>)
  {
    forall i, j :: 0 <= i < j < |items| ==> items[i].product.id != items[j].product.id
  }

  /** Every line holds at least one unit. */
  predicate PositiveQuantities(items: seq<CartItem>)
  {
    forall i :: 0 <= i < |items| ==> items[i].quantity >= 1
  }

  /** The cart invariant: both totals agree with the lines, ids are unique and quantities positive. */
  predicate Consistent(s: CartState)
  {
    && s.totalItems == SumQuantity(s.items)
    && s.totalAmount == SumAmount(s.items)
    && UniqueIds(s.items)
    && PositiveQuantities(s.items)
  }

  /** The quantity of the first line for `id`, or 0 when the cart has none. */
  function QuantityOf(items: seq<CartItem>, id: string): (n: int)
    ensures PositiveQuantities(items) ==> n >= 0
    ensures FindIndex(items, HasId(id)).None? ==> n == 0
    ensures FindIndex(items, HasId(id)).Some? ==> n == items[FindIndex(items, HasId(id)).value].quantity
  {
    match FindIndex(items, HasId(id))
    case None => 0
    case Some(i) => items[i].quantity
  }

  /** Every line already holding `p.id` was added at `p`'s price. */
  predicate PriceAgrees(items: seq<CartItem>, p: Product)
  {
    forall i :: 0 <= i < |items| && items[i].product.id == p.id ==> items[i].product.price == p.price
  }

  /** The initial cart is empty and already satisfies the invariant. */
  lemma InitialConsistent()
    ensures Initial.items == [] && Initial.totalItems == 0 && Initial.totalAmount == 0
    ensures Consistent(Initial)
  {
  }

  // ---------------------------------------------------------------------------
  // The five reducers

  /** `addToCart(product)`. */
  function AddToCart(s: CartState, p: Product): (r: CartState)
    ensures r.totalItems == s.totalItems + 1
    ensures r.totalAmount == s.totalAmount + p.price
    ensures |r.items| >= |s.items|
    ensures FindIndex(s.items, HasId(p.id)).None? ==> r.items == s.items + [CartItem(p, 1)]
    ensures forall i :: 0 <= i < |s.items| ==> r.items[i].product == s.items[i].product
    ensures match FindIndex(s.items, HasId(p.id))
      case None => true
      case Some(i) =>
        && |r.items| == |s.items|
        && r.items[i].quantity == s.items[i].quantity + 1
        && (forall j :: 0 <= j < |s.items| && j != i ==> r.items[j] == s.items[j])
  {
    var items := match FindIndex(s.items, HasId(p.id))
      case Some(i) => s.items[i := s.items[i].(quantity := s.items[i].quantity + 1)]
      case None => s.items + [CartItem(p, 1)];
    CartState(items, s.totalItems + 1, s.totalAmount + p.price)
  }

  /** `removeFromCart(productId)`. */
  function RemoveFromCart(s: CartState, id: string): (r: CartState)
    ensures FindIndex(s.items, HasId(id)).None? ==> r == s
    ensures forall i :: 0 <= i < |r.items| ==> r.items[i].product.id != id
    ensures match FindIndex(s.items, HasId(id))
      case None => true
      case Some(i) =>
        && r.totalItems == s.totalItems - s.items[i].quantity
        && r.totalAmount == s.totalAmount - s.items[i].product.price * s.items[i].quantity
        && r.items == Filter(s.items, OtherId(id))
  {
    match FindIndex(s.items, HasId(id))
    case None => s
    case Some(i) =>
      var line := s.items[i];
      CartState(Filter(s.items, OtherId(id)),
                s.totalItems - line.quantity,
                s.totalAmount - line.product.price * line.quantity)
  }

  /** `increaseQuantity(productId)`. */
  function IncreaseQuantity(s: CartState, id: string): (r: CartState)
    ensures FindIndex(s.items, HasId(id)).None? ==> r == s
    ensures |r.items| == |s.items|
    ensures forall i :: 0 <= i < |s.items| ==> r.items[i].product == s.items[i].product
    ensures match FindIndex(s.items, HasId(id))
      case None => true
      case Some(i) =>
        && r.items[i].quantity == s.items[i].quantity + 1
        && (forall j :: 0 <= j < |s.items| && j != i ==> r.items[j] == s.items[j])
        && r.totalItems == s.totalItems + 1
        && r.totalAmount == s.totalAmount + s.items[i].product.price
  {
    match FindIndex(s.items, HasId(id))
    case None => s
    case Some(i) =>
      var line := s.items[i];
      CartState(s.items[i := line.(quantity := line.quantity + 1)],
                s.totalItems + 1,
                s.totalAmount + line.product.price)
  }

  /** `decreaseQuantity(productId)`: the last unit takes the line with it. */
  function DecreaseQuantity(s: CartState, id: string): (r: CartState)
    ensures FindIndex(s.items, HasId(id)).None? ==> r == s
    ensures QuantityOf(s.items, id) == 1 ==> forall i :: 0 <= i < |r.items| ==> r.items[i].product.id != id
    ensures match FindIndex(s.items, HasId(id))
      case None => true
      case Some(i) =>
        && (s.items[i].quantity >= 1 ==>
              r.totalItems == s.totalItems - 1 && r.totalAmount == s.totalAmount - s.items[i].product.price)
        && (s.items[i].quantity > 1 ==>
              && |r.items| == |s.items|
              && r.items[i].quantity == s.items[i].quantity - 1
              && r.items[i].product == s.items[i].product
              && (forall j :: 0 <= j < |s.items| && j != i ==> r.items[j] == s.items[j]))
        && (s.items[i].quantity < 1 ==> r == s)
  {
    match FindIndex(s.items, HasId(id))
    case None => s
    case Some(i) =>
      var line := s.items[i];
      if line.quantity > 1 then
        CartState(s.items[i := line.(quantity := line.quantity - 1)],
                  s.totalItems - 1,
                  s.totalAmount - line.product.price)
      else if line.quantity == 1 then
        CartState(Filter(s.items, OtherId(id)),
                  s.totalItems - 1,
                  s.totalAmount - line.product.price)
      else s
  }

  /** `clearCart()`: whatever the state, the empty cart. */
  function ClearCart(s: CartState): (r: CartState)
    ensures r.items == [] && r.totalItems == 0 && r.totalAmount == 0
  {
    Initial
  }

  // ---------------------------------------------------------------------------
  // Sums over lines

  lemma {:induction false} SumConcat(a: seq<CartItem>, b: seq<CartItem>)
    ensures SumQuantity(a + b) == SumQuantity(a) + SumQuantity(b)
    ensures SumAmount(a + b) == SumAmount(a) + SumAmount(b)
  {
    if a == [] {
      assert a + b == b;
    } else {
      assert (a + b)[1..] == a[1..] + b;
      SumConcat(a[1..], b);
    }
  }

  /** Replacing one line changes each total by the difference between the old line and the new one. */
  lemma SumReplace(items: seq<CartItem>, i: nat, x: CartItem)
    requires i < |items|
    ensures SumQuantity(items[i := x]) == SumQuantity(items) - items[i].quantity + x.quantity
    ensures SumAmount(items[i := x]) ==
      SumAmount(items) - items[i].product.price * items[i].quantity + x.product.price * x.quantity
  {
    assert items == items[..i] + ([items[i]] + items[i + 1..]);
    assert items[i := x] == items[..i] + ([x] + items[i + 1..]);
    SumConcat(items[..i], [items[i]] + items[i + 1..]);
    SumConcat([items[i]], items[i + 1..]);
    SumConcat(items[..i], [x] + items[i + 1..]);
    SumConcat([x], items[i + 1..]);
  }

  /** With unique ids, the lines before and after line `i` hold no other line with its id. */
  lemma OtherLinesKept(items: seq<CartItem>, i: nat)
    requires UniqueIds(items) && i < |items|
    ensures Filter(items[..i], OtherId(items[i].product.id)) == items[..i]
    ensures Filter(items[i + 1..], OtherId(items[i].product.id)) == items[i + 1..]
  {
    var f := OtherId(items[i].product.id);
    var before, after := items[..i], items[i + 1..];
    forall j | 0 <= j < |before| ensures f(before[j]) {
      assert before[j] == items[j];
    }
    FilterKeepsAll(before, f);
    forall j | 0 <= j < |after| ensures f(after[j]) {
      assert after[j] == items[i + 1 + j];
    }
    FilterKeepsAll(after, f);
  }

  lemma OwnLineFiltered(x: CartItem)
    ensures Filter([x], OtherId(x.product.id)) == []
  {
  }

  /** With unique ids, filtering out a line's id drops exactly that line. */
  lemma {:induction false} WithoutLine(items: seq<CartItem>, i: nat)
    requires UniqueIds(items) && i < |items|
    ensures Filter(items, OtherId(items[i].product.id)) == items[..i] + items[i + 1..]
  {
    var f := OtherId(items[i].product.id);
    var before, line, after := items[..i], [items[i]], items[i + 1..];
    assert items == before + (line + after);
    assert Filter(before, f) == before && Filter(after, f) == after by {
      OtherLinesKept(items, i);
    }
    assert Filter(line, f) == [] by {
      OwnLineFiltered(items[i]);
    }
    FilterAppend(before, line + after, f);
    FilterAppend(line, after, f);
  }

  /** Dropping line `i` subtracts it from both totals and keeps the other lines' invariants. */
  lemma DropLine(items: seq<CartItem>, i: nat)
    requires i < |items|
    ensures SumQuantity(items[..i] + items[i + 1..]) == SumQuantity(items) - items[i].quantity
    ensures SumAmount(items[..i] + items[i + 1..]) ==
      SumAmount(items) - items[i].product.price * items[i].quantity
    ensures UniqueIds(items) ==> UniqueIds(items[..i] + items[i + 1..])
    ensures PositiveQuantities(items) ==> PositiveQuantities(items[..i] + items[i + 1..])
  {
    var before, line, after := items[..i], [items[i]], items[i + 1..];
    assert SumQuantity(before + after) == SumQuantity(items) - items[i].quantity &&
           SumAmount(before + after) == SumAmount(items) - items[i].product.price * items[i].quantity by {
      assert items == before + (line + after);
      SumConcat(before, line + after);
      SumConcat(line, after);
      SumConcat(before, after);
    }
    var t := before + after;
    assert forall j :: 0 <= j < |t| ==> t[j] == items[if j < i then j else j + 1];
  }

  // ---------------------------------------------------------------------------
  // Every reducer keeps the invariant

  /**
   * `addToCart` keeps the invariant only when the payload is priced like the
   * line it joins: the line keeps its stored product while the total grows by
   * the payload's price (see AddToCartRepricedDrifts).
   */
  lemma AddToCartKeepsConsistent(s: CartState, p: Product)
    requires Consistent(s) && PriceAgrees(s.items, p)
    ensures Consistent(AddToCart(s, p))
  {
    match FindIndex(s.items, HasId(p.id))
    case Some(i) =>
      assert s.items[i].product.price == p.price;
      StepLineKeepsConsistent(s, i, 1);
    case None =>
      SumConcat(s.items, [CartItem(p, 1)]);
  }

  /** Moving line `i`'s quantity by `d` (to at least one) and both totals with it keeps the invariant. */
  lemma StepLineKeepsConsistent(s: CartState, i: nat, d: int)
    requires Consistent(s) && i < |s.items| && s.items[i].quantity + d >= 1
    ensures Consistent(CartState(s.items[i := s.items[i].(quantity := s.items[i].quantity + d)],
                                 s.totalItems + d,
                                 s.totalAmount + d * s.items[i].product.price))
  {
    var line := s.items[i];
    SumReplace(s.items, i, line.(quantity := line.quantity + d));
    assert line.product.price * (line.quantity + d) == line.product.price * line.quantity + d * line.product.price;
  }

  /** Filtering out line `i`'s id and taking the line off both totals keeps the invariant. */
  lemma DropLineKeepsConsistent(s: CartState, i: nat)
    requires Consistent(s) && i < |s.items|
    ensures Consistent(CartState(Filter(s.items, OtherId(s.items[i].product.id)),
                                 s.totalItems - s.items[i].quantity,
                                 s.totalAmount - s.items[i].product.price * s.items[i].quantity))
  {
    WithoutLine(s.items, i);
    DropLine(s.items, i);
  }

  lemma RemoveFromCartKeepsConsistent(s: CartState, id: string)
    requires Consistent(s)
    ensures Consistent(RemoveFromCart(s, id))
  {
    match FindIndex(s.items, HasId(id))
    case None =>
    case Some(i) =>
      DropLineKeepsConsistent(s, i);
  }

  lemma IncreaseQuantityKeepsConsistent(s: CartState, id: string)
    requires Consistent(s)
    ensures Consistent(IncreaseQuantity(s, id))
  {
    match FindIndex(s.items, HasId(id))
    case None =>
    case Some(i) =>
      StepLineKeepsConsistent(s, i, 1);
  }

  lemma DecreaseQuantityKeepsConsistent(s: CartState, id: string)
    requires Consistent(s)
    ensures Consistent(DecreaseQuantity(s, id))
  {
    match FindIndex(s.items, HasId(id))
    case None =>
    case Some(i) =>
      if s.items[i].quantity > 1 {
        StepLineKeepsConsistent(s, i, -1);
      } else {
        DropLineKeepsConsistent(s, i);
      }
  }

  lemma ClearCartKeepsConsistent(s: CartState)
    ensures Consistent(ClearCart(s))
  {
  }

  // ---------------------------------------------------------------------------
  // How the reducers relate to each other

  /** `addToCart` raises the quantity held for the product's id by one and leaves every other id's quantity alone. */
  lemma AddToCartQuantityOf(s: CartState, p: Product, id: string)
    ensures QuantityOf(AddToCart(s, p).items, id) == QuantityOf(s.items, id) + (if id == p.id then 1 else 0)
  {
    var r := AddToCart(s, p);
    match FindIndex(s.items, HasId(p.id))
    case Some(i) =>
      FindIndexSameMatches(r.items, s.items, HasId(id), HasId(id));
    case None =>
      var x := CartItem(p, 1);
      FindIndexAppend(s.items, [x], HasId(id));
      assert FindIndex([x], HasId(id)) == if id == p.id then Some(0) else None;
  }

  /** On a product already in the cart at the same price, `addToCart` is `increaseQuantity`. */
  lemma AddToCartIsIncrease(s: CartState, p: Product)
    requires FindIndex(s.items, HasId(p.id)).Some? && PriceAgrees(s.items, p)
    ensures AddToCart(s, p) == IncreaseQuantity(s, p.id)
  {
  }

  /** Removing twice is removing once. */
  lemma RemoveFromCartIdempotent(s: CartState, id: string)
    ensures RemoveFromCart(RemoveFromCart(s, id), id) == RemoveFromCart(s, id)
  {
  }

  /** Taking away the last unit of a line is removing the line. */
  lemma DecreaseLastIsRemove(s: CartState, id: string)
    requires QuantityOf(s.items, id) == 1
    ensures DecreaseQuantity(s, id) == RemoveFromCart(s, id)
  {
  }

  /** `AddTimes(s, p, n)`: dispatch `addToCart(p)` n times. */
  function AddTimes(s: CartState, p: Product, n: nat): CartState
  {
    if n == 0 then s else AddToCart(AddTimes(s, p, n - 1), p)
  }

  /** Adding one product n times to an empty cart gives one line of quantity n. */
  lemma {:induction false} AddTimesFromEmpty(p: Product, n: nat)
    requires n >= 1
    ensures AddTimes(Initial, p, n) == CartState([CartItem(p, n)], n, n * p.price)
  {
    if n > 1 {
      AddTimesFromEmpty(p, n - 1);
      assert FindIndex([CartItem(p, n - 1)], HasId(p.id)) == Some(0);
      assert (n - 1) * p.price + p.price == n * p.price;
    }
  }

  /** `AddEach(s, ps)`: dispatch `addToCart` for each product of `ps` in order. */
  function AddEach(s: CartState, ps: seq<Product>): CartState
    decreases ps
  {
    if ps == [] then s else AddEach(AddToCart(s, ps[0]), ps[1..])
  }

  function SumPrices(ps: seq<Product>): int
  {
    if ps == [] then 0 else ps[0].price + SumPrices(ps[1..])
  }

  /** After any sequence of adds, totalItems counts the adds and totalAmount sums their prices. */
  lemma {:induction false} AddEachTotals(s: CartState, ps: seq<Product>)
    ensures AddEach(s, ps).totalItems == s.totalItems + |ps|
    ensures AddEach(s, ps).totalAmount == s.totalAmount + SumPrices(ps)
    decreases ps
  {
    if ps != [] {
      AddEachTotals(AddToCart(s, ps[0]), ps[1..]);
    }
  }

  /**
   * The totals drift when a product is added again at a new price: the line
   * keeps the price it was first added at, the total takes the new one, and
   * removing the line then leaves an empty cart that still owes 20.
   */
  lemma AddToCartRepricedDrifts()
    ensures
      var a := Product("a", "A", "", 100, "rackets", None, 1, 0);
      var s := AddToCart(AddToCart(Initial, a), a.(price := 120));
      && !Consistent(s)
      && RemoveFromCart(s, "a") == CartState([], 0, 20)
  {
    var a := Product("a", "A", "", 100, "rackets", None, 1, 0);
    var s1 := AddToCart(Initial, a);
    assert s1.items == [CartItem(a, 1)];
    assert FindIndex(s1.items, HasId("a")) == Some(0);
    var s := AddToCart(s1, a.(price := 120));
    assert s.items == [CartItem(a, 2)];
    assert s.totalAmount == 220;
    assert SumAmount(s.items) == 200;
    assert FindIndex(s.items, HasId("a")) == Some(0);
    assert Filter(s.items, OtherId("a")) == [];
  }
}
