/** The cart page: the checkout button, the id normalisation of its
    handlers, and the per-line figures it renders. */
module CartPage {
  import opened Wrappers
  import opened CartContext

  /** Outcome of `POST /cart/checkout`; a failure may carry the server's
      `detail`. */
  datatype Checkout = Placed | CheckoutFailed(detail: Option<string>)

  /** What `placeOrder` leaves behind: the cart, the alert shown, and
      whether the checkout request was sent at all. */
  datatype OrderAttempt = OrderAttempt(items: seq<CartItem>, alert: string, requested: bool)

  const LoginFirst: string := "Please login to place an order"
  const OrderPlaced: string := "Order placed successfully!"
  const OrderFailedPrefix: string := "Could not place order: "
  const OrderFailedGeneric: string := "Could not place order. Please try again."

  /** `placeOrder` */
  function PlaceOrder(items: seq<CartItem>, session: Session, outcome: Checkout): (r: OrderAttempt)
    ensures session.Guest? ==> !r.requested && r.items == items && r.alert == LoginFirst
    ensures session.SignedIn? ==> r.requested
    ensures session.SignedIn? && outcome.Placed? ==> r.items == [] && r.alert == OrderPlaced
    ensures session.SignedIn? && outcome.CheckoutFailed? ==> r.items == items
    ensures session.SignedIn? && outcome.CheckoutFailed? && outcome.detail.Some? && outcome.detail.value != "" ==>
      r.alert == OrderFailedPrefix + outcome.detail.value
    ensures session.SignedIn? && outcome.CheckoutFailed? && (outcome.detail.None? || outcome.detail.value == "") ==>
      r.alert == OrderFailedGeneric
  {
    match session
    case Guest => OrderAttempt(items, LoginFirst, false)
    case SignedIn =>
      match outcome
      case Placed => OrderAttempt(ClearCart(items), OrderPlaced, true)
      case CheckoutFailed(detail) =>
        if detail.Some? && detail.value != "" then OrderAttempt(items, OrderFailedPrefix + detail.value, true)
        else OrderAttempt(items, OrderFailedGeneric, true)
  }

  /** After a placed order the cart holds nothing and costs nothing; a
      failed or refused one leaves both figures as they were. */
  lemma PlaceOrderAggregates(items: seq<CartItem>, session: Session, outcome: Checkout)
    ensures var r := PlaceOrder(items, session, outcome);
      if session.SignedIn? && outcome.Placed? then ItemCount(r.items) == 0 && CartTotal(r.items) == 0
      else ItemCount(r.items) == ItemCount(items) && CartTotal(r.items) == CartTotal(items)
  {
  }

  /** The argument of `handleRemoveItem` / `handleUpdateQuantity`: either a
      bare id or a whole cart line. */
  datatype IdArg = Scalar(id: int) | Line(item: CartItem)

  /** `typeof productId === 'object' ? productId.product?.id || productId.id : productId` */
  function NormaliseId(arg: IdArg): (r: int)
    ensures arg.Scalar? ==> r == arg.id
    ensures arg.Line? && arg.item.product.Some? && arg.item.product.value.id != 0 ==> r == arg.item.product.value.id
    ensures arg.Line? && arg.item.product.None? ==> r == arg.item.id
  {
    match arg
    case Scalar(id) => id
    case Line(item) => LineKey(item)
  }

  /** A line passed to a handler is looked up by the key the local
      mutations use, so removing it takes it out of a guest cart. */
  lemma NormalisedLineIsRemoved(items: seq<CartItem>, item: CartItem)
    ensures item !in RemoveFromCart(items, NormaliseId(Line(item)), Guest, Written, None)
  {
  }

  /** `(item.product || item).id`: the id the row's buttons pass on. */
  function DisplayId(item: CartItem): (r: int)
    ensures item.product.Some? ==> r == item.product.value.id
    ensures item.product.None? ==> r == item.id
  {
    if item.product.Some? then item.product.value.id else item.id
  }

  /** `parseFloat(product.price) || 0`, where `product` is `item.product || item`. */
  function DisplayPrice(item: CartItem): (r: int)
    ensures item.product.Some? && item.product.value.price.Some? ==> r == item.product.value.price.value
    ensures item.product.Some? && item.product.value.price.None? ==> r == 0
    ensures item.product.None? ==> r == item.price.GetOr(0)
  {
    if item.product.Some? then item.product.value.price.GetOr(0) else item.price.GetOr(0)
  }

  /** The subtotal shown on a row: price times `item.quantity || 0`. */
  function LineSubtotal(item: CartItem): (r: int)
    ensures DisplayPrice(item) == 0 || item.quantity == 0 ==> r == 0
  {
    DisplayPrice(item) * item.quantity
  }

  function SumOfSubtotals(items: seq<CartItem>): int {
    if |items| == 0 then 0
    else SumOfSubtotals(items[..|items| - 1]) + LineSubtotal(items[|items| - 1])
  }

  /** A line carries its price in one place: nested in `product` for a
      backend row, on the line itself for a local one. */
  predicate PricedOnce(item: CartItem) {
    item.product.Some? ==> item.price.None?
  }

  /** When every line carries its price in one place, the row subtotals add
      up to the total shown at the bottom of the page. */
  lemma {:induction false} SubtotalsAddUpToTotal(items: seq<CartItem>)
    requires forall i :: 0 <= i < |items| ==> PricedOnce(items[i])
    ensures SumOfSubtotals(items) == CartTotal(items)
  {
    if |items| > 0 {
      var p := items[..|items| - 1];
      assert forall i :: 0 <= i < |p| ==> p[i] == items[i];
      SubtotalsAddUpToTotal(p);
      assert UnitPrice(items[|items| - 1]) == DisplayPrice(items[|items| - 1]);
    }
  }

  /** The minus button asks for one less than the shown quantity. */
  function MinusRequest(item: CartItem): (r: (int, int))
    ensures r.1 < item.quantity
    ensures r.0 == DisplayId(item)
  {
    (DisplayId(item), item.quantity - 1)
  }

  /** At quantity 1 the minus button is a removal; for a line added as a
      guest the line disappears. */
  lemma MinusAtOneRemoves(items: seq<CartItem>, item: CartItem, session: Session,
                          write: Write, fetched: Option<seq<CartItem>>)
    requires item.quantity == 1
    ensures var (id, q) := MinusRequest(item);
      UpdateQuantity(items, id, q, session, write, fetched) == RemoveFromCart(items, id, session, write, fetched)
    ensures item.product.None? ==>
      item !in UpdateQuantity(items, MinusRequest(item).0, MinusRequest(item).1, Guest, write, fetched)
  {
  }
}
