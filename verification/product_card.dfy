/** The product card of the catalogue: its stock badges, the struck-through
    original price and its image. Catalogue products come from the backend,
    whose records carry `quantity` and no `stock` field. */
module ProductCard {
  import opened Wrappers
  import opened Records
  import Images

  /** The fields the card reads; a missing field is `None`. */
  datatype CardProduct = CardProduct(
    price: int,
    quantity: Option<int>,
    stock: Option<int>,
    originalPrice: Option<int>,
    image: Option<string>)

  /** A backend product as the card receives it. */
  function FromRecord(r: Product): (c: CardProduct)
    ensures c.quantity == Some(r.quantity) && c.stock.None? && c.price == r.price && c.image == r.image
  {
    CardProduct(r.price, Some(r.quantity), None, None, r.image)
  }

  /** `product.quantity || product.stock`: 0 is falsy, so a zero quantity
      falls through to `stock`. */
  function StockValue(p: CardProduct): (v: Option<int>)
    ensures p.quantity.Some? && p.quantity.value != 0 ==> v == p.quantity
    ensures !(p.quantity.Some? && p.quantity.value != 0) ==> v == p.stock
  {
    if p.quantity.Some? && p.quantity.value != 0 then p.quantity else p.stock
  }

  /** "Only N left" */
  function ShowLowBadge(p: CardProduct): (shown: bool)
    ensures shown <==> StockValue(p).Some? && 0 < StockValue(p).value <= 5
  {
    match StockValue(p)
    case Some(v) => v <= 5 && v > 0
    case None => false
  }

  /** "Out of Stock" */
  predicate ShowOutOfStock(p: CardProduct) {
    StockValue(p) == Some(0)
  }

  /** At most one badge shows, and a card showing "Only N left" is also
      below the admin low-stock threshold. */
  lemma BadgesExclusive(p: CardProduct)
    ensures !(ShowLowBadge(p) && ShowOutOfStock(p))
    ensures ShowLowBadge(p) ==> IsLowStock(StockValue(p).value)
  {
  }

  /** A zero quantity without a `stock` field shows neither badge; with a
      `stock` field the badge follows `stock`. */
  lemma ZeroQuantityFallsThrough(p: CardProduct)
    requires p.quantity == Some(0)
    ensures p.stock.None? ==> !ShowLowBadge(p) && !ShowOutOfStock(p)
    ensures ShowOutOfStock(p) <==> p.stock == Some(0)
  {
  }

  /** So a sold-out backend product never shows "Out of Stock". */
  lemma SoldOutRecordShowsNoBadge(r: Product)
    requires r.quantity == 0
    ensures !ShowOutOfStock(FromRecord(r))
    ensures !ShowLowBadge(FromRecord(r))
  {
  }

  /** The stock level with a missing value falling through instead of a
      falsy one (`quantity ?? stock`). */
  function StockLevel(p: CardProduct): (v: Option<int>)
    ensures p.quantity.Some? ==> v == p.quantity
    ensures p.quantity.None? ==> v == p.stock
  {
    if p.quantity.Some? then p.quantity else p.stock
  }

  function ShowLowBadgeFixed(p: CardProduct): (shown: bool)
    ensures shown <==> StockLevel(p).Some? && 0 < StockLevel(p).value <= 5
  {
    match StockLevel(p)
    case Some(v) => 0 < v <= 5
    case None => false
  }

  function ShowOutOfStockFixed(p: CardProduct): (shown: bool)
    ensures shown <==> StockLevel(p) == Some(0)
  {
    StockLevel(p) == Some(0)
  }

  /** With the fix, a backend product shows "Out of Stock" exactly when its
      quantity is 0 and "Only N left" exactly when it is 1..5, and the card
      behaves as before whenever the quantity is not 0. */
  lemma FixedBadgesFollowQuantity(r: Product, p: CardProduct)
    ensures ShowOutOfStockFixed(FromRecord(r)) <==> r.quantity == 0
    ensures ShowLowBadgeFixed(FromRecord(r)) <==> 0 < r.quantity <= 5
    ensures !(ShowOutOfStockFixed(p) && ShowLowBadgeFixed(p))
    ensures p.quantity != Some(0) ==>
      ShowOutOfStockFixed(p) == ShowOutOfStock(p) && ShowLowBadgeFixed(p) == ShowLowBadge(p)
  {
  }

  /** The struck-through original price: present, non-zero and above the
      price. */
  function ShowOriginalPrice(p: CardProduct): (shown: bool)
    ensures shown ==> p.originalPrice.Some? && p.originalPrice.value > p.price
    ensures p.originalPrice == Some(0) ==> !shown
  {
    p.originalPrice.Some? && p.originalPrice.value != 0 && p.originalPrice.value > p.price
  }

  /** For a non-negative price the truthiness test adds nothing: the old
      price shows exactly when it is higher. */
  lemma OriginalPriceWhenHigher(p: CardProduct)
    requires p.price >= 0
    ensures ShowOriginalPrice(p) <==> p.originalPrice.Some? && p.originalPrice.value > p.price
  {
  }

  /** The card's image is resolved like the cart's, with the larger
      placeholder. */
  function ImageSrc(p: CardProduct): (src: string)
    ensures p.image.None? || p.image.value == "" ==> src == Images.CardPlaceholder
    ensures p.image.Some? && p.image.value != "" ==> src == Images.CartImageUrl(p.image)
  {
    Images.CardImageUrl(p.image)
  }
}
