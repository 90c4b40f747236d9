/** The shopping-cart state held by the storefront (`CartProvider`): the list
    `cartItems`, the guest-mode mutations applied to it, the reload from the
    backend with its duplicate merge, and the signed-in operations that fall
    back to the guest mutation when the backend write fails. */
module CartContext {
  import opened Wrappers
  import opened Seqs

  /** `item.product` of a backend cart row: the nested product record. */
  datatype ProductRef = ProductRef(id: int, price: Option<int>)

  /** One element of `cartItems`. A backend row has its own row `id`, a
      nested `product` and possibly a `product_id`; a line added locally is
      the product record itself (`{...product, quantity: 1}`), so its `id`
      is the product id and it has no nested product. Prices are integers in
      minor units. */
  datatype CartItem = CartItem(
    id: int,
    product: Option<ProductRef>,
    productId: Option<int>,
    price: Option<int>,
    quantity: int)

  /** Whether a user is signed in (`user` in the auth context). */
  datatype Session = Guest | SignedIn

  /** Outcome of one backend write (POST, PUT or DELETE on `/cart/...`). */
  datatype Write = Written | WriteFailed

  /** `product?.id` when it is truthy. */
  predicate HasNestedId(item: CartItem) {
    item.product.Some? && item.product.value.id != 0
  }

  /** Key used by the reload merge: `item.product?.id || item.product_id`. */
  function RowKey(item: CartItem): Option<int> {
    if HasNestedId(item) then Some(item.product.value.id) else item.productId
  }

  /** Key used by the local mutations: `item.product?.id || item.id`. */
  function LineKey(item: CartItem): int {
    if HasNestedId(item) then item.product.value.id else item.id
  }

  /** Lookup of the backend row to change:
      `item.product?.id === productId || item.id === productId`. */
  predicate Matches(item: CartItem, productId: int) {
    (item.product.Some? && item.product.value.id == productId) || item.id == productId
  }

  // ---------------------------------------------------------------------
  // Aggregates

  /** `getCartItemCount`: the sum of the quantities. */
  function ItemCount(items: seq<CartItem>): int {
    if |items| == 0 then 0
    else ItemCount(items[..|items| - 1]) + items[|items| - 1].quantity
  }

  /** `item.product?.price || item.price || 0` */
  function UnitPrice(item: CartItem): int {
    if item.product.Some? && item.product.value.price.Some? && item.product.value.price.value != 0
    then item.product.value.price.value
    else if item.price.Some? && item.price.value != 0 then item.price.value
    else 0
  }

  /** `getCartTotal`: the sum of unit price times quantity. */
  function CartTotal(items: seq<CartItem>): int {
    if |items| == 0 then 0
    else CartTotal(items[..|items| - 1]) + UnitPrice(items[|items| - 1]) * items[|items| - 1].quantity
  }

  lemma {:induction false} ItemCountAppend(items: seq<CartItem>, x: CartItem)
    ensures ItemCount(items + [x]) == ItemCount(items) + x.quantity
  {
    assert (items + [x])[..|items|] == items;
  }

  lemma {:induction false} ItemCountSetQuantity(items: seq<CartItem>, i: int, q: int)
    requires 0 <= i < |items|
    ensures ItemCount(items[i := items[i].(quantity := q)]) == ItemCount(items) - items[i].quantity + q
    decreases |items|
  {
    var updated := items[i := items[i].(quantity := q)];
    var n := |items| - 1;
    if i < n {
      assert updated[..n] == items[..n][i := items[i].(quantity := q)];
      ItemCountSetQuantity(items[..n], i, q);
    } else {
      assert updated[..n] == items[..n];
    }
  }

  // ---------------------------------------------------------------------
  // Reload from the backend: merge of duplicate rows

  /** `acc.findIndex(existing => key(existing) === k)` with the reload key. */
  function FindRow(acc: seq<CartItem>, k: Option<int>): (r: int)
    ensures -1 <= r < |acc|
  {
    if |acc| == 0 then -1
    else if RowKey(acc[0]) == k then 0
    else
      var r := FindRow(acc[1..], k);
      if r < 0 then -1 else r + 1
  }

  /** FindRow returns the first index with the key, or -1 when there is
      none. */
  lemma {:induction false} FindRowSpec(acc: seq<CartItem>, k: Option<int>)
    ensures FindRow(acc, k) >= 0 ==> RowKey(acc[FindRow(acc, k)]) == k
    ensures FindRow(acc, k) >= 0 ==> forall j :: 0 <= j < FindRow(acc, k) ==> RowKey(acc[j]) != k
    ensures FindRow(acc, k) < 0 ==> forall j :: 0 <= j < |acc| ==> RowKey(acc[j]) != k
  {
    if |acc| > 0 && RowKey(acc[0]) != k {
      FindRowSpec(acc[1..], k);
      assert forall j :: 1 <= j < |acc| ==> acc[j] == acc[1..][j - 1];
    }
  }

  /** One step of the `reduce`: add the row's quantity to the line with the
      same key, or append the row. */
  function MergeRow(acc: seq<CartItem>, item: CartItem): seq<CartItem> {
    var i := FindRow(acc, RowKey(item));
    if i >= 0 then acc[i := acc[i].(quantity := acc[i].quantity + item.quantity)]
    else acc + [item]
  }

  /** The deduplicated cart built by `loadCartFromBackend`. */
  function Dedup(rows: seq<CartItem>): seq<CartItem> {
    if |rows| == 0 then []
    else MergeRow(Dedup(rows[..|rows| - 1]), rows[|rows| - 1])
  }

  /** Sum of the quantities of the rows with reload key `k`. */
  function QuantityOf(rows: seq<CartItem>, k: Option<int>): int {
    if |rows| == 0 then 0
    else QuantityOf(rows[..|rows| - 1], k)
         + (if RowKey(rows[|rows| - 1]) == k then rows[|rows| - 1].quantity else 0)
  }

  predicate DistinctRowKeys(s: seq<CartItem>) {
    forall i, j :: 0 <= i < j < |s| ==> RowKey(s[i]) != RowKey(s[j])
  }

  /** `line` is the first row of `rows` with its key, carrying the summed
      quantity of all rows with that key. */
  ghost predicate IsMergedLine(rows: seq<CartItem>, line: CartItem) {
    FindRow(rows, RowKey(line)) >= 0 &&
    line == rows[FindRow(rows, RowKey(line))].(quantity := QuantityOf(rows, RowKey(line)))
  }

  ghost predicate CoversRows(rows: seq<CartItem>, acc: seq<CartItem>) {
    forall j :: 0 <= j < |rows| ==> FindRow(acc, RowKey(rows[j])) >= 0
  }

  ghost predicate FirstOccurrenceOrder(rows: seq<CartItem>, acc: seq<CartItem>) {
    forall i, j :: 0 <= i < j < |acc| ==> FindRow(rows, RowKey(acc[i])) < FindRow(rows, RowKey(acc[j]))
  }

  /** `acc` is what the merge should make of `rows`: one line per key, each
      the first row with that key carrying the summed quantity, every key
      of `rows` present, in order of first occurrence. */
  ghost predicate Summarises(rows: seq<CartItem>, acc: seq<CartItem>) {
    && DistinctRowKeys(acc)
    && (forall i :: 0 <= i < |acc| ==> IsMergedLine(rows, acc[i]))
    && CoversRows(rows, acc)
    && FirstOccurrenceOrder(rows, acc)
  }

  lemma FindRowSnoc(s: seq<CartItem>, x: CartItem, k: Option<int>)
    ensures FindRow(s + [x], k) ==
      if FindRow(s, k) >= 0 then FindRow(s, k)
      else if RowKey(x) == k then |s| else -1
  {
    if |s| > 0 {
      assert (s + [x])[1..] == s[1..] + [x];
      FindRowSnoc(s[1..], x, k);
    }
  }

  lemma QuantityOfSnoc(s: seq<CartItem>, x: CartItem, k: Option<int>)
    ensures QuantityOf(s + [x], k) == QuantityOf(s, k) + if RowKey(x) == k then x.quantity else 0
  {
    assert (s + [x])[..|s|] == s;
  }

  lemma QuantityOfAbsent(rows: seq<CartItem>, k: Option<int>)
    requires FindRow(rows, k) < 0
    ensures QuantityOf(rows, k) == 0
  {
    if |rows| > 0 {
      var p := rows[..|rows| - 1];
      assert rows == p + [rows[|rows| - 1]];
      FindRowSnoc(p, rows[|rows| - 1], k);
      QuantityOfAbsent(p, k);
    }
  }

  /** Keys are all FindRow looks at. */
  lemma FindRowSameKeys(a: seq<CartItem>, b: seq<CartItem>, k: Option<int>)
    requires |a| == |b|
    requires forall i :: 0 <= i < |a| ==> RowKey(a[i]) == RowKey(b[i])
    ensures FindRow(a, k) == FindRow(b, k)
  {
    if |a| > 0 {
      FindRowSameKeys(a[1..], b[1..], k);
    }
  }

  /** A merged line for another key survives the arrival of a new row. */
  lemma MergedLineOtherKey(p: seq<CartItem>, x: CartItem, line: CartItem)
    requires IsMergedLine(p, line)
    requires RowKey(line) != RowKey(x)
    ensures IsMergedLine(p + [x], line)
  {
    FindRowSnoc(p, x, RowKey(line));
    QuantityOfSnoc(p, x, RowKey(line));
  }

  /** A merged line absorbs the quantity of a new row with its key. */
  lemma MergedLineSameKey(p: seq<CartItem>, x: CartItem, line: CartItem)
    requires IsMergedLine(p, line)
    requires RowKey(line) == RowKey(x)
    ensures IsMergedLine(p + [x], line.(quantity := line.quantity + x.quantity))
  {
    FindRowSnoc(p, x, RowKey(line));
    QuantityOfSnoc(p, x, RowKey(line));
  }

  /** A row with a key not seen before is a merged line of its own. */
  lemma MergedLineFresh(p: seq<CartItem>, x: CartItem)
    requires FindRow(p, RowKey(x)) < 0
    ensures IsMergedLine(p + [x], x)
  {
    FindRowSnoc(p, x, RowKey(x));
    QuantityOfSnoc(p, x, RowKey(x));
    QuantityOfAbsent(p, RowKey(x));
  }

  /** First occurrences in `p` stay first occurrences in `p + [x]`. */
  lemma FirstOccurrenceSnoc(p: seq<CartItem>, x: CartItem, acc: seq<CartItem>)
    requires forall i :: 0 <= i < |acc| ==> FindRow(p, RowKey(acc[i])) >= 0
    requires FirstOccurrenceOrder(p, acc)
    ensures FirstOccurrenceOrder(p + [x], acc)
  {
    forall i | 0 <= i < |acc|
      ensures FindRow(p + [x], RowKey(acc[i])) == FindRow(p, RowKey(acc[i]))
    {
      FindRowSnoc(p, x, RowKey(acc[i]));
    }
  }

  /** Merge step where the row's key is already in the cart. */
  lemma MergeExisting(p: seq<CartItem>, x: CartItem, acc: seq<CartItem>)
    requires Summarises(p, acc)
    requires FindRow(acc, RowKey(x)) >= 0
    ensures Summarises(p + [x], MergeRow(acc, x))
  {
    var i := FindRow(acc, RowKey(x));
    var acc' := acc[i := acc[i].(quantity := acc[i].quantity + x.quantity)];
    assert MergeRow(acc, x) == acc';
    FindRowSpec(acc, RowKey(x));
    MergeExistingLines(p, x, acc, i);
    MergeExistingCovers(p, x, acc, i);
    FirstOccurrenceSnoc(p, x, acc);
    SameKeysTransfer(p + [x], acc, acc');
    Assemble(p + [x], acc');
  }

  lemma Assemble(rows: seq<CartItem>, acc: seq<CartItem>)
    requires DistinctRowKeys(acc)
    requires forall i :: 0 <= i < |acc| ==> IsMergedLine(rows, acc[i])
    requires CoversRows(rows, acc)
    requires FirstOccurrenceOrder(rows, acc)
    ensures Summarises(rows, acc)
  {
  }

  /** Distinctness and order only look at the keys. */
  lemma SameKeysTransfer(rows: seq<CartItem>, acc: seq<CartItem>, acc': seq<CartItem>)
    requires |acc| == |acc'|
    requires forall m :: 0 <= m < |acc| ==> RowKey(acc'[m]) == RowKey(acc[m])
    requires DistinctRowKeys(acc)
    requires FirstOccurrenceOrder(rows, acc)
    ensures DistinctRowKeys(acc')
    ensures FirstOccurrenceOrder(rows, acc')
  {
  }

  /** A key missing from a covering summary is missing from the rows. */
  lemma UncoveredKeyAbsent(p: seq<CartItem>, acc: seq<CartItem>, k: Option<int>)
    requires CoversRows(p, acc)
    requires FindRow(acc, k) < 0
    ensures FindRow(p, k) < 0
  {
    FindRowSpec(p, k);
  }

  lemma MergeExistingLines(p: seq<CartItem>, x: CartItem, acc: seq<CartItem>, i: int)
    requires forall m :: 0 <= m < |acc| ==> IsMergedLine(p, acc[m])
    requires DistinctRowKeys(acc)
    requires 0 <= i < |acc| && RowKey(acc[i]) == RowKey(x)
    ensures var acc' := acc[i := acc[i].(quantity := acc[i].quantity + x.quantity)];
      forall m :: 0 <= m < |acc'| ==> IsMergedLine(p + [x], acc'[m])
  {
    var acc' := acc[i := acc[i].(quantity := acc[i].quantity + x.quantity)];
    forall m | 0 <= m < |acc'|
      ensures IsMergedLine(p + [x], acc'[m])
    {
      if m == i {
        MergedLineSameKey(p, x, acc[m]);
      } else {
        MergedLineOtherKey(p, x, acc[m]);
      }
    }
  }

  lemma MergeExistingCovers(p: seq<CartItem>, x: CartItem, acc: seq<CartItem>, i: int)
    requires CoversRows(p, acc)
    requires 0 <= i < |acc| && i == FindRow(acc, RowKey(x))
    ensures CoversRows(p + [x], acc[i := acc[i].(quantity := acc[i].quantity + x.quantity)])
  {
    var acc' := acc[i := acc[i].(quantity := acc[i].quantity + x.quantity)];
    forall j | 0 <= j < |p + [x]|
      ensures FindRow(acc', RowKey((p + [x])[j])) >= 0
    {
      FindRowSameKeys(acc, acc', RowKey((p + [x])[j]));
      if j < |p| {
        assert (p + [x])[j] == p[j];
      }
    }
  }

  /** Merge step where the row's key is new. */
  lemma MergeNew(p: seq<CartItem>, x: CartItem, acc: seq<CartItem>)
    requires Summarises(p, acc)
    requires FindRow(acc, RowKey(x)) < 0
    ensures Summarises(p + [x], MergeRow(acc, x))
  {
    var acc' := acc + [x];
    assert MergeRow(acc, x) == acc';
    UncoveredKeyAbsent(p, acc, RowKey(x));
    MergeNewLines(p, x, acc);
    MergeNewCovers(p, x, acc);
    assert forall m :: 0 <= m < |acc| ==> IsMergedLine(p, acc[m]);
    MergeNewOrder(p, x, acc);
  }

  lemma MergeNewLines(p: seq<CartItem>, x: CartItem, acc: seq<CartItem>)
    requires forall m :: 0 <= m < |acc| ==> IsMergedLine(p, acc[m])
    requires FindRow(acc, RowKey(x)) < 0
    requires FindRow(p, RowKey(x)) < 0
    ensures forall m :: 0 <= m < |acc + [x]| ==> IsMergedLine(p + [x], (acc + [x])[m])
  {
    forall m | 0 <= m < |acc + [x]|
      ensures IsMergedLine(p + [x], (acc + [x])[m])
    {
      if m < |acc| {
        assert (acc + [x])[m] == acc[m];
        MergedLineOtherKey(p, x, acc[m]);
      } else {
        MergedLineFresh(p, x);
      }
    }
  }

  lemma MergeNewCovers(p: seq<CartItem>, x: CartItem, acc: seq<CartItem>)
    requires CoversRows(p, acc)
    ensures CoversRows(p + [x], acc + [x])
  {
    forall j | 0 <= j < |p + [x]|
      ensures FindRow(acc + [x], RowKey((p + [x])[j])) >= 0
    {
      FindRowSnoc(acc, x, RowKey((p + [x])[j]));
      if j < |p| {
        assert (p + [x])[j] == p[j];
      }
    }
  }

  lemma MergeNewOrder(p: seq<CartItem>, x: CartItem, acc: seq<CartItem>)
    requires forall m :: 0 <= m < |acc| ==> FindRow(p, RowKey(acc[m])) >= 0
    requires DistinctRowKeys(acc)
    requires FirstOccurrenceOrder(p, acc)
    requires FindRow(acc, RowKey(x)) < 0
    requires FindRow(p, RowKey(x)) < 0
    ensures DistinctRowKeys(acc + [x])
    ensures FirstOccurrenceOrder(p + [x], acc + [x])
  {
    var acc' := acc + [x];
    FindRowSpec(acc, RowKey(x));
    FirstOccurrenceSnoc(p, x, acc);
    FindRowSnoc(p, x, RowKey(x));
    forall m | 0 <= m < |acc|
      ensures FindRow(p + [x], RowKey(acc'[m])) < FindRow(p + [x], RowKey(x))
      ensures RowKey(acc'[m]) != RowKey(x)
    {
      assert acc'[m] == acc[m];
      FindRowSnoc(p, x, RowKey(acc[m]));
    }
    assert forall m :: 0 <= m < |acc| ==> acc'[m] == acc[m];
  }

  /** The merge keeps one line per product key, each the first row for
      that product with the quantities of all its rows added up, every
      product of the response present, in order of first appearance. */
  lemma {:induction false} DedupSummarises(rows: seq<CartItem>)
    ensures Summarises(rows, Dedup(rows))
  {
    if |rows| > 0 {
      var p := rows[..|rows| - 1];
      var x := rows[|rows| - 1];
      assert rows == p + [x];
      DedupSummarises(p);
      if FindRow(Dedup(p), RowKey(x)) >= 0 {
        MergeExisting(p, x, Dedup(p));
      } else {
        MergeNew(p, x, Dedup(p));
      }
    }
  }

  /** No two lines of the merged cart share a product key. */
  lemma DedupDistinct(rows: seq<CartItem>)
    ensures DistinctRowKeys(Dedup(rows))
  {
    DedupSummarises(rows);
  }

  /** Each merged line carries the total quantity of its product. */
  lemma DedupLineQuantity(rows: seq<CartItem>, i: int)
    requires 0 <= i < |Dedup(rows)|
    ensures Dedup(rows)[i].quantity == QuantityOf(rows, RowKey(Dedup(rows)[i]))
  {
    DedupSummarises(rows);
  }

  /** The merge neither loses nor invents quantity. */
  lemma {:induction false} DedupConservesCount(rows: seq<CartItem>)
    ensures ItemCount(Dedup(rows)) == ItemCount(rows)
  {
    if |rows| > 0 {
      var p := rows[..|rows| - 1];
      var x := rows[|rows| - 1];
      assert rows == p + [x];
      DedupConservesCount(p);
      var acc := Dedup(p);
      var i := FindRow(acc, RowKey(x));
      if i >= 0 {
        ItemCountSetQuantity(acc, i, acc[i].quantity + x.quantity);
      } else {
        ItemCountAppend(acc, x);
      }
    }
  }

  /** A response without duplicates is kept exactly as it is. */
  lemma {:induction false} DedupIdentity(rows: seq<CartItem>)
    requires DistinctRowKeys(rows)
    ensures Dedup(rows) == rows
  {
    if |rows| > 0 {
      var p := rows[..|rows| - 1];
      var x := rows[|rows| - 1];
      assert rows == p + [x];
      DedupIdentity(p);
      assert forall j :: 0 <= j < |p| ==> p[j] == rows[j];
      FindRowSpec(p, RowKey(x));
    }
  }

  /** Merging twice changes nothing more. */
  lemma DedupIdempotent(rows: seq<CartItem>)
    ensures Dedup(Dedup(rows)) == Dedup(rows)
  {
    DedupDistinct(rows);
    DedupIdentity(Dedup(rows));
  }

  /** `loadCartFromBackend`: `fetched` is the GET response, `None` when the
      request fails (the error is only logged). */
  function LoadCart(items: seq<CartItem>, fetched: Option<seq<CartItem>>): (r: seq<CartItem>)
    ensures fetched.None? ==> r == items
    ensures fetched.Some? ==> DistinctRowKeys(r) && ItemCount(r) == ItemCount(fetched.value)
  {
    match fetched
    case None => items
    case Some(rows) =>
      DedupDistinct(rows);
      DedupConservesCount(rows);
      Dedup(rows)
  }

  /** A successful reload replaces the cart wholesale: every line after it
      comes from the response, none from the previous cart. */
  lemma LoadReplaces(items: seq<CartItem>, rows: seq<CartItem>, i: int)
    requires 0 <= i < |LoadCart(items, Some(rows))|
    ensures exists j :: 0 <= j < |rows| &&
             LoadCart(items, Some(rows))[i] == rows[j].(quantity := QuantityOf(rows, RowKey(rows[j])))
  {
    var r := LoadCart(items, Some(rows));
    DedupSummarises(rows);
    var j := FindRow(rows, RowKey(r[i]));
    FindRowSpec(rows, RowKey(r[i]));
  }

  /** The effect run when `user` changes: a signed-in user gets the backend
      cart; a guest gets the saved local cart if one was saved, and
      otherwise keeps the current lines. */
  function OnUserChange(items: seq<CartItem>, session: Session,
                        fetched: Option<seq<CartItem>>,
                        saved: Option<seq<CartItem>>): (r: seq<CartItem>)
    ensures session.SignedIn? ==> r == LoadCart(items, fetched)
    ensures session.Guest? && saved.Some? ==> r == saved.value
    ensures session.Guest? && saved.None? ==> r == items
  {
    match session
    case SignedIn => LoadCart(items, fetched)
    case Guest => if saved.Some? then saved.value else items
  }

  // ---------------------------------------------------------------------
  // Local mutations

  predicate HasLine(items: seq<CartItem>, productId: int) {
    exists i :: 0 <= i < |items| && LineKey(items[i]) == productId
  }

  predicate DistinctLineKeys(items: seq<CartItem>) {
    forall i, j :: 0 <= i < j < |items| ==> LineKey(items[i]) != LineKey(items[j])
  }

  /** The line created for a product not yet in the cart. */
  function NewLine(p: ProductRef): CartItem {
    CartItem(p.id, None, None, p.price, 1)
  }

  /** `addToLocalCart` */
  function AddToLocal(items: seq<CartItem>, p: ProductRef): (r: seq<CartItem>)
    ensures HasLine(items, p.id) ==> |r| == |items|
    ensures HasLine(items, p.id) ==> forall i :: 0 <= i < |items| ==>
      r[i] == if LineKey(items[i]) == p.id then items[i].(quantity := items[i].quantity + 1) else items[i]
    ensures !HasLine(items, p.id) ==> r == items + [NewLine(p)]
  {
    if HasLine(items, p.id) then
      seq(|items|, i requires 0 <= i < |items| =>
        if LineKey(items[i]) == p.id then items[i].(quantity := items[i].quantity + 1) else items[i])
    else items + [NewLine(p)]
  }

  /** The filter shared by the guest removal and the failed-write fallback. */
  function RemoveLocal(items: seq<CartItem>, productId: int): (r: seq<CartItem>)
    ensures |r| <= |items|
    ensures forall x :: x in r <==> x in items && LineKey(x) != productId
  {
    if |items| == 0 then []
    else
      var rest := RemoveLocal(items[1..], productId);
      assert items == [items[0]] + items[1..];
      if LineKey(items[0]) == productId then rest else [items[0]] + rest
  }

  /** `updateLocalQuantity`: absolute set on every matching line. */
  function UpdateLocalQuantity(items: seq<CartItem>, productId: int, q: int): (r: seq<CartItem>)
    ensures |r| == |items|
    ensures forall i :: 0 <= i < |items| ==>
      r[i] == if LineKey(items[i]) == productId then items[i].(quantity := q) else items[i]
  {
    seq(|items|, i requires 0 <= i < |items| =>
      if LineKey(items[i]) == productId then items[i].(quantity := q) else items[i])
  }

  /** `clearCart` */
  function ClearCart(items: seq<CartItem>): (r: seq<CartItem>)
    ensures ItemCount(r) == 0 && CartTotal(r) == 0
  {
    []
  }

  /** A new product adds exactly one unit; so does an existing one, when
      the cart holds one line per product. */
  lemma {:induction false} AddToLocalCount(items: seq<CartItem>, p: ProductRef)
    requires DistinctLineKeys(items)
    ensures ItemCount(AddToLocal(items, p)) == ItemCount(items) + 1
  {
    if HasLine(items, p.id) {
      var i :| 0 <= i < |items| && LineKey(items[i]) == p.id;
      var r := AddToLocal(items, p);
      assert r == items[i := items[i].(quantity := items[i].quantity + 1)];
      ItemCountSetQuantity(items, i, items[i].quantity + 1);
    } else {
      ItemCountAppend(items, NewLine(p));
    }
  }

  /** The local mutations keep one line per product. */
  lemma LocalMutationsKeepKeysDistinct(items: seq<CartItem>, p: ProductRef, productId: int, q: int)
    requires DistinctLineKeys(items)
    ensures DistinctLineKeys(AddToLocal(items, p))
    ensures DistinctLineKeys(UpdateLocalQuantity(items, productId, q))
    ensures DistinctLineKeys(RemoveLocal(items, productId))
  {
    var a := AddToLocal(items, p);
    if HasLine(items, p.id) {
      forall i, j | 0 <= i < j < |a|
        ensures LineKey(a[i]) != LineKey(a[j])
      {
        assert LineKey(a[i]) == LineKey(items[i]) && LineKey(a[j]) == LineKey(items[j]);
      }
    } else {
      forall i, j | 0 <= i < j < |a|
        ensures LineKey(a[i]) != LineKey(a[j])
      {
        if j == |items| {
          assert LineKey(a[j]) == p.id && a[i] == items[i];
        } else {
          assert a[i] == items[i] && a[j] == items[j];
        }
      }
    }
    var u := UpdateLocalQuantity(items, productId, q);
    forall i, j | 0 <= i < j < |u|
      ensures LineKey(u[i]) != LineKey(u[j])
    {
      assert LineKey(u[i]) == LineKey(items[i]) && LineKey(u[j]) == LineKey(items[j]);
    }
    RemoveLocalSubsequence(items, productId);
  }

  /** The lines a removal of `productId` keeps. */
  function OtherLine(productId: int): CartItem -> bool {
    (x: CartItem) => LineKey(x) != productId
  }

  /** The removal is the `filter` on the line key: it keeps the other lines
      in their order, and keeps them one per product. */
  lemma RemoveLocalSubsequence(items: seq<CartItem>, productId: int)
    ensures DistinctLineKeys(items) ==> DistinctLineKeys(RemoveLocal(items, productId))
    ensures RemoveLocal(items, productId) == Filter(items, OtherLine(productId))
    ensures IsSubsequence(RemoveLocal(items, productId), items)
  {
    RemoveLocalIsFilter(items, productId);
    FilterIsSubsequence(items, OtherLine(productId));
    RemoveLocalKeepsDistinct(items, productId);
  }

  lemma {:induction false} RemoveLocalIsFilter(items: seq<CartItem>, productId: int)
    ensures RemoveLocal(items, productId) == Filter(items, OtherLine(productId))
  {
    if |items| > 0 {
      RemoveLocalIsFilter(items[1..], productId);
    }
  }

  lemma {:induction false} RemoveLocalKeepsDistinct(items: seq<CartItem>, productId: int)
    ensures DistinctLineKeys(items) ==> DistinctLineKeys(RemoveLocal(items, productId))
  {
    if |items| > 0 {
      RemoveLocalKeepsDistinct(items[1..], productId);
      if DistinctLineKeys(items) {
        var rest := RemoveLocal(items[1..], productId);
        assert DistinctLineKeys(items[1..]);
        forall j | 0 <= j < |rest|
          ensures LineKey(items[0]) != LineKey(rest[j])
        {
          assert rest[j] in items[1..];
        }
      }
    }
  }

  /** Removing a product that is not in the cart changes nothing. */
  lemma {:induction false} RemoveAbsentIsNoOp(items: seq<CartItem>, productId: int)
    requires !HasLine(items, productId)
    ensures RemoveLocal(items, productId) == items
  {
    if |items| > 0 {
      assert !HasLine(items[1..], productId) by {
        forall i | 0 <= i < |items[1..]|
          ensures LineKey(items[1..][i]) != productId
        {
          assert items[1..][i] == items[i + 1];
        }
      }
      RemoveAbsentIsNoOp(items[1..], productId);
      assert items == [items[0]] + items[1..];
    }
  }

  // ---------------------------------------------------------------------
  // The operations exposed by the provider

  /** `addToCart`: a signed-in user posts to the backend and reloads; the
      local mutation is the guest path and the fallback of a failed post. */
  function AddToCart(items: seq<CartItem>, p: ProductRef, session: Session,
                     write: Write, fetched: Option<seq<CartItem>>): (r: seq<CartItem>)
    ensures session.Guest? || write.WriteFailed? ==> r == AddToLocal(items, p)
    ensures session.SignedIn? && write.Written? ==> r == LoadCart(items, fetched)
  {
    if session.SignedIn? && write.Written? then LoadCart(items, fetched)
    else AddToLocal(items, p)
  }

  /** `removeFromCart`: signed in, nothing happens unless some line matches
      the id; a failed delete falls back to the local filter. */
  function RemoveFromCart(items: seq<CartItem>, productId: int, session: Session,
                          write: Write, fetched: Option<seq<CartItem>>): (r: seq<CartItem>)
    ensures session.Guest? ==> r == RemoveLocal(items, productId)
    ensures session.SignedIn? && !(exists i :: 0 <= i < |items| && Matches(items[i], productId)) ==> r == items
    ensures session.SignedIn? && (exists i :: 0 <= i < |items| && Matches(items[i], productId)) ==>
      r == if write.Written? then LoadCart(items, fetched) else RemoveLocal(items, productId)
  {
    match session
    case Guest => RemoveLocal(items, productId)
    case SignedIn =>
      if !(exists i :: 0 <= i < |items| && Matches(items[i], productId)) then items
      else if write.Written? then LoadCart(items, fetched)
      else RemoveLocal(items, productId)
  }

  /** `updateQuantity`: a quantity of zero or less is a removal; otherwise
      an absolute set, mirrored locally as the guest path and as the
      fallback of a failed update. */
  function UpdateQuantity(items: seq<CartItem>, productId: int, q: int, session: Session,
                          write: Write, fetched: Option<seq<CartItem>>): (r: seq<CartItem>)
    ensures q <= 0 ==> r == RemoveFromCart(items, productId, session, write, fetched)
    ensures q > 0 && session.Guest? ==> r == UpdateLocalQuantity(items, productId, q)
    ensures q > 0 && session.SignedIn? && !(exists i :: 0 <= i < |items| && Matches(items[i], productId)) ==> r == items
    ensures q > 0 && session.SignedIn? && (exists i :: 0 <= i < |items| && Matches(items[i], productId)) ==>
      r == if write.Written? then LoadCart(items, fetched) else UpdateLocalQuantity(items, productId, q)
  {
    if q <= 0 then RemoveFromCart(items, productId, session, write, fetched)
    else match session
      case Guest => UpdateLocalQuantity(items, productId, q)
      case SignedIn =>
        if !(exists i :: 0 <= i < |items| && Matches(items[i], productId)) then items
        else if write.Written? then LoadCart(items, fetched)
        else UpdateLocalQuantity(items, productId, q)
  }

  /** A failed backend write leaves the cart as the guest mutation would. */
  lemma FailedWriteFallsBack(items: seq<CartItem>, p: ProductRef, productId: int, q: int,
                             f1: Option<seq<CartItem>>, f2: Option<seq<CartItem>>)
    requires exists i :: 0 <= i < |items| && Matches(items[i], productId)
    ensures AddToCart(items, p, SignedIn, WriteFailed, f1) == AddToCart(items, p, Guest, Written, f2)
    ensures RemoveFromCart(items, productId, SignedIn, WriteFailed, f1) == RemoveFromCart(items, productId, Guest, Written, f2)
    ensures UpdateQuantity(items, productId, q, SignedIn, WriteFailed, f1) == UpdateQuantity(items, productId, q, Guest, Written, f2)
  {
  }

  /** Starting from one line per product, every guest operation keeps one
      line per product, and every quantity stays positive. */
  lemma GuestOperationsKeepInvariant(items: seq<CartItem>, p: ProductRef, productId: int, q: int)
    requires DistinctLineKeys(items)
    requires forall i :: 0 <= i < |items| ==> items[i].quantity >= 1
    ensures var r := AddToCart(items, p, Guest, Written, None);
      DistinctLineKeys(r) && forall i :: 0 <= i < |r| ==> r[i].quantity >= 1
    ensures var r := RemoveFromCart(items, productId, Guest, Written, None);
      DistinctLineKeys(r) && forall i :: 0 <= i < |r| ==> r[i].quantity >= 1
    ensures var r := UpdateQuantity(items, productId, q, Guest, Written, None);
      DistinctLineKeys(r) && forall i :: 0 <= i < |r| ==> r[i].quantity >= 1
  {
    LocalMutationsKeepKeysDistinct(items, p, productId, q);
    var r := RemoveLocal(items, productId);
    forall i | 0 <= i < |r|
      ensures r[i].quantity >= 1
    {
      assert r[i] in items;
    }
  }
}
