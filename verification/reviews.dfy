/** The review routes of the backend over a store of reviews keyed by id:
    creating (one review per user and product), author-only update and
    delete, the rating summary and the product listing. */
module Reviews {
  import opened Wrappers
  import opened Seqs
  import opened Sorting
  import opened Tables
  import AdminApi

  /** A stored review; `createdAt` is the creation time as a number. */
  datatype Review = Review(
    userId: int,
    productId: int,
    rating: int,
    title: Option<string>,
    comment: Option<string>,
    isApproved: bool,
    createdAt: int)

  const ProductNotFound: HttpError := AdminApi.ProductNotFound
  const AlreadyReviewed: HttpError := HttpError(400, "You have already reviewed this product")
  const ReviewNotFound: HttpError := HttpError(404, "Review not found")
  const NotAuthorToUpdate: HttpError := HttpError(403, "Not authorized to update this review")
  const NotAuthorToDelete: HttpError := HttpError(403, "Not authorized to delete this review")

  predicate HasReviewed(store: map<int, Review>, userId: int, productId: int) {
    exists id :: id in store && store[id].userId == userId && store[id].productId == productId
  }

  /** The store holds at most one review per user and product. */
  ghost predicate OnePerUserAndProduct(store: map<int, Review>) {
    forall a, b ::
      a in store && b in store && store[a].userId == store[b].userId && store[a].productId == store[b].productId
      ==> a == b
  }

  /** The body of a create request. */
  datatype ReviewInput = ReviewInput(productId: int, rating: int, title: Option<string>, comment: Option<string>)

  /** `create_review`. `products` holds the ids of the product table,
      `freshId` the id the database assigns, `approved` the column default
      and `now` the clock. */
  function CreateReview(store: map<int, Review>, products: set<int>, userId: int, input: ReviewInput,
                        freshId: int, approved: bool, now: int): (r: (Result<Row<Review>, HttpError>, map<int, Review>))
    requires freshId !in store
    ensures r.0.Ok? <==> input.productId in products && !HasReviewed(store, userId, input.productId)
    ensures input.productId !in products ==> r == (Err(ProductNotFound), store)
    ensures input.productId in products && HasReviewed(store, userId, input.productId) ==>
      r == (Err(AlreadyReviewed), store)
    ensures r.0.Ok? ==>
      && r.0.value.id == freshId
      && r.0.value.value == Review(userId, input.productId, input.rating, input.title, input.comment, approved, now)
      && r.1 == store[freshId := r.0.value.value]
  {
    if input.productId !in products then (Err(ProductNotFound), store)
    else if HasReviewed(store, userId, input.productId) then (Err(AlreadyReviewed), store)
    else
      var review := Review(userId, input.productId, input.rating, input.title, input.comment, approved, now);
      (Ok(Row(freshId, review)), store[freshId := review])
  }

  /** Creating keeps one review per user and product, and a second create
      by the same user for the same product is refused with 400. */
  lemma CreateKeepsOnePerPair(store: map<int, Review>, products: set<int>, userId: int, input: ReviewInput,
                              freshId: int, approved: bool, now: int, again: ReviewInput, freshId2: int)
    requires freshId !in store
    requires OnePerUserAndProduct(store)
    requires again.productId == input.productId
    ensures OnePerUserAndProduct(CreateReview(store, products, userId, input, freshId, approved, now).1)
    ensures var after := CreateReview(store, products, userId, input, freshId, approved, now).1;
      freshId2 !in after ==>
        CreateReview(after, products, userId, again, freshId2, approved, now).0 ==
          Err(if input.productId in products then AlreadyReviewed else ProductNotFound)
  {
    var r := CreateReview(store, products, userId, input, freshId, approved, now);
    if r.0.Ok? {
      assert r.1[freshId].userId == userId && r.1[freshId].productId == input.productId;
    }
  }

  /** The fields an update may set; absent fields were not sent. */
  datatype ReviewPatch = ReviewPatch(rating: Option<int>, title: Option<Option<string>>, comment: Option<Option<string>>)

  /** `update_review` by `userId`. */
  function UpdateReview(store: map<int, Review>, id: int, userId: int, patch: ReviewPatch)
    : (r: (Result<Review, HttpError>, map<int, Review>))
    ensures id !in store ==> r == (Err(ReviewNotFound), store)
    ensures id in store && store[id].userId != userId ==> r == (Err(NotAuthorToUpdate), store)
    ensures r.0.Ok? <==> id in store && store[id].userId == userId
    ensures r.0.Ok? ==>
      && r.1 == store[id := r.0.value]
      && r.0.value.userId == store[id].userId
      && r.0.value.productId == store[id].productId
      && r.0.value.isApproved == store[id].isApproved
      && r.0.value.createdAt == store[id].createdAt
      && r.0.value.rating == (if patch.rating.Some? then patch.rating.value else store[id].rating)
      && r.0.value.title == (if patch.title.Some? then patch.title.value else store[id].title)
      && r.0.value.comment == (if patch.comment.Some? then patch.comment.value else store[id].comment)
  {
    if id !in store then (Err(ReviewNotFound), store)
    else if store[id].userId != userId then (Err(NotAuthorToUpdate), store)
    else
      var cur := store[id];
      var next := cur.(rating := AdminApi.Patched(patch.rating, cur.rating),
                       title := AdminApi.Patched(patch.title, cur.title),
                       comment := AdminApi.Patched(patch.comment, cur.comment));
      (Ok(next), store[id := next])
  }

  /** An update keeps one review per user and product, and an empty patch
      by the author changes nothing. */
  lemma UpdateLaws(store: map<int, Review>, id: int, userId: int, patch: ReviewPatch)
    requires OnePerUserAndProduct(store)
    ensures OnePerUserAndProduct(UpdateReview(store, id, userId, patch).1)
    ensures UpdateReview(store, id, userId, ReviewPatch(None, None, None)).1 == store
  {
    var after := UpdateReview(store, id, userId, patch).1;
    if id in store && store[id].userId == userId {
      forall a, b | a in after && b in after && after[a].userId == after[b].userId &&
        after[a].productId == after[b].productId
        ensures a == b
      {
        assert after[a].userId == store[a].userId && after[a].productId == store[a].productId;
        assert after[b].userId == store[b].userId && after[b].productId == store[b].productId;
      }
      assert store[id := store[id]] == store;
    }
  }

  /** `delete_review` by `userId`. */
  function DeleteReview(store: map<int, Review>, id: int, userId: int): (r: (Result<string, HttpError>, map<int, Review>))
    ensures id !in store ==> r == (Err(ReviewNotFound), store)
    ensures id in store && store[id].userId != userId ==> r == (Err(NotAuthorToDelete), store)
    ensures r.0.Ok? <==> id in store && store[id].userId == userId
    ensures r.0.Ok? ==> r.1.Keys == store.Keys - {id} && forall k :: k in r.1 ==> r.1[k] == store[k]
  {
    if id !in store then (Err(ReviewNotFound), store)
    else if store[id].userId != userId then (Err(NotAuthorToDelete), store)
    else (Ok("Review deleted successfully"), store - {id})
  }

  /** After deleting their review of a product, the author may review it
      again. */
  lemma DeleteThenReviewAgain(store: map<int, Review>, products: set<int>, id: int, userId: int,
                              input: ReviewInput, freshId: int, approved: bool, now: int)
    requires OnePerUserAndProduct(store)
    requires id in store && store[id].userId == userId
    requires input.productId == store[id].productId && input.productId in products
    requires freshId !in store - {id}
    ensures DeleteReview(store, id, userId).0.Ok?
    ensures CreateReview(DeleteReview(store, id, userId).1, products, userId, input, freshId, approved, now).0.Ok?
  {
  }

  // ----- Summary -----

  function Approved(productId: int): Row<Review> -> bool {
    (x: Row<Review>) => x.value.productId == productId && x.value.isApproved
  }

  function ApprovedWithRating(productId: int, rating: int): Row<Review> -> bool {
    (x: Row<Review>) => x.value.productId == productId && x.value.isApproved && x.value.rating == rating
  }

  /** Approved reviews of the product whose rating is not one of 1..5. */
  function ApprovedOffScale(productId: int): Row<Review> -> bool {
    (x: Row<Review>) => x.value.productId == productId && x.value.isApproved && !(1 <= x.value.rating <= 5)
  }

  /** Sum of the ratings of the approved reviews of a product. */
  function RatingSum(s: seq<Row<Review>>, productId: int): int {
    if |s| == 0 then 0
    else (if Approved(productId)(s[0]) then s[0].value.rating else 0) + RatingSum(s[1..], productId)
  }

  /** SQL `avg` over `n` values summing to `sum`, with `or 0` for none. */
  function Mean(sum: int, n: nat): (m: real)
    ensures n == 0 ==> m == 0.0
    ensures n > 0 ==> m * (n as real) == sum as real
  {
    if n == 0 then 0.0 else sum as real / n as real
  }

  /** The rating buckets 1..5 of the approved reviews of a product. */
  function Distribution(rows: seq<Row<Review>>, productId: int): (d: map<int, nat>)
    ensures d.Keys == {1, 2, 3, 4, 5}
    ensures forall k :: k in d ==> d[k] == Count(rows, ApprovedWithRating(productId, k))
  {
    map[1 := Count(rows, ApprovedWithRating(productId, 1)),
        2 := Count(rows, ApprovedWithRating(productId, 2)),
        3 := Count(rows, ApprovedWithRating(productId, 3)),
        4 := Count(rows, ApprovedWithRating(productId, 4)),
        5 := Count(rows, ApprovedWithRating(productId, 5))]
  }

  datatype Summary = Summary(productId: int, total: nat, average: real, distribution: map<int, nat>)

  /** `get_product_review_summary`. The average is kept exact; the
      distribution is keyed by the ratings 1..5. */
  function ReviewSummary(store: map<int, Review>, products: set<int>, productId: int): (r: Result<Summary, HttpError>)
    ensures productId !in products <==> r == Err(ProductNotFound)
    ensures r.Ok? ==>
      && r.value.productId == productId
      && r.value.total == Count(Rows(store), Approved(productId))
      && r.value.distribution.Keys == {1, 2, 3, 4, 5}
      && (forall k :: k in r.value.distribution ==>
            r.value.distribution[k] == Count(Rows(store), ApprovedWithRating(productId, k)))
      && r.value.average == Mean(RatingSum(Rows(store), productId), r.value.total)
  {
    if productId !in products then Err(ProductNotFound)
    else
      var rows := Rows(store);
      var total := Count(rows, Approved(productId));
      Ok(Summary(productId, total, Mean(RatingSum(rows, productId), total), Distribution(rows, productId)))
  }

  /** Every approved review lands in exactly one bucket of the
      distribution or is off the 1..5 scale. */
  lemma {:induction false} CountSplitsByRating(s: seq<Row<Review>>, productId: int)
    ensures Count(s, Approved(productId)) ==
      Count(s, ApprovedWithRating(productId, 1)) + Count(s, ApprovedWithRating(productId, 2)) +
      Count(s, ApprovedWithRating(productId, 3)) + Count(s, ApprovedWithRating(productId, 4)) +
      Count(s, ApprovedWithRating(productId, 5)) + Count(s, ApprovedOffScale(productId))
  {
    if |s| > 0 {
      CountSplitsByRating(s[1..], productId);
    }
  }

  function DistributionSum(d: map<int, nat>): int
    requires d.Keys == {1, 2, 3, 4, 5}
  {
    d[1] + d[2] + d[3] + d[4] + d[5]
  }

  /** The approved reviews of a product are all on the 1..5 scale exactly
      when none is counted off the scale. */
  lemma OffScaleCount(store: map<int, Review>, productId: int)
    ensures Count(Rows(store), ApprovedOffScale(productId)) == 0 <==>
      forall id :: id in store && store[id].productId == productId && store[id].isApproved ==>
        1 <= store[id].rating <= 5
  {
    var rows := Rows(store);
    if Count(rows, ApprovedOffScale(productId)) == 0 {
      forall id | id in store && store[id].productId == productId && store[id].isApproved
        ensures 1 <= store[id].rating <= 5
      {
        var x := Row(id, store[id]);
        assert x in rows;
        var i :| 0 <= i < |rows| && rows[i] == x;
        assert !ApprovedOffScale(productId)(rows[i]);
      }
    } else {
      var i :| 0 <= i < |rows| && ApprovedOffScale(productId)(rows[i]);
      var x := rows[i];
      assert x in rows;
      assert x.id in store && store[x.id] == x.value;
    }
  }

  /** The distribution adds up to the total exactly when no approved review
      of the product has a rating outside 1..5; the route itself does not
      check the range, so such a review is counted in the total only. */
  lemma DistributionAddsUp(store: map<int, Review>, products: set<int>, productId: int, s: Summary)
    requires ReviewSummary(store, products, productId) == Ok(s)
    ensures DistributionSum(s.distribution) <= s.total
    ensures DistributionSum(s.distribution) == s.total <==>
      forall id :: id in store && store[id].productId == productId && store[id].isApproved ==>
        1 <= store[id].rating <= 5
  {
    CountSplitsByRating(Rows(store), productId);
    OffScaleCount(store, productId);
  }

  // ----- Listing -----

  /** `order_by(desc(created_at))`: newer first; the order among reviews
      with equal times is not specified. */
  predicate Newer(a: Row<Review>, b: Row<Review>) {
    a.value.createdAt >= b.value.createdAt
  }

  lemma NewerIsTotalPreorder()
    ensures TotalPreorder(Newer)
  {
  }

  /** The approved reviews of a product, newest first. */
  function NewestFirst(store: map<int, Review>, productId: int): (r: seq<Row<Review>>)
    ensures multiset(r) == multiset(Filter(Rows(store), Approved(productId)))
    ensures |r| == Count(Rows(store), Approved(productId))
    ensures SortedBy(r, Newer)
    ensures forall x :: x in r ==>
      x.id in store && x.value == store[x.id] && x.value.productId == productId && x.value.isApproved
  {
    NewerIsTotalPreorder();
    var kept := Filter(Rows(store), Approved(productId));
    var sorted := InsertionSort(kept, Newer);
    CountIsFilterLength(Rows(store), Approved(productId));
    assert |sorted| == |kept| by {
      assert |multiset(sorted)| == |multiset(kept)|;
    }
    forall x | x in sorted
      ensures x in kept
    {
      assert x in multiset(sorted);
    }
    sorted
  }

  /** A page of a sorted list is sorted. */
  lemma PageKeepsOrder(s: seq<Row<Review>>, skip: nat, limit: nat)
    requires SortedBy(s, Newer)
    ensures SortedBy(Page(s, skip, limit), Newer)
  {
    var p := Page(s, skip, limit);
    forall i, j | 0 <= i < j < |p|
      ensures Newer(p[i], p[j])
    {
      assert p[i] == s[skip + i] && p[j] == s[skip + j];
    }
  }

  /** `get_product_reviews` */
  function ListReviews(store: map<int, Review>, products: set<int>, productId: int, skip: nat, limit: nat)
    : (r: Result<seq<Row<Review>>, HttpError>)
    ensures productId !in products <==> r == Err(ProductNotFound)
    ensures r.Ok? ==> var n := Count(Rows(store), Approved(productId));
      |r.value| == if skip >= n then 0 else if n - skip < limit then n - skip else limit
    ensures r.Ok? ==> forall i :: 0 <= i < |r.value| ==> r.value[i] == NewestFirst(store, productId)[skip + i]
    ensures r.Ok? ==> forall x :: x in r.value ==>
      x.id in store && x.value == store[x.id] && x.value.productId == productId && x.value.isApproved
    ensures r.Ok? ==> SortedBy(r.value, Newer)
  {
    if productId !in products then Err(ProductNotFound)
    else
      ReviewPage(store, productId, skip, limit);
      Ok(Page(NewestFirst(store, productId), skip, limit))
  }

  /** What a page of the newest-first list holds. */
  lemma ReviewPage(store: map<int, Review>, productId: int, skip: nat, limit: nat)
    ensures var r := Page(NewestFirst(store, productId), skip, limit);
      var n := Count(Rows(store), Approved(productId));
      && |r| == (if skip >= n then 0 else if n - skip < limit then n - skip else limit)
      && (forall x :: x in r ==>
            x.id in store && x.value == store[x.id] && x.value.productId == productId && x.value.isApproved)
      && SortedBy(r, Newer)
  {
    var sorted := NewestFirst(store, productId);
    PageKeepsOrder(sorted, skip, limit);
  }

  /** With no offset and a limit covering the store, the listing holds every
      approved review of the product and nothing else, each once. */
  lemma ListingIsComplete(store: map<int, Review>, products: set<int>, productId: int, limit: nat)
    requires productId in products && limit >= |store|
    ensures var r := ListReviews(store, products, productId, 0, limit).value;
      && |r| == Count(Rows(store), Approved(productId))
      && forall id :: Row(id, if id in store then store[id] else Review(0, 0, 0, None, None, false, 0)) in r <==>
           id in store && store[id].productId == productId && store[id].isApproved
  {
    var rows := Rows(store);
    var kept := Filter(rows, Approved(productId));
    var sorted := NewestFirst(store, productId);
    CountIsFilterLength(rows, Approved(productId));
    PageAll(sorted, limit);
    forall id
      ensures Row(id, if id in store then store[id] else Review(0, 0, 0, None, None, false, 0)) in sorted <==>
        id in store && store[id].productId == productId && store[id].isApproved
    {
      var x := Row(id, if id in store then store[id] else Review(0, 0, 0, None, None, false, 0));
      assert x in sorted <==> x in multiset(sorted);
      assert x in kept <==> x in multiset(kept);
    }
  }

  /** `skip` is an offset into the one newest-first list: the page at
      `skip + a` continues the page at `skip` where it stopped. */
  lemma ReviewPagesConcatenate(store: map<int, Review>, products: set<int>, productId: int, skip: nat, a: nat, b: nat)
    requires productId in products
    ensures ListReviews(store, products, productId, skip, a).value
            + ListReviews(store, products, productId, skip + a, b).value
            == ListReviews(store, products, productId, skip, a + b).value
  {
    PagesConcatenate(NewestFirst(store, productId), skip, a, b);
  }
}
