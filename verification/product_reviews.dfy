/** The review widgets of the product page: the star rating, the review
    form's submit handler and the distribution lookup of the summary. */
module ProductReviews {
  import opened Wrappers
  import opened Seqs
  import opened Tables
  import Reviews

  const StarCount: nat := 5
  const LoginToReview: string := "Please login to submit a review"
  const SelectRating: string := "Please select a rating"
  const SubmitFailed: string := "Failed to submit review. Please try again."

  /** The value the stars show: the hovered star when there is one, else the
      rating (`hover || rating`). */
  function Shown(hover: int, rating: int): int {
    if hover != 0 then hover else rating
  }

  /** `StarRating`: whether each of the five stars is filled. */
  function Stars(hover: int, rating: int): (r: seq<bool>)
    ensures |r| == StarCount
    ensures forall i :: 0 <= i < |r| ==> (r[i] <==> i + 1 <= Shown(hover, rating))
  {
    seq(StarCount, i requires 0 <= i < StarCount => i + 1 <= Shown(hover, rating))
  }

  function Filled(b: bool): bool {
    b
  }

  /** The filled stars are a prefix, as many as the shown value clamped to
      0..5. */
  lemma {:induction false} StarsFilledPrefix(hover: int, rating: int)
    ensures forall i, j :: 0 <= i < j < StarCount ==> Stars(hover, rating)[j] ==> Stars(hover, rating)[i]
    ensures Count(Stars(hover, rating), Filled) ==
      if Shown(hover, rating) < 0 then 0 else if Shown(hover, rating) > 5 then 5 else Shown(hover, rating)
  {
    var s := Stars(hover, rating);
    var v := Shown(hover, rating);
    assert s[1..][1..][1..][1..][1..] == [];
    assert Count(s[1..][1..][1..][1..], Filled) == (if v >= 5 then 1 else 0);
    assert Count(s[1..][1..][1..], Filled) == (if v >= 4 then 1 else 0) + (if v >= 5 then 1 else 0);
    assert Count(s[1..][1..], Filled) ==
      (if v >= 3 then 1 else 0) + (if v >= 4 then 1 else 0) + (if v >= 5 then 1 else 0);
    assert Count(s[1..], Filled) ==
      (if v >= 2 then 1 else 0) + (if v >= 3 then 1 else 0) + (if v >= 4 then 1 else 0) + (if v >= 5 then 1 else 0);
  }

  /** The review form's fields. */
  datatype Form = Form(rating: int, title: string, comment: string, error: string)

  /** The body `handleSubmit` posts. */
  function Payload(productId: int, f: Form): (p: Reviews.ReviewInput)
    ensures p.productId == productId && p.rating == f.rating
    ensures p.title == OrNull(f.title) && p.comment == OrNull(f.comment)
  {
    Reviews.ReviewInput(productId, f.rating, OrNull(f.title), OrNull(f.comment))
  }

  /** What `handleSubmit` did: the request it posted, if any, and the form
      afterwards. */
  datatype Submitted = Submitted(request: Option<Reviews.ReviewInput>, form: Form)

  /** `handleSubmit`. `response` is the outcome of the post when one is
      made: `None` for success, else the error detail ("" when absent). */
  function HandleSubmit(signedIn: bool, productId: int, f: Form, response: Option<string>): (r: Submitted)
    ensures r.request.Some? <==> signedIn && f.rating != 0
    ensures !signedIn ==> r.form == f.(error := LoginToReview)
    ensures signedIn && f.rating == 0 ==> r.form == f.(error := SelectRating)
    ensures r.request.Some? ==> r.request.value == Payload(productId, f)
    ensures r.request.Some? && response.None? ==> r.form == Form(0, "", "", "")
    ensures r.request.Some? && response.Some? ==>
      r.form == f.(error := if response.value != "" then response.value else SubmitFailed)
  {
    if !signedIn then Submitted(None, f.(error := LoginToReview))
    else if f.rating == 0 then Submitted(None, f.(error := SelectRating))
    else
      match response
      case None => Submitted(Some(Payload(productId, f)), Form(0, "", "", ""))
      case Some(detail) =>
        Submitted(Some(Payload(productId, f)), f.(error := if detail != "" then detail else SubmitFailed))
  }

  /** The submit button: disabled while loading or without a rating. */
  predicate SubmitDisabled(loading: bool, rating: int) {
    loading || rating == 0
  }

  /** The button and the handler agree: an enabled button posts for a
      signed-in user, and after a successful post the button is disabled
      again until a new rating is chosen. */
  lemma ButtonAndHandlerAgree(productId: int, f: Form, response: Option<string>)
    requires !SubmitDisabled(false, f.rating)
    ensures HandleSubmit(true, productId, f, response).request.Some?
    ensures response.None? ==> SubmitDisabled(false, HandleSubmit(true, productId, f, response).form.rating)
  {
  }

  /** A posted form with an empty title and comment creates a review without
      them; the rating and product are those of the form. */
  lemma PostedReviewIsStored(store: map<int, Reviews.Review>, products: set<int>, userId: int, productId: int,
                             f: Form, freshId: int, approved: bool, now: int)
    requires freshId !in store
    requires productId in products && !Reviews.HasReviewed(store, userId, productId)
    requires f.rating != 0
    ensures var p := HandleSubmit(true, productId, f, None).request.value;
      var created := Reviews.CreateReview(store, products, userId, p, freshId, approved, now).0;
      && created.Ok?
      && created.value.value.rating == f.rating
      && created.value.value.productId == productId
      && (created.value.value.title.None? <==> f.title == "")
      && (created.value.value.comment.None? <==> f.comment == "")
  {
  }

  /** `summary.rating_distribution[rating] || 0` */
  function DistributionCount(d: map<int, nat>, rating: int): (n: nat)
    ensures rating !in d ==> n == 0
    ensures rating in d ==> n == d[rating]
  {
    if rating in d then d[rating] else 0
  }

  /** Each bar shows the number of approved reviews with that rating. */
  lemma BarsShowBackendCounts(store: map<int, Reviews.Review>, products: set<int>, productId: int,
                              s: Reviews.Summary, rating: int)
    requires Reviews.ReviewSummary(store, products, productId) == Ok(s)
    ensures 1 <= rating <= 5 ==>
      DistributionCount(s.distribution, rating) == Count(Rows(store), Reviews.ApprovedWithRating(productId, rating))
    ensures !(1 <= rating <= 5) ==> DistributionCount(s.distribution, rating) == 0
  {
    var keys := s.distribution.Keys;
    assert keys == {1, 2, 3, 4, 5};
    assert rating in keys <==> 1 <= rating <= 5;
  }
}
