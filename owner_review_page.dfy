/** The business owner's review page of src/app/business-owner/review/review.page.ts:
    the list of reviews held by `reviewsSubject`, loading it with the reply
    drafts cleared, answering one review, and the star array of the
    template. Firestore reads and writes are inputs: the reviews of one
    emission of the query, and whether `updateDoc` succeeded. */
module OwnerReviewPage {
  import opened Wrappers

  /** A review as the page holds it. `ownerReply` is the reply's text (its
      timestamp is not modelled); `tempReplyText` is the owner's draft. */
  datatype Review = Review(
    id: Option<string>, userId: string, text: string, stars: int, createdAt: int,
    ownerReply: Option<string>, tempReplyText: Option<string>)

  /** JavaScript truthiness of an optional string: present and non-empty. */
  predicate Truthy(s: Option<string>) {
    s.Some? && s.value != []
  }

  /** The `map` of `replyToReview`: the reviews with the given id get the
      reply and an empty draft; the others are returned as they are. */
  function Replied(reviews: seq<Review>, id: string, reply: string): seq<Review> {
    seq(|reviews|, i requires 0 <= i < |reviews| =>
      var r := reviews[i];
      if r.id == Some(id) then r.(ownerReply := Some(reply), tempReplyText := Some("")) else r)
  }

  /** Only the reviews with the matching id change, and of those only the
      reply and the draft; the length and the order of the list are kept. */
  lemma RepliedOnlyMatching(reviews: seq<Review>, id: string, reply: string)
    ensures var out := Replied(reviews, id, reply);
      |out| == |reviews|
      && (forall i :: 0 <= i < |out| && reviews[i].id != Some(id) ==> out[i] == reviews[i])
      && (forall i :: 0 <= i < |out| && reviews[i].id == Some(id) ==>
            out[i].ownerReply == Some(reply) && out[i].tempReplyText == Some("")
            && out[i].(ownerReply := reviews[i].ownerReply, tempReplyText := reviews[i].tempReplyText) == reviews[i])
  {
  }

  /** Answering the same review twice with the same text is answering it once. */
  lemma RepliedIdempotent(reviews: seq<Review>, id: string, reply: string)
    ensures Replied(Replied(reviews, id, reply), id, reply) == Replied(reviews, id, reply)
  {
  }

  /** A list in which no review has the id is left unchanged. */
  lemma RepliedAbsent(reviews: seq<Review>, id: string, reply: string)
    requires forall i :: 0 <= i < |reviews| ==> reviews[i].id != Some(id)
    ensures Replied(reviews, id, reply) == reviews
  {
  }

  /** `getStarArray`: `Array(rating).fill(0)`. `Array(n)` throws a
      `RangeError` unless `n` is an integer in [0, 2^32 - 1]; otherwise the
      array has `n` zeros. */
  function GetStarArray(rating: real): (r: Result<seq<int>>)
    ensures r.Ok? <==> rating == rating.Floor as real && 0 <= rating.Floor < 0x1_0000_0000
    ensures r.Ok? ==> |r.value| as real == rating && forall i :: 0 <= i < |r.value| ==> r.value[i] == 0
  {
    if rating == rating.Floor as real && 0 <= rating.Floor < 0x1_0000_0000 then
      Ok(seq(rating.Floor, i => 0))
    else
      Err("RangeError: Invalid array length")
  }

  class Page {
    /** The current value of `reviewsSubject`. */
    var reviews: seq<Review>
    var restaurantId: string
    var hasReviews: bool
    var isLoading: bool

    constructor()
      ensures reviews == [] && restaurantId == [] && !hasReviews && !isLoading
    {
      reviews := [];
      restaurantId := [];
      hasReviews := false;
      isLoading := false;
    }

    /** `loadReviews` with one emission of the query. Without a restaurant id
        nothing happens. A failed query only clears `isLoading`. Otherwise the
        emitted reviews (newest first, in the query's order) are shown with
        every draft set to '', `hasReviews` says whether there are any, and
        `isLoading` is cleared. */
    method LoadReviews(emitted: Result<seq<Review>>)
      modifies this
      ensures restaurantId == old(restaurantId)
      ensures restaurantId == [] ==>
        reviews == old(reviews) && hasReviews == old(hasReviews) && isLoading == old(isLoading)
      ensures restaurantId != [] ==> !isLoading
      ensures restaurantId != [] && emitted.Err? ==>
        reviews == old(reviews) && hasReviews == old(hasReviews)
      ensures restaurantId != [] && emitted.Ok? ==>
        hasReviews == (|emitted.value| > 0)
        && |reviews| == |emitted.value|
        && forall i :: 0 <= i < |reviews| ==> reviews[i] == emitted.value[i].(tempReplyText := Some(""))
    {
      if restaurantId == [] {
        return;
      }
      isLoading := true;
      if emitted.Err? {
        isLoading := false;
        return;
      }
      var rs := emitted.value;
      hasReviews := |rs| > 0;
      isLoading := false;
      var i := 0;
      while i < |rs|
        invariant i <= |rs| && |rs| == |emitted.value|
        invariant forall j :: 0 <= j < i ==> rs[j] == emitted.value[j].(tempReplyText := Some(""))
        invariant forall j :: i <= j < |rs| ==> rs[j] == emitted.value[j]
      {
        rs := rs[i := rs[i].(tempReplyText := Some(""))];
        i := i + 1;
      }
      reviews := rs;
    }

    /** `replyToReview`: nothing without a review id, a draft or a restaurant
        id; nothing when the write fails; otherwise the local list is
        `Replied` with the draft. */
    method ReplyToReview(review: Review, writeSucceeds: bool)
      modifies this
      ensures restaurantId == old(restaurantId) && hasReviews == old(hasReviews)
      ensures isLoading == old(isLoading)
      ensures !Truthy(review.id) || !Truthy(review.tempReplyText) || restaurantId == [] || !writeSucceeds ==>
        reviews == old(reviews)
      ensures Truthy(review.id) && Truthy(review.tempReplyText) && restaurantId != [] && writeSucceeds ==>
        reviews == Replied(old(reviews), review.id.value, review.tempReplyText.value)
    {
      if !Truthy(review.id) || !Truthy(review.tempReplyText) || restaurantId == [] {
        return;
      }
      if !writeSucceeds {
        return;
      }
      reviews := Replied(reviews, review.id.value, review.tempReplyText.value);
    }
  }
}
