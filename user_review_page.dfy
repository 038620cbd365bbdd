/** The metrics of a restaurant's review page for customers,
    src/app/user/review/review.page.ts: the loaded reviews newest first, their
    count, the average rating to one decimal, and the five-star display. The
    query result is an input. */
module UserReviewPage {
  import opened Wrappers
  import opened Numbers
  import Sorting

  /** A stored review; `createdAt` is its Firestore timestamp in seconds. */
  datatype Review = Review(text: string, stars: int, userId: string, createdAt: int, id: Option<string>)

  /** A query result document: its id and its data. */
  datatype ReviewDoc = ReviewDoc(id: string, data: Review)

  function StarsOf(r: Review): int {
    r.stars
  }

  function Stars(reviews: seq<Review>): (s: seq<int>)
    ensures |s| == |reviews| && forall i :: 0 <= i < |s| ==> s[i] == reviews[i].stars
  {
    Sorting.Project(reviews, StarsOf)
  }

  /** The rating `calculateAverageRating` stores: 0 for no reviews, otherwise
      `Number((sum / n).toFixed(1))`. */
  function AverageRating(reviews: seq<Review>): real {
    MeanTenth(Stars(reviews))
  }

  /** With star ratings in 1..5 the average lies in [1, 5], and with no
      reviews it is 0. */
  lemma AverageRatingBounds(reviews: seq<Review>)
    requires forall i :: 0 <= i < |reviews| ==> 1 <= reviews[i].stars <= 5
    ensures reviews == [] ==> AverageRating(reviews) == 0.0
    ensures reviews != [] ==> 1.0 <= AverageRating(reviews) <= 5.0
  {
    MeanTenthBounds(Stars(reviews), 1, 5);
  }

  /** The average is within half a tenth of the exact mean. */
  lemma AverageRatingNearMean(reviews: seq<Review>)
    requires forall i :: 0 <= i < |reviews| ==> 1 <= reviews[i].stars <= 5
    requires reviews != []
    ensures var mean := Sum(Stars(reviews)) as real / |reviews| as real;
      -1.0 / 20.0 < AverageRating(reviews) - mean <= 1.0 / 20.0
  {
    MeanBounds(Stars(reviews), 1, 5);
  }

  /** `getStars`: five entries, 1 where `index < Math.round(rating)`. */
  function GetStars(rating: real): (r: seq<int>)
    ensures |r| == 5
  {
    seq(5, i requires 0 <= i < 5 => if i < Round(rating) then 1 else 0)
  }

  function Filled(k: nat): seq<int>
    requires k <= 5
  {
    seq(k, i => 1) + seq(5 - k, i => 0)
  }

  /** The stars are `round(rating)` ones, clamped to [0, 5], then zeros. */
  lemma GetStarsFilled(rating: real)
    ensures var k := Round(rating);
      var n := if k < 0 then 0 else if k > 5 then 5 else k;
      GetStars(rating) == Filled(n)
  {
    var k := Round(rating);
    var n := if k < 0 then 0 else if k > 5 then 5 else k;
    var r := GetStars(rating);
    forall i | 0 <= i < 5 ensures r[i] == Filled(n)[i] {
      if i < n {
        assert Filled(n)[i] == seq(n, j => 1)[i];
      } else {
        assert Filled(n)[i] == seq(5 - n, j => 0)[i - n];
      }
    }
  }

  function CreatedAt(r: Review): real {
    r.createdAt as real
  }

  /** `{...data, id: doc.id}` for every document, in query order. */
  function WithIds(docs: seq<ReviewDoc>): (r: seq<Review>)
    ensures |r| == |docs|
    ensures forall i :: 0 <= i < |r| ==> r[i] == docs[i].data.(id := Some(docs[i].id))
  {
    seq(|docs|, i requires 0 <= i < |docs| => docs[i].data.(id := Some(docs[i].id)))
  }

  class Page {
    var restaurantId: string
    var reviews: seq<Review>
    var averageRating: real
    var totalReviews: nat

    /** `restaurantId` is the route's `id`, or '' without one. */
    constructor(routeId: Option<string>)
      ensures restaurantId == (if routeId.Some? then routeId.value else "")
      ensures reviews == [] && averageRating == 0.0 && totalReviews == 0
    {
      restaurantId := if routeId.Some? then routeId.value else "";
      reviews := [];
      averageRating := 0.0;
      totalReviews := 0;
    }

    /** `calculateAverageRating`. */
    method CalculateAverageRating()
      modifies this
      ensures averageRating == AverageRating(reviews)
      ensures reviews == old(reviews) && totalReviews == old(totalReviews)
      ensures restaurantId == old(restaurantId)
    {
      if |reviews| == 0 {
        averageRating := 0.0;
        return;
      }
      var sum := Sum(Stars(reviews));
      averageRating := RoundTenth(sum as real / |reviews| as real);
    }

    /** `loadReviews`: nothing without a restaurant id; a failed query (an
        alert) leaves the page as it was; otherwise the reviews newest first,
        their count and their average. */
    method LoadReviews(query: Result<seq<ReviewDoc>>)
      modifies this
      ensures restaurantId == old(restaurantId)
      ensures restaurantId == [] || query.Err? ==>
        reviews == old(reviews) && totalReviews == old(totalReviews)
        && averageRating == old(averageRating)
      ensures restaurantId != [] && query.Ok? ==>
        reviews == Sorting.SortDesc(WithIds(query.value), CreatedAt)
        && totalReviews == |query.value| && averageRating == AverageRating(reviews)
    {
      if restaurantId == [] {
        return;
      }
      if query.Err? {
        return;
      }
      reviews := WithIds(query.value);
      reviews := Sorting.SortDesc(reviews, CreatedAt);
      totalReviews := |reviews|;
      CalculateAverageRating();
    }
  }

  /** The loaded list is the query's reviews reordered, newest first, and the
      count is its length. */
  lemma LoadedReviewsOrdered(docs: seq<ReviewDoc>)
    ensures var r := Sorting.SortDesc(WithIds(docs), CreatedAt);
      multiset(r) == multiset(WithIds(docs)) && |r| == |docs|
      && forall i, j :: 0 <= i < j < |r| ==> r[i].createdAt >= r[j].createdAt
  {
    var r := Sorting.SortDesc(WithIds(docs), CreatedAt);
    assert forall i, j :: 0 <= i < j < |r| ==> CreatedAt(r[i]) >= CreatedAt(r[j]);
  }

  /** The average shown after loading is the average of the query's reviews
      in any order. */
  lemma LoadedAverage(docs: seq<ReviewDoc>)
    ensures AverageRating(Sorting.SortDesc(WithIds(docs), CreatedAt)) == AverageRating(WithIds(docs))
  {
    var a := WithIds(docs);
    var r := Sorting.SortDesc(a, CreatedAt);
    Sorting.ProjectPermutation(a, r, StarsOf);
    MeanTenthPermutation(Stars(a), Stars(r));
  }
}
