/** The aggregate report of src/services/review-dashboard.service.ts: the
    guarded fetch of a restaurant's reviews, the newest-first copy the prompt
    lists, the cleaning of the model's reply and the percentage fix of its
    confidence, and the merge of the restaurant's name into the result.
    Firestore and Auth are inputs: the signed-in user's uid, the restaurant
    document (absent when it does not exist) and the stored reviews. */
module ReviewDashboardService {
  import opened Wrappers
  import opened Text
  import opened Json
  import opened NumberText
  import opened Numbers
  import Fences
  import Sorting

  /** A review as the service hands it on; `timestamp` in milliseconds. */
  datatype Review = Review(text: string, stars: int, timestamp: int)

  /** A stored review document; `createdAt` may be missing. */
  datatype StoredReview = StoredReview(text: string, stars: int, createdAt: Option<int>)

  /** The fields of the restaurant document the service reads. */
  datatype RestaurantDoc = RestaurantDoc(name: Option<Json>, ownerId: Option<Json>)

  datatype Fetched = Fetched(reviews: seq<Review>, restaurantName: Json)

  const NotAuthenticatedMessage := "User must be authenticated"
  const NotFoundMessage := "Restaurant not found"
  const NotAuthorizedMessage := "Not authorized to view this restaurant"
  const UnknownRestaurant := "Unknown Restaurant"
  const NoReviewsMessage := "No reviews found for this restaurant"

  // ---------------------------------------------------------------------
  // getRestaurantReviews

  /** `restaurantData['name'] || 'Unknown Restaurant'`. */
  function RestaurantName(doc: RestaurantDoc): (r: Json)
    ensures Truthy(doc.name) ==> r == doc.name.value
    ensures !Truthy(doc.name) ==> r == JStr(UnknownRestaurant)
  {
    if Truthy(doc.name) then doc.name.value else JStr(UnknownRestaurant)
  }

  /** `createdAt?.toDate() || new Date()`: a missing date is the current time. */
  function ReviewOf(d: StoredReview, now: int): (r: Review)
    ensures r.text == d.text && r.stars == d.stars
    ensures d.createdAt.Some? ==> r.timestamp == d.createdAt.value
    ensures d.createdAt.None? ==> r.timestamp == now
  {
    Review(d.text, d.stars, match d.createdAt case Some(t) => t case None => now)
  }

  /** The owner check `restaurantData['ownerId'] !== currentUser.uid` fails
      unless the stored owner is exactly the uid string. */
  predicate OwnedBy(doc: RestaurantDoc, uid: string) {
    doc.ownerId == Some(JStr(uid))
  }

  /** What `getRestaurantReviews` resolves to or rejects with: the checks in
      the order the source makes them, then one review per stored document,
      in order. */
  function FetchOutcome(user: Option<string>, doc: Option<RestaurantDoc>,
                        stored: seq<StoredReview>, now: int): (r: Result<Fetched>)
    ensures user.None? ==> r == Err(NotAuthenticatedMessage)
    ensures user.Some? && doc.None? ==> r == Err(NotFoundMessage)
    ensures user.Some? && doc.Some? && !OwnedBy(doc.value, user.value) ==>
      r == Err(NotAuthorizedMessage)
    ensures r.Ok? <==> user.Some? && doc.Some? && OwnedBy(doc.value, user.value)
    ensures r.Ok? ==> |r.value.reviews| == |stored|
    ensures r.Ok? ==> forall i :: 0 <= i < |stored| ==> r.value.reviews[i] == ReviewOf(stored[i], now)
    ensures r.Ok? ==> r.value.restaurantName == RestaurantName(doc.value)
  {
    if user.None? then Err(NotAuthenticatedMessage)
    else if doc.None? then Err(NotFoundMessage)
    else if !OwnedBy(doc.value, user.value) then Err(NotAuthorizedMessage)
    else
      Ok(Fetched(seq(|stored|, i requires 0 <= i < |stored| => ReviewOf(stored[i], now)),
                 RestaurantName(doc.value)))
  }

  /** `getRestaurantReviews`: the guards, then the `forEach` that pushes one
      review per document. */
  method GetRestaurantReviews(user: Option<string>, doc: Option<RestaurantDoc>,
                              stored: seq<StoredReview>, now: int)
    returns (r: Result<Fetched>)
    ensures r == FetchOutcome(user, doc, stored, now)
  {
    if user.None? {
      return Err(NotAuthenticatedMessage);
    }
    if doc.None? {
      return Err(NotFoundMessage);
    }
    var name := RestaurantName(doc.value);
    if doc.value.ownerId != Some(JStr(user.value)) {
      return Err(NotAuthorizedMessage);
    }
    var reviews: seq<Review> := [];
    var i := 0;
    while i < |stored|
      invariant 0 <= i <= |stored| && |reviews| == i
      invariant forall k :: 0 <= k < i ==> reviews[k] == ReviewOf(stored[k], now)
    {
      reviews := reviews + [ReviewOf(stored[i], now)];
      i := i + 1;
    }
    r := Ok(Fetched(reviews, name));
    assert r.value.reviews == FetchOutcome(user, doc, stored, now).value.reviews;
  }

  // ---------------------------------------------------------------------
  // analyzeReviews: the prompt's data

  function Timestamp(r: Review): real {
    r.timestamp as real
  }

  /** `[...reviews].sort((a, b) => b.timestamp - a.timestamp)`: a sorted copy;
      the caller's sequence is a value and stays as it was. */
  function NewestFirst(reviews: seq<Review>): (r: seq<Review>)
    ensures multiset(r) == multiset(reviews)
    ensures forall i, j :: 0 <= i < j < |r| ==> r[i].timestamp >= r[j].timestamp
  {
    var s := Sorting.SortDesc(reviews, Timestamp);
    assert forall i, j :: 0 <= i < j < |s| ==> Timestamp(s[i]) >= Timestamp(s[j]);
    s
  }

  /** The earliest timestamp of a non-empty list of reviews (`Math.min`). */
  function Earliest(reviews: seq<Review>): (t: int)
    requires reviews != []
    ensures exists i :: 0 <= i < |reviews| && reviews[i].timestamp == t
    ensures forall i :: 0 <= i < |reviews| ==> t <= reviews[i].timestamp
    decreases |reviews|
  {
    if |reviews| == 1 then reviews[0].timestamp
    else
      var rest := Earliest(reviews[1..]);
      assert forall i :: 1 <= i < |reviews| ==> reviews[i] == reviews[1..][i - 1];
      if reviews[0].timestamp <= rest then reviews[0].timestamp else rest
  }

  /** The latest timestamp of a non-empty list of reviews (`Math.max`). */
  function Latest(reviews: seq<Review>): (t: int)
    requires reviews != []
    ensures exists i :: 0 <= i < |reviews| && reviews[i].timestamp == t
    ensures forall i :: 0 <= i < |reviews| ==> reviews[i].timestamp <= t
    decreases |reviews|
  {
    if |reviews| == 1 then reviews[0].timestamp
    else
      var rest := Latest(reviews[1..]);
      assert forall i :: 1 <= i < |reviews| ==> reviews[i] == reviews[1..][i - 1];
      if reviews[0].timestamp >= rest then reviews[0].timestamp else rest
  }

  /** The prompt's date range, or `None` for no reviews (the source then
      renders "Invalid Date"). */
  function DateRange(reviews: seq<Review>): Option<(int, int)> {
    if reviews == [] then None else Some((Earliest(reviews), Latest(reviews)))
  }

  /** A review of one list is a review of the other when the two are
      permutations of each other. */
  lemma MemberOfPermutation(a: seq<Review>, b: seq<Review>, i: nat) returns (j: nat)
    requires multiset(a) == multiset(b) && i < |a|
    ensures j < |b| && b[j] == a[i]
  {
    assert a[i] in multiset(a);
    assert a[i] in b;
    j :| 0 <= j < |b| && b[j] == a[i];
  }

  /** The date range runs from the last to the first review of the
      newest-first list the prompt shows. */
  lemma DateRangeOfNewestFirst(reviews: seq<Review>)
    requires reviews != []
    ensures var s := NewestFirst(reviews);
      |s| == |reviews| && DateRange(reviews) == Some((s[|s| - 1].timestamp, s[0].timestamp))
  {
    var s := NewestFirst(reviews);
    assert |s| == |reviews| by {
      assert |multiset(s)| == |multiset(reviews)|;
    }
    var lo, hi := Earliest(reviews), Latest(reviews);
    var a := MemberOfPermutation(s, reviews, |s| - 1);
    var b := MemberOfPermutation(s, reviews, 0);
    var ilo :| 0 <= ilo < |reviews| && reviews[ilo].timestamp == lo;
    var ihi :| 0 <= ihi < |reviews| && reviews[ihi].timestamp == hi;
    var jlo := MemberOfPermutation(reviews, s, ilo);
    var jhi := MemberOfPermutation(reviews, s, ihi);
    assert s[jlo].timestamp >= s[|s| - 1].timestamp;
    assert s[0].timestamp >= s[jhi].timestamp;
  }

  // ---------------------------------------------------------------------
  // analyzeReviews: the reply

  const TypeErrorNull := "Cannot read properties of null"
  const TypeErrorUndefined := "Cannot read properties of undefined"

  /** `text.replace(/```json\s*|\s*```/g, '').trim()`. */
  function CleanReply(text: string): (r: string)
    ensures Trimmed(r)
  {
    Trim(Fences.StripFencesAround(text))
  }

  /** A reply already free of backticks is only trimmed. */
  lemma CleanReplyNoBackticks(text: string)
    requires '`' !in text
    ensures CleanReply(text) == Trim(text)
  {
    Fences.NoBacktickUnchanged(text);
  }

  /** A fenced payload is taken out of its fence. */
  lemma CleanReplyFenced(w0: string, x: string, w1: string)
    requires AllSpace(w0) && AllSpace(w1) && Fences.Payload(x)
    ensures CleanReply(Fences.Fenced(w0, x, w1)) == x
  {
    Fences.StripFencesAroundOfFenced(w0, x, w1);
    TrimOfTrimmed(x);
  }

  /** `if (confidence < 1) confidence = Math.round(confidence * 100)`, for a
      `trendPrediction` object with fields `tp`. The comparison and the
      product both read the value with `Number`; a missing field, NaN and
      Infinity fail the comparison, so the object is kept. */
  function FixedPrediction(tp: map<string, Json>): (r: map<string, Json>)
    ensures r.Keys == tp.Keys
    ensures forall k :: k in tp && k != "confidence" ==> r[k] == tp[k]
  {
    if "confidence" in tp then FixedWith(tp, ToNumber(tp["confidence"])) else tp
  }

  /** The fix once `Number` has read the confidence as `n`. */
  function FixedWith(tp: map<string, Json>, n: Number): (r: map<string, Json>)
    requires "confidence" in tp
    ensures r.Keys == tp.Keys
    ensures forall k :: k in tp && k != "confidence" ==> r[k] == tp[k]
  {
    match n
    case Finite(x) =>
      if x < 1.0 then tp["confidence" := JNum(Round(x * 100.0) as real)] else tp
    case _ => tp
  }

  /** A confidence sent as a text is read with `Number`, so "0.5" is fixed
      exactly as 0.5 is, and a text that is not a number is kept. */
  lemma FixedPredictionOfText(tp: map<string, Json>, t: string)
    requires "confidence" in tp && tp["confidence"] == JStr(t)
    ensures FixedPrediction(tp) == FixedWith(tp, ReadNumber(t))
    ensures ReadNumber(t).NaN? ==> FixedPrediction(tp) == tp
  {
  }

  /** A text of digits reads as its decimal value: "0" (or "00") becomes the
      percentage 0, and any other, 1 or more, is kept. */
  lemma FixedPredictionOfDigits(tp: map<string, Json>, t: string)
    requires "confidence" in tp && tp["confidence"] == JStr(t)
    requires t != [] && AllDigits(t)
    ensures DigitsValue(t) == 0 ==> FixedPrediction(tp) == tp["confidence" := JNum(0.0)]
    ensures DigitsValue(t) >= 1 ==> FixedPrediction(tp) == tp
  {
    var n := DigitsValue(t);
    assert FixedPrediction(tp) == FixedWith(tp, Finite(n as real)) by {
      assert ReadNumber(t) == Finite(n as real) by { ReadDigits(t); }
      FixedPredictionOfText(tp, t);
    }
    FixedWithWhole(tp, n);
  }

  /** A whole number read as the confidence: 0 becomes the percentage 0,
      anything from 1 up is kept. */
  lemma FixedWithWhole(tp: map<string, Json>, n: nat)
    requires "confidence" in tp
    ensures n == 0 ==> FixedWith(tp, Finite(n as real)) == tp["confidence" := JNum(0.0)]
    ensures n >= 1 ==> FixedWith(tp, Finite(n as real)) == tp
  {
    if n == 0 {
      assert Round(0.0 * 100.0) == 0;
    }
  }

  /** A confidence sent as a one-element array of a number is read through
      its string, so `[0.5]` is fixed exactly as `0.5` is. */
  lemma FixedPredictionOfWrapped(tp: map<string, Json>, x: real)
    requires "confidence" in tp && tp["confidence"] == JArr([JNum(x)])
    requires NumberString(x).Some?
    ensures FixedPrediction(tp) == FixedWith(tp, Finite(x))
  {
    assert ToNumber(tp["confidence"]) == Finite(x) by { ToNumberOfSingleton(x); }
  }

  /** The parsed reply after the confidence fix, or the TypeError its
      property reads throw. */
  function FixConfidence(v: Json): (r: Result<Json>)
    ensures r.Ok? ==> r.value.JObj? && v.JObj? && r.value.fields.Keys == v.fields.Keys
    ensures r.Ok? <==> Get(v, "trendPrediction").Some? && !v.fields["trendPrediction"].JNull?
    ensures r.Ok? ==> forall k :: k in v.fields && k != "trendPrediction" ==>
      r.value.fields[k] == v.fields[k]
  {
    if v.JNull? then Err(TypeErrorNull)
    else if !v.JObj? || "trendPrediction" !in v.fields then Err(TypeErrorUndefined)
    else
      match v.fields["trendPrediction"]
      case JNull => Err(TypeErrorNull)
      case JObj(tp) => Ok(JObj(v.fields["trendPrediction" := JObj(FixedPrediction(tp))]))
      case _ => Ok(v)
  }

  /** `analyzeReviews` after the model call: the reply's text is cleaned,
      parsed and fixed; a failed call, a parse error and a TypeError are
      re-thrown. */
  function AnalyzeReviews(reply: Result<string>, parse: Parser): (r: Result<Json>)
    ensures reply.Err? ==> r == Err(reply.msg)
    ensures reply.Ok? && parse(CleanReply(reply.value)).Err? ==>
      r == Err(parse(CleanReply(reply.value)).msg)
    ensures reply.Ok? && parse(CleanReply(reply.value)).Ok? ==>
      r == FixConfidence(parse(CleanReply(reply.value)).value)
  {
    match reply
    case Err(m) => Err(m)
    case Ok(text) =>
      var v :- parse(CleanReply(text));
      FixConfidence(v)
  }

  /** The confidence of the analysis, when it is a number. */
  function Confidence(v: Json): Option<real> {
    if v.JObj? && "trendPrediction" in v.fields && v.fields["trendPrediction"].JObj?
       && "confidence" in v.fields["trendPrediction"].fields
       && v.fields["trendPrediction"].fields["confidence"].JNum?
    then Some(v.fields["trendPrediction"].fields["confidence"].n)
    else None
  }

  /** A numeric confidence below 1 is read as a fraction and becomes the
      rounded percentage; any other number, 1 included, is kept. */
  lemma ConfidenceFix(v: Json, c: real)
    requires Confidence(v) == Some(c)
    ensures FixConfidence(v).Ok?
    ensures c < 1.0 ==> Confidence(FixConfidence(v).value) == Some(Round(c * 100.0) as real)
    ensures c >= 1.0 ==> FixConfidence(v) == Ok(v)
  {
    var tp := v.fields["trendPrediction"].fields;
    if c >= 1.0 {
      assert FixedPrediction(tp) == tp;
      assert v.fields["trendPrediction" := JObj(tp)] == v.fields;
    }
  }

  /** A fraction in [0, 1) becomes a percentage in [0, 100]. */
  lemma ConfidencePercent(v: Json, c: real)
    requires Confidence(v) == Some(c) && 0.0 <= c < 1.0
    ensures FixConfidence(v).Ok?
    ensures var p := Confidence(FixConfidence(v).value);
      p.Some? && 0.0 <= p.value <= 100.0 && p.value == p.value.Floor as real
  {
    ConfidenceFix(v, c);
    RoundMonotone(0.0, c * 100.0);
    RoundMonotone(c * 100.0, 100.0);
    RoundInt(0);
    RoundInt(100);
  }

  /** For a non-negative confidence the fix is idempotent: its percentage is
      a whole number, either at least 1 and kept, or 0, which is below 1 but
      rounds to itself. */
  lemma ConfidenceFixIdempotent(v: Json, c: real)
    requires Confidence(v) == Some(c) && 0.0 <= c
    ensures FixConfidence(v).Ok?
    ensures FixConfidence(FixConfidence(v).value) == FixConfidence(v)
  {
    ConfidenceFix(v, c);
    if c < 1.0 {
      var w := FixConfidence(v).value;
      var p := Round(c * 100.0);
      RoundMonotone(0.0, c * 100.0);
      RoundInt(0);
      if p >= 1 {
        ConfidenceFix(w, p as real);
      } else {
        assert p == 0;
        var tp := w.fields["trendPrediction"].fields;
        assert tp["confidence"] == JNum(0.0);
        assert Round(0.0 * 100.0) == 0;
        assert FixedPrediction(tp) == tp;
        assert w.fields["trendPrediction" := JObj(tp)] == w.fields;
      }
    }
  }

  // ---------------------------------------------------------------------
  // getReviewAnalysis

  /** `{...analysis, restaurantName}`: the document's name overrides any
      field of that name in the analysis. */
  function WithName(analysis: Json, name: Json): (r: Json)
    requires analysis.JObj?
    ensures r.JObj? && r.fields.Keys == analysis.fields.Keys + {"restaurantName"}
    ensures r.fields["restaurantName"] == name
    ensures forall k :: k in analysis.fields && k != "restaurantName" ==>
      r.fields[k] == analysis.fields[k]
  {
    JObj(analysis.fields["restaurantName" := name])
  }

  /** What `getReviewAnalysis` emits or errors with, given what
      `getRestaurantReviews` settled to and the model's reply. */
  function ReviewAnalysisOf(fetched: Result<Fetched>, reply: Result<string>, parse: Parser)
    : (r: Result<Json>)
    ensures fetched.Err? ==> r == Err(fetched.msg)
    ensures fetched.Ok? && fetched.value.reviews == [] ==> r == Err(NoReviewsMessage)
    ensures r.Ok? ==> fetched.Ok? && fetched.value.reviews != []
  {
    var f :- fetched;
    if f.reviews == [] then Err(NoReviewsMessage)
    else
      var analysis :- AnalyzeReviews(reply, parse);
      Ok(WithName(analysis, f.restaurantName))
  }

  /** An emitted analysis carries the restaurant document's name and
      otherwise the fields of the fixed reply. */
  lemma ReviewAnalysisNamed(fetched: Result<Fetched>, reply: Result<string>, parse: Parser)
    requires ReviewAnalysisOf(fetched, reply, parse).Ok?
    ensures var r := ReviewAnalysisOf(fetched, reply, parse).value;
      var a := AnalyzeReviews(reply, parse);
      a.Ok? && r.JObj? && r.fields["restaurantName"] == fetched.value.restaurantName
      && forall k :: k in a.value.fields && k != "restaurantName" ==> r.fields[k] == a.value.fields[k]
  {
  }

  /** `getReviewAnalysis`: fetch, guard against no reviews, analyse, merge. */
  method GetReviewAnalysis(user: Option<string>, doc: Option<RestaurantDoc>,
                           stored: seq<StoredReview>, now: int,
                           reply: Result<string>, parse: Parser)
    returns (r: Result<Json>)
    ensures r == ReviewAnalysisOf(FetchOutcome(user, doc, stored, now), reply, parse)
    ensures r.Ok? ==> user.Some? && doc.Some? && OwnedBy(doc.value, user.value) && stored != []
  {
    var fetched := GetRestaurantReviews(user, doc, stored, now);
    if fetched.Err? {
      return Err(fetched.msg);
    }
    if fetched.value.reviews == [] {
      return Err(NoReviewsMessage);
    }
    var analysis := AnalyzeReviews(reply, parse);
    if analysis.Err? {
      return Err(analysis.msg);
    }
    r := Ok(WithName(analysis.value, fetched.value.restaurantName));
  }
}
