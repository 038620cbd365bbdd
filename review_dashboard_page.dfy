/** The state of the review-dashboard page of
    src/app/business-owner/review-dashboard/review-dashboard.page.ts across a
    load — `loading`, `error`, the selected restaurant and which analysis
    stream the page shows — and its two display helpers. The route
    parameters and the service's outcome are inputs. */
module ReviewDashboardPage {
  import opened Wrappers
  import opened Json
  import TrendPrediction

  const NoIdMessage := "No restaurant ID provided"
  const LoadFailedMessage := "Failed to load review analysis. Please try again later."

  const Green := "text-green-500"
  const Yellow := "text-yellow-500"
  const Red := "text-red-500"

  const UpArrow := "\U{2197}\U{FE0F}"
  const DownArrow := "\U{2198}\U{FE0F}"
  const FlatArrow := "\U{2192}"

  /** `getMoodColor`: green from 70, yellow from 40, red below. */
  function MoodColor(percentage: real): (c: string)
    ensures c == Green <==> percentage >= 70.0
    ensures c == Yellow <==> 40.0 <= percentage < 70.0
    ensures c == Red <==> percentage < 40.0
  {
    if percentage >= 70.0 then Green
    else if percentage >= 40.0 then Yellow
    else Red
  }

  function ColorRank(c: string): nat {
    if c == Green then 2 else if c == Yellow then 1 else 0
  }

  /** A higher percentage never gets a worse colour. */
  lemma MoodColorMonotone(a: real, b: real)
    requires a <= b
    ensures ColorRank(MoodColor(a)) <= ColorRank(MoodColor(b))
  {
  }

  /** `getTrendIcon`. */
  function TrendIcon(trend: string): (icon: string)
    ensures icon == UpArrow <==> trend == TrendPrediction.Improving
    ensures icon == DownArrow <==> trend == TrendPrediction.Declining
    ensures icon == FlatArrow <==> trend != TrendPrediction.Improving && trend != TrendPrediction.Declining
  {
    if trend == TrendPrediction.Improving then UpArrow
    else if trend == TrendPrediction.Declining then DownArrow
    else FlatArrow
  }

  /** The icon points the way the trend chart's prediction moves. */
  lemma TrendIconMatchesChart(current: real, trend: string)
    requires 0.0 <= current <= 100.0
    ensures TrendIcon(trend) == UpArrow ==> TrendPrediction.PredictedSentiment(current, trend) >= current
    ensures TrendIcon(trend) == DownArrow ==> TrendPrediction.PredictedSentiment(current, trend) <= current
    ensures TrendIcon(trend) == FlatArrow ==> TrendPrediction.PredictedSentiment(current, trend) == current
  {
    TrendPrediction.PredictionBounds(current, trend);
  }

  /** `error.message || 'Failed to load ...'`. */
  function FailureText(message: string): (r: string)
    ensures r != []
    ensures message != [] ==> r == message
  {
    if message != [] then message else LoadFailedMessage
  }

  class Page {
    var loading: bool
    var error: Option<string>
    var selectedRestaurantId: Option<string>
    /** The restaurant whose analysis `reviewAnalysis$` streams; `None` for
        the initial `of(null)`. */
    var analysisFor: Option<string>

    constructor()
      ensures loading && error.None? && selectedRestaurantId.None? && analysisFor.None?
    {
      loading := true;
      error := None;
      selectedRestaurantId := None;
      analysisFor := None;
    }

    /** The route-parameter subscription of `ngOnInit`; `id` is absent when
        the route has none, and an empty id is falsy like an absent one. */
    method OnRouteParams(id: Option<string>)
      modifies this
      ensures id.Some? && id.value != [] ==>
        selectedRestaurantId == id && analysisFor == id && loading && error.None?
      ensures !(id.Some? && id.value != []) ==>
        error == Some(NoIdMessage) && !loading
        && selectedRestaurantId == old(selectedRestaurantId) && analysisFor == old(analysisFor)
    {
      if id.Some? && id.value != [] {
        selectedRestaurantId := id;
        LoadReviewAnalysis(id.value);
      } else {
        error := Some(NoIdMessage);
        loading := false;
      }
    }

    /** `loadReviewAnalysis`: a new load starts with `loading` set and no
        error, and the page switches to that restaurant's analysis. */
    method LoadReviewAnalysis(restaurantId: string)
      modifies this
      ensures loading && error.None? && analysisFor == Some(restaurantId)
      ensures selectedRestaurantId == old(selectedRestaurantId)
    {
      loading := true;
      error := None;
      analysisFor := Some(restaurantId);
    }

    /** The stream settling: the `catchError` turns a failure into the error
        text and a `null` value, and `finalize` clears `loading` either way.
        Returns what the template receives. */
    method Settle(outcome: Result<Json>) returns (shown: Option<Json>)
      modifies this
      ensures !loading
      ensures outcome.Ok? ==> shown == Some(outcome.value) && error == old(error)
      ensures outcome.Err? ==> shown.None? && error == Some(FailureText(outcome.msg))
      ensures selectedRestaurantId == old(selectedRestaurantId) && analysisFor == old(analysisFor)
    {
      if outcome.Ok? {
        shown := Some(outcome.value);
      } else {
        error := Some(FailureText(outcome.msg));
        shown := None;
      }
      loading := false;
    }
  }
}
