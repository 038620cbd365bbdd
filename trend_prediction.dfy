/** The predicted next-month sentiment that the trend chart of
    src/app/business-owner/review-dashboard/components/trend-prediction-chart.component.ts
    draws beside the current one: ten points up for an improving trend, ten
    down for a declining one, capped to [0, 100] on the side it moves. */
module TrendPrediction {

  const Improving := "improving"
  const Declining := "declining"

  /** The `switch` in `createChart`: any trend other than the two named ones
      (including 'stable') keeps the current value. */
  function PredictedSentiment(current: real, trend: string): real {
    if trend == Improving then (if 100.0 <= current + 10.0 then 100.0 else current + 10.0)
    else if trend == Declining then (if current - 10.0 <= 0.0 then 0.0 else current - 10.0)
    else current
  }

  /** For a current value in [0, 100] the prediction stays in [0, 100], moves
      by at most 10, and only in the trend's direction. */
  lemma PredictionBounds(current: real, trend: string)
    requires 0.0 <= current <= 100.0
    ensures var p := PredictedSentiment(current, trend);
      0.0 <= p <= 100.0 && current - 10.0 <= p <= current + 10.0
    ensures trend == Improving ==> PredictedSentiment(current, trend) >= current
    ensures trend == Declining ==> PredictedSentiment(current, trend) <= current
  {
  }

  /** An improving trend raises the value by exactly 10 unless that would pass
      100; a declining one lowers it by exactly 10 unless that would pass 0. */
  lemma PredictionExact(current: real, trend: string)
    ensures trend == Improving && current <= 90.0 ==> PredictedSentiment(current, trend) == current + 10.0
    ensures trend == Improving && current > 90.0 ==> PredictedSentiment(current, trend) == 100.0
    ensures trend == Declining && current >= 10.0 ==> PredictedSentiment(current, trend) == current - 10.0
    ensures trend == Declining && current < 10.0 ==> PredictedSentiment(current, trend) == 0.0
    ensures trend != Improving && trend != Declining ==> PredictedSentiment(current, trend) == current
  {
  }

  /** The prediction is monotone in the current value for every trend. */
  lemma PredictionMonotone(a: real, b: real, trend: string)
    requires a <= b
    ensures PredictedSentiment(a, trend) <= PredictedSentiment(b, trend)
  {
  }
}
