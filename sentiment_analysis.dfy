/** The restaurant-level sentiment summary (src/services/sentiment-analysis.service.ts):
    the model's reply is cleaned of code fences and backticks, parsed, checked
    for its four fields and normalised; any failure falls back to a summary
    computed from the star ratings alone, or is re-raised when there are no
    reviews. The model call is an input: the reply text or the error it
    raised. `JSON.parse` is an input too. */
module SentimentAnalysis {
  import opened Wrappers
  import opened Text
  import opened Json
  import opened NumberText
  import opened Numbers
  import Fences

  datatype Sentiment = Positive | Neutral | Negative

  /** The label text of the service's result type. */
  function LabelText(s: Sentiment): string {
    match s
    case Positive => "Positive"
    case Neutral => "Neutral"
    case Negative => "Negative"
  }

  datatype SentimentAnalysis = SentimentAnalysis(
    overallSentiment: Sentiment,
    score: int,
    summary: string,
    recommendations: seq<string>)

  datatype StarReview = StarReview(text: string, stars: int)

  const GenerateFailedMessage := "Failed to generate sentiment analysis"
  const EmptyResponseMessage := "Empty or invalid response from API"
  const EmptyAfterCleaningMessage := "Empty response after cleaning"
  const MissingFieldsMessage := "Missing required fields in response"
  /** The TypeErrors thrown by calling a string method on a value that is
      not a string, or by reading a property of `null`. */
  const NotAStringMessage := "TypeError: not a string"
  const NullPropertyMessage := "TypeError: cannot read properties of null"

  // ---------------------------------------------------------------------
  // cleanJsonString

  /** `cleanJsonString`: the empty reply and a reply that is empty after
      cleaning are errors; otherwise both fence patterns and every remaining
      backtick are removed and the result trimmed. */
  function CleanJsonString(str: string): (r: Result<string>)
    ensures str == [] ==> r == Err(EmptyResponseMessage)
    ensures r.Err? ==> r.msg == EmptyResponseMessage || r.msg == EmptyAfterCleaningMessage
    ensures r.Ok? ==> r.value != [] && '`' !in r.value && Trimmed(r.value)
  {
    if str == [] then Err(EmptyResponseMessage)
    else
      var s := Trim(Fences.RemoveBackticks(Fences.StripFencesOptJson(str)));
      TrimNoNewChars(Fences.RemoveBackticks(Fences.StripFencesOptJson(str)), '`');
      if s == [] then Err(EmptyAfterCleaningMessage) else Ok(s)
  }

  /** Cleaning fails after the empty check exactly when nothing but fences,
      backticks and whitespace was sent. */
  lemma CleanJsonStringEmptyAfter(str: string)
    requires str != []
    ensures CleanJsonString(str) == Err(EmptyAfterCleaningMessage) <==>
      AllSpace(Fences.RemoveBackticks(Fences.StripFencesOptJson(str)))
  {
    TrimEmptyIffAllSpace(Fences.RemoveBackticks(Fences.StripFencesOptJson(str)));
  }

  /** A bare payload passes through cleaning unchanged. */
  lemma CleanBarePayload(x: string)
    requires Fences.Payload(x)
    ensures CleanJsonString(x) == Ok(x)
  {
    Fences.NoBacktickUnchanged(x);
    TrimOfTrimmed(x);
  }

  /** A payload in a ```json fence is recovered exactly. */
  lemma CleanFencedPayload(w0: string, x: string, w1: string)
    requires AllSpace(w0) && AllSpace(w1) && Fences.Payload(x)
    ensures CleanJsonString(Fences.Fenced(w0, x, w1)) == Ok(x)
  {
    var f := Fences.Fenced(w0, x, w1);
    assert f != [] by {
      Fences.FencedEnds(w0, x, w1);
    }
    Fences.StripFencesOptJsonOfFenced(w0, x, w1);
    assert Fences.RemoveBackticks(x + w1) == x + w1 by {
      assert forall c :: c in w1 ==> IsSpace(c);
    }
    assert Trim(x + w1) == x by {
      assert x + w1 == [] + x + w1;
      TrimPadded([], x, w1);
    }
    CleanJsonSteps(f, x + w1, x + w1, x);
  }

  /** The cleaning, one step after the other. */
  lemma CleanJsonSteps(str: string, t1: string, t2: string, r: string)
    requires str != [] && r != []
    requires Fences.StripFencesOptJson(str) == t1 && Fences.RemoveBackticks(t1) == t2 && Trim(t2) == r
    ensures CleanJsonString(str) == Ok(r)
  {
  }

  // ---------------------------------------------------------------------
  // The required-field check

  /** `!overallSentiment || !score || !summary || !Array.isArray(recommendations)`
      is false: the three fields are truthy and the last is an array. */
  predicate HasRequiredFields(v: Json) {
    Truthy(Get(v, "overallSentiment")) && Truthy(Get(v, "score"))
    && Truthy(Get(v, "summary"))
    && Get(v, "recommendations").Some? && Get(v, "recommendations").value.JArr?
  }

  /** A score of 0 counts as missing, since 0 is falsy. */
  lemma ZeroScoreRejected(v: Json)
    requires Get(v, "score") == Some(JNum(0.0))
    ensures !HasRequiredFields(v)
  {
  }

  /** An empty summary counts as missing; an empty recommendation list does
      not. */
  lemma EmptySummaryRejected(v: Json)
    requires Get(v, "summary") == Some(JStr(""))
    ensures !HasRequiredFields(v)
  {
  }

  // ---------------------------------------------------------------------
  // normalizeOverallSentiment

  /** `toLowerCase().trim()`, then the first of "positive" and "negative"
      that occurs decides; neither gives Neutral. */
  function NormalizeOverallSentiment(sentiment: string): (r: Sentiment)
    ensures var n := Trim(ToLower(sentiment));
      (r == Positive <==> Contains(n, "positive"))
      && (r == Negative <==> !Contains(n, "positive") && Contains(n, "negative"))
      && (r == Neutral <==> !Contains(n, "positive") && !Contains(n, "negative"))
  {
    var normalized := Trim(ToLower(sentiment));
    if Contains(normalized, "positive") then Positive
    else if Contains(normalized, "negative") then Negative
    else Neutral
  }

  lemma ContainsItself(s: string)
    ensures Contains(s, s)
  {
    assert s[0..|s|] == s;
    ContainsAt(s, s, 0);
  }

  lemma NotContainsLonger(s: string, t: string)
    requires |s| < |t|
    ensures !Contains(s, t)
  {
  }

  /** Every label the service itself produces is read back as that label. */
  lemma NormalizeLabelText(s: Sentiment)
    ensures NormalizeOverallSentiment(LabelText(s)) == s
  {
    var t := LabelText(s);
    var lower := ToLower(t);
    match s
    case Positive =>
      assert lower == "positive";
      TrimOfTrimmed(lower);
      ContainsItself(lower);
    case Negative =>
      assert lower == "negative";
      TrimOfTrimmed(lower);
      ContainsItself(lower);
      assert !OccursAt(lower, "positive", 0);
    case Neutral =>
      assert lower == "neutral";
      TrimOfTrimmed(lower);
      NotContainsLonger(lower, "positive");
      NotContainsLonger(lower, "negative");
  }

  // ---------------------------------------------------------------------
  // normalizeScore

  /** `s.replace(/[^0-9.]/g, '')`: only digits and dots are kept, in order. */
  function KeepNumberChars(s: string): (r: string)
    ensures forall i :: 0 <= i < |r| ==> IsDigit(r[i]) || r[i] == '.'
    ensures |r| <= |s|
    ensures (forall i :: 0 <= i < |s| ==> IsDigit(s[i]) || s[i] == '.') ==> r == s
    ensures (forall i :: 0 <= i < |s| ==> !IsDigit(s[i]) && s[i] != '.') ==> r == []
    decreases |s|
  {
    if s == [] then []
    else
      var rest := KeepNumberChars(s[1..]);
      if IsDigit(s[0]) || s[0] == '.' then [s[0]] + rest else rest
  }

  /** `Number(...)` of a parsed score. Strings have their non-number
      characters removed before they are read. */
  function ScoreNumber(score: Json): (r: Number)
  {
    if score.JStr? then ReadNumber(KeepNumberChars(score.s)) else ToNumber(score)
  }

  /** The rest of `normalizeScore` once the score is a number: NaN becomes
      50; the number is clamped to [0, 100] (so Infinity is 100 and
      -Infinity is 0) and rounded. */
  function NormalizeNumber(v: Number): (r: int)
    ensures 0 <= r <= 100
    ensures v.NaN? ==> r == 50
    ensures v.Infinite? ==> r == if v.negative then 0 else 100
    ensures v.Finite? ==> r == Round(Clamp(v.x, 0.0, 100.0))
  {
    var x := match v
      case NaN => 50.0
      case Infinite(negative) => if negative then 0.0 else 100.0
      case Finite(y) => y;
    RoundMonotone(0.0, Clamp(x, 0.0, 100.0));
    RoundMonotone(Clamp(x, 0.0, 100.0), 100.0);
    RoundInt(0);
    RoundInt(100);
    Round(Clamp(x, 0.0, 100.0))
  }

  /** `normalizeScore`: the score as a number, normalised. */
  function NormalizeScore(score: Json): (r: int)
    ensures 0 <= r <= 100
  {
    NormalizeNumber(ScoreNumber(score))
  }

  /** Whole numbers between 0 and 100 are kept; others are capped. */
  lemma NormalizeWhole(n: int)
    ensures NormalizeNumber(Finite(n as real)) == if n < 0 then 0 else if n <= 100 then n else 100
  {
    RoundInt(if n < 0 then 0 else if n <= 100 then n else 100);
  }

  /** A score the service itself produced is kept as it is. */
  lemma NormalizeScoreIdempotent(score: Json)
    ensures NormalizeScore(JNum(NormalizeScore(score) as real)) == NormalizeScore(score)
  {
    NormalizeWhole(NormalizeScore(score));
  }

  /** A score sent as the text of a whole number reads back as that number,
      capped at 100. */
  lemma NormalizeScoreOfNumberText(n: nat)
    ensures NormalizeScore(JStr(NatToString(n))) == if n <= 100 then n else 100
  {
    NatToStringValue(n);
    ReadDigits(NatToString(n));
    NormalizeWhole(n);
  }

  /** A text score is never negative and never infinite: signs and the
      letters of `Infinity` are removed before it is read, so the text is
      NaN or a number of 0 and above. */
  lemma StringScoreNonNegative(s: string)
    ensures ScoreNumber(JStr(s)).NaN? || (ScoreNumber(JStr(s)).Finite? && ScoreNumber(JStr(s)).x >= 0.0)
  {
    var t := KeepNumberChars(s);
    if t != [] {
      DigitsDotsUntrimmed(t);
      assert t != "Infinity" by { assert !IsDigit('I'); }
    }
  }

  /** A text of digits and dots has no space to trim, no sign and no base
      prefix. */
  lemma DigitsDotsUntrimmed(t: string)
    requires t != [] && forall i :: 0 <= i < |t| ==> IsDigit(t[i]) || t[i] == '.'
    ensures ReadNumber(t) == Unsigned(t)
  {
    assert !IsSpace(t[0]) && !IsSpace(t[|t| - 1]);
    TrimOfTrimmed(t);
  }

  /** A minus sign is dropped, so "-5" is 5. */
  lemma ScoreOfNegativeText()
    ensures ScoreNumber(JStr("-5")) == Finite(5.0)
  {
    assert KeepNumberChars("-5") == "5";
    assert ReadNumber("5") == Finite(5.0) by { ReadDigits("5"); }
  }

  /** A text with no digit is 0, and the text "Infinity" too. */
  lemma ScoreOfLetters()
    ensures ScoreNumber(JStr("abc")) == Finite(0.0)
    ensures ScoreNumber(JStr("Infinity")) == Finite(0.0)
  {
    assert forall i :: 0 <= i < |"abc"| ==> !IsDigit("abc"[i]) && "abc"[i] != '.';
    assert forall i :: 0 <= i < |"Infinity"| ==> !IsDigit("Infinity"[i]) && "Infinity"[i] != '.';
    assert Trim("") == "";
  }

  /** A second dot makes the text NaN. */
  lemma ScoreOfTwoDots()
    ensures ScoreNumber(JStr("1.2.3")) == NaN
  {
    var t := "1.2.3";
    assert KeepNumberChars(t) == t by {
      assert forall i :: 0 <= i < |t| ==> IsDigit(t[i]) || t[i] == '.';
    }
    assert ReadNumber(t) == Unsigned(t) by { DigitsDotsUntrimmed(t); }
    UnsignedOfTwoDots();
  }

  lemma UnsignedOfTwoDots()
    ensures Unsigned("1.2.3") == NaN
  {
    var t := "1.2.3";
    assert forall i :: 0 <= i < |t| ==> t[i] != 'e' && t[i] != 'E';
    UnsignedOfMantissa(t);
    MantissaOfTwoDots();
  }

  lemma MantissaOfTwoDots()
    ensures Mantissa("1.2.3") == Malformed
  {
    var t := "1.2.3";
    IndexOfCharIs(t, '.', 1);
    assert t[..1] + t[2..] == "12.3";
    assert "12.3"[..3] == "12." && "12."[..2] == "12";
    assert RadixValue("12.", 10).None?;
  }

  /** Concrete text scores: "-5" is 5, "abc" and "Infinity" are 0, and
      "1.2.3" is NaN, so 50. */
  lemma NormalizeScoreOfTexts()
    ensures NormalizeScore(JStr("-5")) == 5
    ensures NormalizeScore(JStr("abc")) == 0
    ensures NormalizeScore(JStr("Infinity")) == 0
    ensures NormalizeScore(JStr("1.2.3")) == 50
  {
    ScoreOfNegativeText();
    ScoreOfLetters();
    ScoreOfTwoDots();
    NormalizeWhole(5);
    NormalizeWhole(0);
  }

  /** The score of a one-element array is the score of its element when it
      is a number; `[]` is 0 and an array of two or more elements is 50. */
  lemma NormalizeScoreOfArray(x: real, items: seq<Json>)
    requires NumberString(x).Some?
    ensures NormalizeScore(JArr([JNum(x)])) == NormalizeScore(JNum(x))
    ensures NormalizeScore(JArr([])) == 0
    ensures |items| >= 2 ==> NormalizeScore(JArr(items)) == 50
  {
    ToNumberOfSingleton(x);
    ToNumberOfEmpty();
    NormalizeWhole(0);
    if |items| >= 2 {
      ToNumberOfLonger(items);
    }
  }

  /** `Infinity` read by `Number`. */
  lemma ReadInfinity()
    ensures ReadNumber("Infinity") == Infinite(false)
    ensures ReadNumber("-Infinity") == Infinite(true)
  {
    TrimOfTrimmed("Infinity");
    TrimOfTrimmed("-Infinity");
    assert "-Infinity"[1..] == "Infinity";
  }

  /** `Number("-5")`. */
  lemma ReadMinusFive()
    ensures ReadNumber("-5") == Finite(-5.0)
  {
    ReadNegatedDigits("5");
    assert "-" + "5" == "-5";
  }

  /** Unlike a text score, an array holding a text is read whole, with its
      sign and `Infinity`. */
  lemma NormalizeScoreOfTextArray()
    ensures NormalizeScore(JArr([JStr("Infinity")])) == 100
    ensures NormalizeScore(JArr([JStr("-Infinity")])) == 0
    ensures NormalizeScore(JArr([JStr("-5")])) == 0
  {
    ToNumberOfTextSingleton("Infinity");
    ToNumberOfTextSingleton("-Infinity");
    ToNumberOfTextSingleton("-5");
    ReadInfinity();
    ReadMinusFive();
    NormalizeWhole(-5);
  }

  // ---------------------------------------------------------------------
  // Summary and recommendations

  /** `.map(rec => rec.trim()).filter(rec => rec.length > 0)` on strings. */
  function TrimRecommendations(recs: seq<string>): (r: seq<string>)
    ensures |r| <= |recs|
    ensures forall i :: 0 <= i < |r| ==> r[i] != [] && Trimmed(r[i])
    decreases |recs|
  {
    if recs == [] then []
    else
      var head := Trim(recs[0]);
      var rest := TrimRecommendations(recs[1..]);
      if head != [] then [head] + rest else rest
  }

  /** The order of the recommendations is kept: the result for a list is
      the results for its parts, one after the other. */
  lemma {:induction false} TrimRecommendationsAppend(a: seq<string>, b: seq<string>)
    ensures TrimRecommendations(a + b) == TrimRecommendations(a) + TrimRecommendations(b)
    decreases |a|
  {
    if a == [] {
      assert a + b == b;
    } else {
      assert (a + b)[0] == a[0] && (a + b)[1..] == a[1..] + b;
      TrimRecommendationsAppend(a[1..], b);
    }
  }

  /** Recommendations that are already clean are kept, all of them. */
  lemma {:induction false} TrimRecommendationsClean(recs: seq<string>)
    requires forall i :: 0 <= i < |recs| ==> recs[i] != [] && Trimmed(recs[i])
    ensures TrimRecommendations(recs) == recs
    decreases |recs|
  {
    if recs != [] {
      var tail := recs[1..];
      var head := recs[0];
      assert head != [] && Trimmed(head);
      TrimOfTrimmed(head);
      TrimRecommendationsCons(head, tail);
      assert forall i :: 0 <= i < |tail| ==> tail[i] == recs[i + 1];
      TrimRecommendationsClean(tail);
      assert recs == [head] + tail;
    }
  }

  lemma TrimRecommendationsCons(head: string, tail: seq<string>)
    ensures TrimRecommendations([head] + tail) ==
      (if Trim(head) != [] then [Trim(head)] else []) + TrimRecommendations(tail)
  {
    assert ([head] + tail)[0] == head && ([head] + tail)[1..] == tail;
  }

  /** Trimming the list twice is trimming it once. */
  lemma TrimRecommendationsIdempotent(recs: seq<string>)
    ensures TrimRecommendations(TrimRecommendations(recs)) == TrimRecommendations(recs)
  {
    TrimRecommendationsClean(TrimRecommendations(recs));
  }

  /** The recommendation array as strings; `rec.trim()` throws on anything
      else. */
  function StringItems(items: seq<Json>): (r: Option<seq<string>>)
    ensures r.Some? ==> |r.value| == |items|
    ensures r.Some? ==> forall i :: 0 <= i < |items| ==> items[i] == JStr(r.value[i])
    ensures r.None? ==> exists i :: 0 <= i < |items| && !items[i].JStr?
    decreases |items|
  {
    if items == [] then Some([])
    else if !items[0].JStr? then None
    else match StringItems(items[1..])
      case None => None
      case Some(rest) => Some([items[0].s] + rest)
  }

  // ---------------------------------------------------------------------
  // The successful path

  /** The `map` step: check the fields and build the normalised analysis. */
  function BuildAnalysis(v: Json): (r: Result<SentimentAnalysis>)
    ensures r.Ok? ==> HasRequiredFields(v)
    ensures !v.JNull? && !HasRequiredFields(v) ==> r == Err(MissingFieldsMessage)
    ensures r.Ok? ==> 0 <= r.value.score <= 100 && Trimmed(r.value.summary)
    ensures r.Ok? ==> forall i :: 0 <= i < |r.value.recommendations| ==>
      r.value.recommendations[i] != [] && Trimmed(r.value.recommendations[i])
  {
    if v.JNull? then Err(NullPropertyMessage)
    else if !HasRequiredFields(v) then Err(MissingFieldsMessage)
    else
      var overall := v.fields["overallSentiment"];
      var summary := JsString(v.fields["summary"]);
      var recs := StringItems(v.fields["recommendations"].items);
      if !overall.JStr? || summary.None? || recs.None? then Err(NotAStringMessage)
      else Ok(SentimentAnalysis(
        NormalizeOverallSentiment(overall.s),
        NormalizeScore(v.fields["score"]),
        Trim(summary.value),
        TrimRecommendations(recs.value)))
  }

  /** `String(summary)` never fails on a parsed value: a summary of any
      type (a number, a boolean, an array) is rendered and trimmed. */
  lemma BuildAnalysisSummary(v: Json)
    requires HasRequiredFields(v) && v.fields["overallSentiment"].JStr?
    requires StringItems(v.fields["recommendations"].items).Some?
    requires Renderable(v.fields["summary"])
    ensures BuildAnalysis(v).Ok?
    ensures BuildAnalysis(v).value.summary == Trim(JsString(v.fields["summary"]).value)
  {
    JsStringRenders(v.fields["summary"]);
  }

  /** The JSON array of the given strings. */
  function StringArray(recs: seq<string>): (r: seq<Json>)
    ensures |r| == |recs|
    ensures forall i :: 0 <= i < |r| ==> r[i] == JStr(recs[i])
  {
    seq(|recs|, i requires 0 <= i < |recs| => JStr(recs[i]))
  }

  /** Reading strings back out of an array of strings gives them all. */
  lemma {:induction false} StringItemsOfStrings(recs: seq<string>)
    ensures StringItems(StringArray(recs)) == Some(recs)
    decreases |recs|
  {
    if recs != [] {
      var items := StringArray(recs);
      assert items[1..] == StringArray(recs[1..]);
      StringItemsOfStrings(recs[1..]);
      assert recs == [recs[0]] + recs[1..];
    }
  }

  /** A well-formed answer is normalised field by field. */
  lemma BuildAnalysisFields(labelText: string, score: Json, summary: string, recs: seq<string>)
    requires Truthy(Some(score)) && summary != [] && labelText != []
    ensures var v := JObj(map[
        "overallSentiment" := JStr(labelText), "score" := score, "summary" := JStr(summary),
        "recommendations" := JArr(StringArray(recs))]);
      BuildAnalysis(v) == Ok(SentimentAnalysis(
        NormalizeOverallSentiment(labelText), NormalizeScore(score), Trim(summary),
        TrimRecommendations(recs)))
  {
    var v := JObj(map[
        "overallSentiment" := JStr(labelText), "score" := score, "summary" := JStr(summary),
        "recommendations" := JArr(StringArray(recs))]);
    assert v.fields["overallSentiment"] == JStr(labelText);
    assert v.fields["score"] == score;
    assert v.fields["summary"] == JStr(summary);
    assert v.fields["recommendations"] == JArr(StringArray(recs));
    assert HasRequiredFields(v);
    StringItemsOfStrings(recs);
  }

  // ---------------------------------------------------------------------
  // The fallback

  const FallbackRecommendations: seq<string> := [
    "Consider collecting more detailed customer feedback",
    "Monitor customer satisfaction trends regularly"]

  function Stars(reviews: seq<StarReview>): (r: seq<int>)
    ensures |r| == |reviews|
    ensures forall i :: 0 <= i < |r| ==> r[i] == reviews[i].stars
  {
    seq(|reviews|, i requires 0 <= i < |reviews| => reviews[i].stars)
  }

  /** `(averageRating / 5) * 100`, before rounding. */
  function FallbackScore(reviews: seq<StarReview>): real
    requires reviews != []
  {
    (Sum(Stars(reviews)) as real / |reviews| as real) / 5.0 * 100.0
  }

  /** The label thresholds, applied to the unrounded score. */
  function FallbackLabel(score: real): (r: Sentiment)
    ensures r == Positive <==> score >= 60.0
    ensures r == Neutral <==> 40.0 <= score < 60.0
    ensures r == Negative <==> score < 40.0
  {
    if score >= 60.0 then Positive else if score >= 40.0 then Neutral else Negative
  }

  /** The analysis computed from the star ratings alone. */
  function Fallback(reviews: seq<StarReview>): (r: SentimentAnalysis)
    requires reviews != []
    ensures r.overallSentiment == FallbackLabel(FallbackScore(reviews))
    ensures r.score == Round(Sum(Stars(reviews)) as real * 20.0 / |reviews| as real)
    ensures r.recommendations == FallbackRecommendations
  {
    var n := |reviews|;
    var average := Sum(Stars(reviews)) as real / n as real;
    var score := average / 5.0 * 100.0;
    assert score == Sum(Stars(reviews)) as real * 20.0 / n as real;
    SentimentAnalysis(
      FallbackLabel(score),
      Round(score),
      "Analysis based on " + NatToString(n) + " reviews with average rating of "
        + ToFixed1(average) + " stars.",
      FallbackRecommendations)
  }

  /** With ratings of 1 to 5 stars the fallback score lies in [20, 100]. */
  lemma FallbackScoreBounds(reviews: seq<StarReview>)
    requires reviews != []
    requires forall i :: 0 <= i < |reviews| ==> 1 <= reviews[i].stars <= 5
    ensures 20 <= Fallback(reviews).score <= 100
  {
    var xs := Stars(reviews);
    MeanBounds(xs, 1, 5);
    var m := Sum(xs) as real / |xs| as real;
    var n := |reviews| as real;
    var total := Sum(xs) as real;
    assert m * n == total;
    assert total * 20.0 / n == m * 20.0 by {
      assert (m * 20.0) * n == total * 20.0;
    }
    RoundMonotone(20.0, m * 20.0);
    RoundMonotone(m * 20.0, 100.0);
    RoundInt(20);
    RoundInt(100);
  }

  /** Ratings 5, 5, 4, 5 give 95 and Positive. */
  lemma FallbackExamplePositive()
    ensures var r := Fallback([StarReview("", 5), StarReview("", 5), StarReview("", 4), StarReview("", 5)]);
      r.score == 95 && r.overallSentiment == Positive
  {
    var reviews := [StarReview("", 5), StarReview("", 5), StarReview("", 4), StarReview("", 5)];
    assert Stars(reviews) == [5, 5, 4, 5];
    assert Sum([5, 5, 4, 5]) == 19 by {
      assert [5, 5, 4, 5][..3] == [5, 5, 4];
      assert [5, 5, 4][..2] == [5, 5];
      assert [5, 5][..1] == [5];
      assert [5][..0] == [];
    }
    assert FallbackScore(reviews) == 95.0;
    RoundInt(95);
  }

  /** Ratings 1, 2, 1 give 26.67, shown as 27, and Negative. */
  lemma FallbackExampleNegative()
    ensures var r := Fallback([StarReview("", 1), StarReview("", 2), StarReview("", 1)]);
      r.score == 27 && r.overallSentiment == Negative
  {
    var reviews := [StarReview("", 1), StarReview("", 2), StarReview("", 1)];
    assert Stars(reviews) == [1, 2, 1];
    assert Sum([1, 2, 1]) == 4 by {
      assert [1, 2, 1][..2] == [1, 2];
      assert [1, 2][..1] == [1];
      assert [1][..0] == [];
    }
    assert FallbackScore(reviews) == 80.0 / 3.0;
    assert Round(80.0 / 3.0) == 27;
  }

  // ---------------------------------------------------------------------
  // analyzeSentiment

  /** The reply after `safeGenerateContent` and the `map` step. */
  function ParseReply(reply: Result<string>, parse: Parser): (r: Result<SentimentAnalysis>) {
    match reply
    case Err(_) => Err(GenerateFailedMessage)
    case Ok(text) =>
      var clean :- CleanJsonString(text);
      var v :- parse(clean);
      BuildAnalysis(v)
  }

  /** The whole pipeline, `catchError` included. */
  function AnalyzeSentiment(reviews: seq<StarReview>, reply: Result<string>, parse: Parser)
    : (r: Result<SentimentAnalysis>)
    ensures ParseReply(reply, parse).Ok? ==> r == ParseReply(reply, parse)
    ensures ParseReply(reply, parse).Err? && reviews != [] ==> r == Ok(Fallback(reviews))
    ensures ParseReply(reply, parse).Err? && reviews == [] ==> r == ParseReply(reply, parse)
  {
    var parsed := ParseReply(reply, parse);
    if parsed.Ok? then parsed
    else if reviews != [] then Ok(Fallback(reviews))
    else parsed
  }

  /** With at least one review the service always produces an analysis, and
      its score is in [0, 100] when the stars are in 1..5. */
  lemma AnalyzeSentimentTotal(reviews: seq<StarReview>, reply: Result<string>, parse: Parser)
    requires reviews != []
    requires forall i :: 0 <= i < |reviews| ==> 1 <= reviews[i].stars <= 5
    ensures AnalyzeSentiment(reviews, reply, parse).Ok?
    ensures 0 <= AnalyzeSentiment(reviews, reply, parse).value.score <= 100
  {
    if ParseReply(reply, parse).Err? {
      FallbackScoreBounds(reviews);
    }
  }

  /** A failed model call with no reviews re-raises the service's error. */
  lemma AnalyzeSentimentNoReviews(msg: string, parse: Parser)
    ensures AnalyzeSentiment([], Err(msg), parse) == Err(GenerateFailedMessage)
  {
  }

  /** A fenced, well-formed answer is taken over, normalised. */
  lemma AnalyzeSentimentFenced(reviews: seq<StarReview>, w0: string, x: string, w1: string,
                               parse: Parser, v: Json)
    requires AllSpace(w0) && AllSpace(w1) && Fences.Payload(x)
    requires parse(x) == Ok(v) && BuildAnalysis(v).Ok?
    ensures AnalyzeSentiment(reviews, Ok(Fences.Fenced(w0, x, w1)), parse) == BuildAnalysis(v)
  {
    CleanFencedPayload(w0, x, w1);
  }

  // ---------------------------------------------------------------------
  // getSentimentColor

  function GetSentimentColor(score: real): (r: string)
    ensures score >= 70.0 ==> r == "success"
    ensures 40.0 <= score < 70.0 ==> r == "warning"
    ensures score < 40.0 ==> r == "danger"
  {
    if score >= 70.0 then "success" else if score >= 40.0 then "warning" else "danger"
  }

  function ColorRank(color: string): nat {
    if color == "success" then 2 else if color == "warning" then 1 else 0
  }

  /** A higher score never gets a worse colour. */
  lemma SentimentColorMonotone(a: real, b: real)
    requires a <= b
    ensures ColorRank(GetSentimentColor(a)) <= ColorRank(GetSentimentColor(b))
  {
  }
}
