# GoPekan restaurant reviews — a verified model of the review core

GoPekan is an Ionic/Angular app in which customers post star ratings and
reviews of restaurants, owners answer them and read an AI-made analysis of
them, and administrators verify restaurants and watch the totals. This
project models, in Dafny, the part of the app that computes something from
reviews:

- the three services that turn reviews into an analysis through a language
  model: the per-review sentiment classifier with its rate limiter, retry
  and batches (`DashboardSentiment`); the restaurant-level summary with its
  fence cleaning, normalisation and star-based fallback
  (`SentimentAnalysis`); and the sectioned free-text report with its prompt
  and parser (`ReviewAnalysis`);
- the owner's review dashboard: the guarded fetch of a restaurant's
  reviews, the newest-first prompt data, the confidence fix and the merge of
  the restaurant name (`ReviewDashboardService`), the page's state and its
  colour and trend helpers (`ReviewDashboardPage`), and the trend chart's
  prediction (`TrendPrediction`);
- the pages that compute over reviews or restaurant records: the customer's
  review page (`UserReviewPage`), the owner's review page with replies
  (`OwnerReviewPage`), the administrator's dashboard (`AdminDashboardPage`)
  and home page (`AdminHomePage`), the operating-hours editor
  (`OperatingPage`), the collapsing search bar (`UserHomePage`) and the
  profile form (`ProfilePage`).

Shared modules give the JavaScript operations these use their meaning on
exact values: `Text` (ASCII `trim`, `includes`, `indexOf`, `split`/`join`,
digits and `String(n)` of a whole number), `NumberText` (`Number(text)` as
section 7.1.4.1.1 of ECMA-262 reads a string, and `String(x)` of a number as
section 6.1.6.1.20 writes it), `Json` (values as `JSON.parse` produces them,
property access, truthiness, `String(v)` and `Number(v)`, an array going
through its string as JavaScript does), `Fences` (the global
regular-expression replacements that strip Markdown code fences, written as
left-to-right scans), `Numbers` (`Math.round`, clamping, `toFixed(1)`,
`reduce` sums and means) and `Sorting` (the stable comparator sort, largest
key first, and `map`). `Wrappers` holds `Option` and `Result`; an `Err`
carries the message of the error the source throws.

Firestore, Firebase Auth, the language model and the clock are not called:
what they return is a parameter of the operation that uses it (a snapshot,
a fetch outcome, the text of a reply, the current time, whether a write
succeeded). Pages whose methods update fields are classes with `modifies`
clauses; the services, which compute values, are functions, except for the
loops of the source, which are methods with loop invariants.

Three behaviours of the code are worth stating on their own:

- the per-review classifier retries a throttled request with no bound on
  the number of retries (src/services/dashboard-sentiment.service.ts:77-87);
- the trend chart adds or subtracts ten points and clamps to [0, 100], with
  no rounding of the result
  (src/app/business-owner/review-dashboard/components/trend-prediction-chart.component.ts:55-66);
- the confidence fix multiplies only values strictly below 1, so a
  confidence of exactly 1 stays 1 (src/services/review-dashboard.service.ts:147-149).

## Model

| member | source | states |
|---|---|---|
| DashboardSentiment.Reset | src/services/dashboard-sentiment.service.ts:33-39 | an expired window (one minute or more) restarts at `now` with a zero counter; otherwise the limiter is unchanged |
| DashboardSentiment.ResetIdempotent | src/services/dashboard-sentiment.service.ts:33-39 | a second reset at the same instant changes nothing |
| DashboardSentiment.WaitTimeBounds | src/services/dashboard-sentiment.service.ts:46-51 | after the reset a full window has a positive wait left, and never more than one cooldown when the clock has not gone back |
| DashboardSentiment.Admit | src/services/dashboard-sentiment.service.ts:46-60 | the counter after admission is at most the limit, and at least one (the call itself) |
| DashboardSentiment.AdmitCounts | src/services/dashboard-sentiment.service.ts:46-60 | below the limit and inside the window, a call only increments the counter |
| DashboardSentiment.AdmitAfterWindow | src/services/dashboard-sentiment.service.ts:33-60 | an expired window restarts at `now` with this call as its first |
| DashboardSentiment.CleanBarePayload | src/services/dashboard-sentiment.service.ts:63-68 | a reply that is already the bare payload is kept as it is |
| DashboardSentiment.CleanFencedPayload | src/services/dashboard-sentiment.service.ts:63-68 | a payload in a ```json fence, with any whitespace around the fences, is cleaned to the payload |
| DashboardSentiment.CleanNoBackticks | src/services/dashboard-sentiment.service.ts:63-68 | text without backticks is only trimmed |
| DashboardSentiment.Validate | src/services/dashboard-sentiment.service.ts:70-76 | a value is accepted exactly when it passes `isValidSentimentResult`, and `null` or an invalid value gives the error the source throws |
| DashboardSentiment.AttemptOutcome | src/services/dashboard-sentiment.service.ts:63-76 | an attempt succeeds only with a value that passes the type guard; a failed model call keeps its message |
| DashboardSentiment.Steps | src/services/dashboard-sentiment.service.ts:61-76 | one step per attempt, and every successful step carries a result that passes the type guard |
| DashboardSentiment.StepsTail | src/services/dashboard-sentiment.service.ts:84 | the retry sees the steps of the remaining attempts |
| DashboardSentiment.Decide | src/services/dashboard-sentiment.service.ts:43-87 | when every success passes the type guard so does the result; after one admitted call the counter is within the limit; with no step left the result is neutral and the limiter unchanged |
| DashboardSentiment.DecideOrigin | src/services/dashboard-sentiment.service.ts:76-87 | the decided result is the neutral fallback or the successful outcome of one of the steps |
| DashboardSentiment.Classify | src/services/dashboard-sentiment.service.ts:41-88 | every result of `analyzeSentiment` passes the type guard, and with no attempts left the result is neutral and the limiter unchanged |
| DashboardSentiment.ClassifyResultOrigin | src/services/dashboard-sentiment.service.ts:76-87 | the result is the neutral fallback or the validated answer of one of the attempts |
| DashboardSentiment.ClassifyAnswered | src/services/dashboard-sentiment.service.ts:70-76 | a validated answer on the first attempt is the result |
| DashboardSentiment.ClassifyRetriesOnThrottle | src/services/dashboard-sentiment.service.ts:79-85 | an error mentioning 429 or quota makes the next attempt answer the same request |
| DashboardSentiment.ClassifyNeutralOnOtherError | src/services/dashboard-sentiment.service.ts:86 | any other error ends the request with the neutral result |
| DashboardSentiment.FencedAnswerAccepted | src/services/dashboard-sentiment.service.ts:63-76 | a fenced answer whose payload parses to a valid value is accepted as parsed |
| DashboardSentiment.AcceptedAfterCleaning | src/services/dashboard-sentiment.service.ts:63-76 | an answer whose cleaned text parses to a valid value is accepted |
| DashboardSentiment.ClassifyAll | src/services/dashboard-sentiment.service.ts:90-108 | one result per review, in order |
| DashboardSentiment.ClassifyAllPointwise | src/services/dashboard-sentiment.service.ts:90-108 | result `i` is the outcome of review `i`'s own attempts, from the limiter state the reviews before it left |
| DashboardSentiment.ClassifyAllValid | src/services/dashboard-sentiment.service.ts:114-123 | every result of a run passes the type guard |
| DashboardSentiment.ClassifyAllAppend | src/services/dashboard-sentiment.service.ts:94-104 | running two groups one after the other is running them together, so cutting into batches changes no result |
| DashboardSentiment.ClassifyAllSnoc | src/services/dashboard-sentiment.service.ts:96-99 | the run of the reviews before `j`, then review `j`, is the run up to `j` |
| DashboardSentiment.ClassifyAllStep | src/services/dashboard-sentiment.service.ts:94-104 | the run of the reviews before a batch, then of the batch, is the run up to the batch's end |
| DashboardSentiment.Batches | src/services/dashboard-sentiment.service.ts:94-104 | there are `NumBatches` batches, one per 25 reviews begun, each non-empty and at most 25 long |
| DashboardSentiment.BatchAt | src/services/dashboard-sentiment.service.ts:94-104 | batch number `b` is the slice `reviews.slice(25·b, 25·b + 25)` |
| DashboardSentiment.BatchesCover | src/services/dashboard-sentiment.service.ts:94-104 | the batches, concatenated, are the input in order |
| DashboardSentiment.LastBatch | src/services/dashboard-sentiment.service.ts:100-103 | the batch at 25·b is the last exactly when it reaches the end, and then b pauses have been made |
| DashboardSentiment.DashboardSentimentService.constructor | src/services/dashboard-sentiment.service.ts:23-31 | a new service has a zero counter and a window starting at the creation time |
| DashboardSentiment.DashboardSentimentService.ResetCounterIfNeeded | src/services/dashboard-sentiment.service.ts:33-39 | the limiter becomes `Reset` of the old one |
| DashboardSentiment.DashboardSentimentService.AnalyzeSentiment | src/services/dashboard-sentiment.service.ts:41-88 | the result and the new limiter are those `Classify` gives from the old limiter |
| DashboardSentiment.DashboardSentimentService.AnalyzeBatch | src/services/dashboard-sentiment.service.ts:96-99 | the results and the new limiter are those `ClassifyAll` gives for the batch |
| DashboardSentiment.DashboardSentimentService.AnalyzeReviewsBatch | src/services/dashboard-sentiment.service.ts:90-108 | the results and the new limiter are those `ClassifyAll` gives for all reviews, in order; the pauses are `NumPauses`, one between each two batches; the slices passed to `AnalyzeBatch` are `Batches(replies)`, in order |
| SentimentAnalysis.CleanJsonString | src/services/sentiment-analysis.service.ts:42-55 | an empty reply is 'Empty or invalid response from API', every failure is one of the two errors, and a cleaned reply is trimmed, non-empty and free of backticks |
| SentimentAnalysis.CleanJsonStringEmptyAfter | src/services/sentiment-analysis.service.ts:50-52 | cleaning fails after the empty check exactly when nothing but fences, backticks and whitespace was sent |
| SentimentAnalysis.CleanBarePayload | src/services/sentiment-analysis.service.ts:42-55 | a bare payload passes through cleaning unchanged |
| SentimentAnalysis.CleanFencedPayload | src/services/sentiment-analysis.service.ts:42-55 | a payload in a ```json fence is recovered exactly |
| SentimentAnalysis.ZeroScoreRejected | src/services/sentiment-analysis.service.ts:107-114 | a score of 0 counts as missing |
| SentimentAnalysis.EmptySummaryRejected | src/services/sentiment-analysis.service.ts:107-114 | an empty summary counts as missing, an empty recommendation list does not |
| SentimentAnalysis.NormalizeOverallSentiment | src/services/sentiment-analysis.service.ts:167-174 | Positive exactly when the lower-cased text contains "positive"; Negative exactly when it contains "negative" and not "positive"; Neutral otherwise |
| SentimentAnalysis.NormalizeLabelText | src/services/sentiment-analysis.service.ts:167-174 | every label the service produces is read back as itself |
| SentimentAnalysis.KeepNumberChars | src/services/sentiment-analysis.service.ts:180 | only digits and dots are kept, the result is no longer than the input, a text of digits and dots only is kept whole, and a text with neither is emptied |
| SentimentAnalysis.StringScoreNonNegative | src/services/sentiment-analysis.service.ts:179-181 | a text score, once only its digits and dots are kept, reads as NaN or as a number of at least 0 |
| SentimentAnalysis.NormalizeNumber | src/services/sentiment-analysis.service.ts:183-188 | the result is in [0, 100]: NaN becomes 50, Infinity 100, -Infinity 0, and a finite number is clamped to [0, 100] and rounded |
| SentimentAnalysis.NormalizeScore | src/services/sentiment-analysis.service.ts:176-189 | the score is in [0, 100] for every JSON value |
| SentimentAnalysis.NormalizeWhole | src/services/sentiment-analysis.service.ts:183-188 | a whole number is clamped to [0, 100] |
| SentimentAnalysis.NormalizeScoreIdempotent | src/services/sentiment-analysis.service.ts:176-189 | a score the service produced is read back unchanged |
| SentimentAnalysis.NormalizeScoreOfNumberText | src/services/sentiment-analysis.service.ts:179-181 | the text of a whole number reads back as that number, capped at 100 |
| SentimentAnalysis.NormalizeScoreOfTexts | src/services/sentiment-analysis.service.ts:179-188 | the text "-5" scores 5 (the sign is dropped), "abc" and "Infinity" score 0 (nothing is left, and `Number("")` is 0), and "1.2.3" scores 50 (NaN) |
| SentimentAnalysis.NormalizeScoreOfArray | src/services/sentiment-analysis.service.ts:177-188 | an array holding one number scores as that number; the empty array scores 0; an array of two or more elements scores 50 |
| SentimentAnalysis.NormalizeScoreOfTextArray | src/services/sentiment-analysis.service.ts:177-188 | an array is not a string, so its text keeps its sign: `["Infinity"]` scores 100, `["-Infinity"]` and `["-5"]` score 0 |
| SentimentAnalysis.TrimRecommendations | src/services/sentiment-analysis.service.ts:122-124 | every kept recommendation is non-empty and trimmed, and there are no more than the input had |
| SentimentAnalysis.TrimRecommendationsAppend | src/services/sentiment-analysis.service.ts:122-124 | the order is kept: a concatenation gives the concatenation of the results |
| SentimentAnalysis.TrimRecommendationsClean | src/services/sentiment-analysis.service.ts:122-124 | clean recommendations are all kept as they are |
| SentimentAnalysis.TrimRecommendationsIdempotent | src/services/sentiment-analysis.service.ts:122-124 | trimming the list twice is trimming it once |
| SentimentAnalysis.StringItems | src/services/sentiment-analysis.service.ts:123 | an array of strings gives its strings, one per element; a failure means some element is not a string |
| SentimentAnalysis.StringItemsOfStrings | src/services/sentiment-analysis.service.ts:123 | reading strings back out of an array of strings gives them all |
| SentimentAnalysis.BuildAnalysis | src/services/sentiment-analysis.service.ts:103-127 | a built analysis has a score in [0, 100], a trimmed summary and clean recommendations; missing fields are the source's error |
| SentimentAnalysis.BuildAnalysisSummary | src/services/sentiment-analysis.service.ts:116-125 | an answer whose required fields are present, whose label is a string and whose recommendations are strings is built whatever parsed value its summary is, and the summary is `String(summary).trim()` |
| SentimentAnalysis.BuildAnalysisFields | src/services/sentiment-analysis.service.ts:116-125 | a well-formed answer is normalised field by field |
| SentimentAnalysis.FallbackLabel | src/services/sentiment-analysis.service.ts:142-147 | Positive from 60, Neutral from 40, Negative below |
| SentimentAnalysis.Fallback | src/services/sentiment-analysis.service.ts:136-158 | the fallback labels the unrounded score, rounds it for the score, and gives the two fixed recommendations |
| SentimentAnalysis.FallbackScoreBounds | src/services/sentiment-analysis.service.ts:137-139 | with ratings of 1 to 5 stars the fallback score lies in [20, 100] |
| SentimentAnalysis.FallbackExamplePositive | src/services/sentiment-analysis.service.ts:137-148 | ratings 5, 5, 4, 5 give 95 and Positive |
| SentimentAnalysis.FallbackExampleNegative | src/services/sentiment-analysis.service.ts:137-148 | ratings 1, 2, 1 give 27 and Negative |
| SentimentAnalysis.AnalyzeSentiment | src/services/sentiment-analysis.service.ts:88-163 | with reviews any failure gives the fallback; without reviews the error is re-raised |
| SentimentAnalysis.AnalyzeSentimentTotal | src/services/sentiment-analysis.service.ts:135-161 | with at least one review an analysis always results, with a score in [0, 100] when the stars are in 1..5 |
| SentimentAnalysis.AnalyzeSentimentNoReviews | src/services/sentiment-analysis.service.ts:88-97 | a failed model call with no reviews re-raises "Failed to generate sentiment analysis" |
| SentimentAnalysis.AnalyzeSentimentFenced | src/services/sentiment-analysis.service.ts:99-127 | a fenced, well-formed answer is taken over, normalised |
| SentimentAnalysis.GetSentimentColor | src/services/sentiment-analysis.service.ts:191-195 | success from 70, warning from 40, danger below |
| SentimentAnalysis.SentimentColorMonotone | src/services/sentiment-analysis.service.ts:191-195 | a higher score never gets a worse colour |
| ReviewAnalysis.FormattedReviews | src/services/review-analysis.service.ts:38-39 | one formatted entry per review, in order |
| ReviewAnalysis.FormatReviewsSplit | src/services/review-analysis.service.ts:38-39 | when no review text holds a blank line, the prompt's list splits back into one entry per review |
| ReviewAnalysis.FindFrom | src/services/review-analysis.service.ts:62-65 | searching the last `left` blocks, the index found holds the token and no earlier one of them does, or none of them does |
| ReviewAnalysis.FindAt | src/services/review-analysis.service.ts:62-65 | the first block containing the token is found |
| ReviewAnalysis.NumberLiterals | src/services/review-analysis.service.ts:68 | every number read is non-negative |
| ReviewAnalysis.NumberLiteralsSkip | src/services/review-analysis.service.ts:68 | text without digits contributes no number |
| ReviewAnalysis.NumberLiteralsNat | src/services/review-analysis.service.ts:68 | a whole number not followed by a digit or dot is read as that number |
| ReviewAnalysis.ListItems | src/services/review-analysis.service.ts:82-87 | at most one item per line, each trimmed |
| ReviewAnalysis.ListItemsAppend | src/services/review-analysis.service.ts:82-87 | the order of the lines is kept |
| ReviewAnalysis.ListItemsEmpty | src/services/review-analysis.service.ts:85 | there is an item exactly when some line is a bullet line |
| ReviewAnalysis.ListItemsNoBullets | src/services/review-analysis.service.ts:85 | lines none of which is a bullet line give no items |
| ReviewAnalysis.ListItemsBulletAt | src/services/review-analysis.service.ts:85-86 | a bullet line anywhere gives at least one item |
| ReviewAnalysis.BulletRoundTrip | src/services/review-analysis.service.ts:86 | a bullet line of a one-line item is read back as the item |
| ReviewAnalysis.ListItemsOfBullets | src/services/review-analysis.service.ts:82-87 | bullet lines of one-line items are read back as those items, in order |
| ReviewAnalysis.ParseListBlock | src/services/review-analysis.service.ts:82-87 | the bullets after a header line are read back exactly, in order |
| ReviewAnalysis.ParseSections | src/services/review-analysis.service.ts:62-79 | from any blocks, the parsed percentages are non-negative and the summary is trimmed |
| ReviewAnalysis.ParseResponse | src/services/review-analysis.service.ts:58-80 | the parsed percentages are non-negative and the summary is trimmed |
| ReviewAnalysis.ParseResponseNoHeaders | src/services/review-analysis.service.ts:62-79 | a reply with none of the headers gives an empty summary, zero percentages and no items |
| ReviewAnalysis.JoinContainsPiece | src/services/review-analysis.service.ts:59-65 | whatever a block contains the whole reply contains |
| ReviewAnalysis.SentimentBlockNumbers | src/services/review-analysis.service.ts:68-73 | the three percentages of the sentiment block are read back in order |
| ReviewAnalysis.SentimentBlockSafe | src/services/review-analysis.service.ts:59 | the sentiment block holds no blank line, so it stays one block |
| ReviewAnalysis.ParseReport | src/services/review-analysis.service.ts:58-80 | a report in the requested format is read back field for field, provided each block holds no blank line and no later header |
| ReviewAnalysis.ReportFinds | src/services/review-analysis.service.ts:62-65 | the summary, strengths and weaknesses headers are found in their own blocks |
| ReviewAnalysis.SummaryBlockRead | src/services/review-analysis.service.ts:62 | the summary block gives back its summary |
| ReviewAnalysis.SentimentBlockLacks | src/services/review-analysis.service.ts:64-65 | the sentiment block mentions neither list header |
| ReviewDashboardService.ReviewOf | src/services/review-dashboard.service.ts:80-87 | a missing date is the current time; the text and stars are kept |
| ReviewDashboardService.FetchOutcome | src/services/review-dashboard.service.ts:51-94 | no user, a missing restaurant and a foreign owner are rejected in that order with the source's messages; otherwise one review per document, in order |
| ReviewDashboardService.GetRestaurantReviews | src/services/review-dashboard.service.ts:51-94 | the method's loop produces `FetchOutcome` |
| ReviewDashboardService.NewestFirst | src/services/review-dashboard.service.ts:97-99 | a permutation of the reviews, latest timestamp first |
| ReviewDashboardService.Earliest | src/services/review-dashboard.service.ts:117 | the earliest timestamp is one of the reviews' and no review is earlier |
| ReviewDashboardService.Latest | src/services/review-dashboard.service.ts:117 | the latest timestamp is one of the reviews' and no review is later |
| ReviewDashboardService.MemberOfPermutation | src/services/review-dashboard.service.ts:97-99 | a review of one list is a review of a permutation of it |
| ReviewDashboardService.DateRangeOfNewestFirst | src/services/review-dashboard.service.ts:97-117 | the date range runs from the last to the first review of the newest-first list |
| ReviewDashboardService.CleanReply | src/services/review-dashboard.service.ts:143 | the cleaned reply is trimmed |
| ReviewDashboardService.CleanReplyNoBackticks | src/services/review-dashboard.service.ts:143 | a reply without backticks is only trimmed |
| ReviewDashboardService.CleanReplyFenced | src/services/review-dashboard.service.ts:143 | a fenced payload is taken out of its fence |
| ReviewDashboardService.FixedPrediction | src/services/review-dashboard.service.ts:147-149 | the object has the same fields afterwards, and every field other than the confidence is kept |
| ReviewDashboardService.FixedPredictionOfText | src/services/review-dashboard.service.ts:147-149 | a confidence sent as a text is fixed as the number `Number` reads from it, and a text that reads as NaN is kept |
| ReviewDashboardService.FixedPredictionOfDigits | src/services/review-dashboard.service.ts:147-149 | a confidence text of digits is read as its decimal value: a value of 0 becomes the percentage 0, a value of 1 or more is kept |
| ReviewDashboardService.FixedWithWhole | src/services/review-dashboard.service.ts:147-149 | a whole-number confidence of 0 becomes the percentage 0, and one of 1 or more is kept |
| ReviewDashboardService.FixedPredictionOfWrapped | src/services/review-dashboard.service.ts:147-149 | a confidence sent as a one-element array `[x]` is read as `x` and fixed exactly as `x` would be |
| ReviewDashboardService.FixConfidence | src/services/review-dashboard.service.ts:147-149 | the fix succeeds exactly when `trendPrediction` is present and not `null` (otherwise reading its confidence is a TypeError), and keeps every other field |
| ReviewDashboardService.AnalyzeReviews | src/services/review-dashboard.service.ts:96-156 | a failed call and a parse error are re-thrown; otherwise the fixed parsed reply |
| ReviewDashboardService.ConfidenceFix | src/services/review-dashboard.service.ts:147-149 | a confidence below 1 becomes the rounded percentage; any other number, 1 included, is kept |
| ReviewDashboardService.ConfidencePercent | src/services/review-dashboard.service.ts:147-149 | a fraction in [0, 1) becomes a whole percentage in [0, 100] |
| ReviewDashboardService.ConfidenceFixIdempotent | src/services/review-dashboard.service.ts:147-149 | for a non-negative confidence the fix applied twice is the fix applied once |
| ReviewDashboardService.WithName | src/services/review-dashboard.service.ts:165-168 | the name field is the document's; every other field is the analysis's |
| ReviewDashboardService.ReviewAnalysisOf | src/services/review-dashboard.service.ts:158-176 | a failed fetch is passed on, no reviews are the error "No reviews found for this restaurant", otherwise the named analysis |
| ReviewDashboardService.ReviewAnalysisNamed | src/services/review-dashboard.service.ts:165-168 | an emitted analysis carries the document's name and otherwise the fields of the fixed reply |
| ReviewDashboardService.GetReviewAnalysis | src/services/review-dashboard.service.ts:158-176 | the method produces `ReviewAnalysisOf` of the fetch outcome and the reply, and emits an analysis only for the signed-in owner of a restaurant with reviews |
| TrendPrediction.PredictionBounds | src/app/business-owner/review-dashboard/components/trend-prediction-chart.component.ts:55-66 | for a value in [0, 100] the prediction stays in [0, 100], moves by at most 10, and only in the trend's direction |
| TrendPrediction.PredictionExact | src/app/business-owner/review-dashboard/components/trend-prediction-chart.component.ts:59-64 | improving adds exactly 10 unless that passes 100, declining subtracts exactly 10 unless that passes 0, any other trend keeps the value |
| TrendPrediction.PredictionMonotone | src/app/business-owner/review-dashboard/components/trend-prediction-chart.component.ts:55-66 | the prediction is monotone in the current value for every trend |
| ReviewDashboardPage.MoodColor | src/app/business-owner/review-dashboard/review-dashboard.page.ts:59-63 | green exactly from 70, yellow exactly in [40, 70), red exactly below 40 |
| ReviewDashboardPage.MoodColorMonotone | src/app/business-owner/review-dashboard/review-dashboard.page.ts:59-63 | a higher percentage never gets a worse colour |
| ReviewDashboardPage.TrendIcon | src/app/business-owner/review-dashboard/review-dashboard.page.ts:65-71 | up exactly for improving, down exactly for declining, flat otherwise |
| ReviewDashboardPage.TrendIconMatchesChart | src/app/business-owner/review-dashboard/review-dashboard.page.ts:65-71 | the icon points the way the chart's prediction moves |
| ReviewDashboardPage.FailureText | src/app/business-owner/review-dashboard/review-dashboard.page.ts:43-50 | the error text is never empty and is the error's message when that is non-empty |
| ReviewDashboardPage.Page.constructor | src/app/business-owner/review-dashboard/review-dashboard.page.ts:12-22 | a new page is loading, with no error, no selection and no analysis stream |
| ReviewDashboardPage.Page.OnRouteParams | src/app/business-owner/review-dashboard/review-dashboard.page.ts:27-34 | a non-empty id is selected and loaded; otherwise the error is shown and loading stops |
| ReviewDashboardPage.Page.LoadReviewAnalysis | src/app/business-owner/review-dashboard/review-dashboard.page.ts:38-52 | a load sets loading, clears the error and switches to that restaurant's stream |
| ReviewDashboardPage.Page.Settle | src/app/business-owner/review-dashboard/review-dashboard.page.ts:43-50 | loading is cleared either way; a failure shows the error text and no analysis |
| UserReviewPage.Stars | src/app/user/review/review.page.ts:71 | one star rating per review, in order |
| UserReviewPage.AverageRatingBounds | src/app/user/review/review.page.ts:65-73 | with no reviews the average is 0; with ratings in 1..5 it lies in [1, 5] |
| UserReviewPage.AverageRatingNearMean | src/app/user/review/review.page.ts:71-72 | the average is within half a tenth of the exact mean |
| UserReviewPage.GetStars | src/app/user/review/review.page.ts:76-78 | the display always has five entries |
| UserReviewPage.GetStarsFilled | src/app/user/review/review.page.ts:76-78 | the entries are `round(rating)` ones, clamped to [0, 5], then zeros |
| UserReviewPage.WithIds | src/app/user/review/review.page.ts:133-142 | one review per document, in query order, each carrying its document id |
| UserReviewPage.Page.constructor | src/app/user/review/review.page.ts:51 | `restaurantId` is the route's id, or empty without one |
| UserReviewPage.Page.CalculateAverageRating | src/app/user/review/review.page.ts:65-73 | the average is `AverageRating` of the shown reviews; nothing else changes |
| UserReviewPage.Page.LoadReviews | src/app/user/review/review.page.ts:113-166 | nothing without a restaurant id or on a failed query; otherwise the reviews newest first, their count and average |
| UserReviewPage.LoadedReviewsOrdered | src/app/user/review/review.page.ts:145-151 | the loaded list is a permutation of the query's reviews, newest first, and the count is its length |
| UserReviewPage.LoadedAverage | src/app/user/review/review.page.ts:150-151 | the average shown after loading is the average of the query's reviews in any order |
| AdminDashboardPage.Fetched | src/app/admin/dashboard/dashboard.page.ts:56-80 | the loop gets as far as the first failed review fetch, every earlier fetch having succeeded |
| AdminDashboardPage.Entries | src/app/admin/dashboard/dashboard.page.ts:68-78 | one entry per restaurant, in order, with its name, review count and one-decimal average |
| AdminDashboardPage.Page.constructor | src/app/admin/dashboard/dashboard.page.ts:29-35 | a new page has zero totals and no entries |
| AdminDashboardPage.Page.LoadDashboardData | src/app/admin/dashboard/dashboard.page.ts:46-87 | a failed restaurant query changes nothing; otherwise the totals and the entries built so far, sorted by rating only when every fetch succeeded |
| AdminDashboardPage.TotalIsReviewCount | src/app/admin/dashboard/dashboard.page.ts:68-69 | `totalReviews` is the number of reviews of all restaurants |
| AdminDashboardPage.LoadedEntries | src/app/admin/dashboard/dashboard.page.ts:83 | the shown list is a permutation of the entries, one per restaurant, highest rating first, and its review counts add up to `totalReviews` |
| AdminDashboardPage.EntryRating | src/app/admin/dashboard/dashboard.page.ts:71-78 | no reviews give 0; ratings in 1..5 give a rating in [1, 5] within half a tenth of the mean |
| AdminHomePage.Matching | src/app/admin/home/home.page.ts:42-49 | every listed restaurant has the list's verification truthiness, and no list is longer than the snapshot |
| AdminHomePage.MatchingAppend | src/app/admin/home/home.page.ts:42-49 | the lists keep the snapshot order |
| AdminHomePage.MatchingSplits | src/app/admin/home/home.page.ts:42-49 | together the two lists are the snapshot, and their lengths add up to its size |
| AdminHomePage.MatchingMembership | src/app/admin/home/home.page.ts:42-49 | a restaurant is in the verified list when `isVerified` is truthy and in the unverified list otherwise |
| AdminHomePage.Page.LoadRestaurants | src/app/admin/home/home.page.ts:34-53 | a failed query leaves both lists; otherwise the lists are `Matching` of the snapshot for each truthiness |
| OperatingPage.Toggled | src/app/operating/operating.page.ts:57-67 | open exactly when enabled, 24-hour flag as given, 00:00-23:59 when enabled and the defaults otherwise |
| OperatingPage.WithWeekSets | src/app/operating/operating.page.ts:46-67 | each of the seven days gets the hours, every other key keeps its entry, and setting again changes nothing |
| OperatingPage.ToggledReadBack | src/app/operating/operating.page.ts:57-67 | the 24-hour flag of a toggled table, read back, is the toggle's argument |
| OperatingPage.CompletedKeeps | src/app/operating/operating.page.ts:112-121 | stored entries are kept, missing days get the default, nothing else is added, and a full table is unchanged |
| OperatingPage.CompletedEvery24 | src/app/operating/operating.page.ts:108-110 | the flag computed on the stored table agrees with the completed one |
| OperatingPage.DayDisplayName | src/app/operating/operating.page.ts:159-161 | the first character is upper-cased; the rest and the length are unchanged |
| OperatingPage.DayDisplayNameIdempotent | src/app/operating/operating.page.ts:159-161 | labelling twice is labelling once |
| OperatingPage.Page.constructor | src/app/operating/operating.page.ts:39 | a new page has no selection, the switch off, and the default hours on every day |
| OperatingPage.Page.SetEveryDay | src/app/operating/operating.page.ts:46-67 | every day gets the given hours |
| OperatingPage.Page.InitializeHours | src/app/operating/operating.page.ts:46-55 | every day gets 09:00-17:00, open, not 24 hours, and the table then holds all seven days |
| OperatingPage.Page.Toggle24Hours | src/app/operating/operating.page.ts:57-67 | the switch is the argument, every day gets `Toggled` of it, and the table then holds all seven days |
| OperatingPage.Page.LoadRestaurantHours | src/app/operating/operating.page.ts:97-129 | nothing changes without a selection or on a failure; a missing table resets the defaults; a stored one is completed, with the switch set from it |
| OperatingPage.Page.OnRestaurantChange | src/app/operating/operating.page.ts:88-95 | the selection is the value; a non-empty one loads its hours, an empty one resets the defaults |
| OperatingPage.Page.SaveOperatingHours | src/app/operating/operating.page.ts:131-148 | a table is written exactly when a restaurant is selected, and it is the whole table; the alert reports the outcome |
| OperatingPage.SavedTableReloads | src/app/operating/operating.page.ts:105-124 | a saved table loads back as itself, with the flag of the table |
| OwnerReviewPage.RepliedOnlyMatching | src/app/business-owner/review/review.page.ts:108-123 | only reviews with the id change, and of those only the reply and the draft; length and order are kept |
| OwnerReviewPage.RepliedIdempotent | src/app/business-owner/review/review.page.ts:108-123 | answering twice with the same text is answering once |
| OwnerReviewPage.RepliedAbsent | src/app/business-owner/review/review.page.ts:108-123 | a list without the id is unchanged |
| OwnerReviewPage.GetStarArray | src/app/business-owner/review/review.page.ts:151-153 | an array exactly for a whole rating in [0, 2^32), of that many zeros; otherwise the RangeError |
| OwnerReviewPage.Page.constructor | src/app/business-owner/review/review.page.ts:28-34 | a new page has no reviews, no restaurant id and is not loading |
| OwnerReviewPage.Page.LoadReviews | src/app/business-owner/review/review.page.ts:65-91 | nothing without a restaurant id; a failure only stops loading; otherwise the emitted reviews with empty drafts, in order |
| OwnerReviewPage.Page.ReplyToReview | src/app/business-owner/review/review.page.ts:93-127 | nothing without an id, a draft, a restaurant or a successful write; otherwise the list is `Replied` with the draft |
| UserHomePage.CollapseCases | src/app/user/home/home.page.ts:39-52 | a down scroll past 50 collapses, any up scroll expands, every other event keeps the state |
| UserHomePage.RunLast | src/app/user/home/home.page.ts:51 | after a run of events the last position is the last event's |
| UserHomePage.RunNoDecisive | src/app/user/home/home.page.ts:39-52 | with no deciding event the bar keeps its initial state |
| UserHomePage.RunLastDecisive | src/app/user/home/home.page.ts:43-48 | the bar is collapsed exactly when the last deciding event was a down scroll |
| UserHomePage.Page.HandleScroll | src/app/user/home/home.page.ts:39-52 | the new state is `Collapse` of the old state, the last position and the event; the position becomes the event's |
| ProfilePage.EditProfile | src/app/user/profile/profile.page.ts:64-103 | nothing without a user; a truthy phone number that is not 10-13 digits is refused with the warning; otherwise name and phone are written and the alert reports the outcome |
| Text.Trim | src/services/sentiment-analysis.service.ts:48 | the result has no whitespace at either edge and is no longer than the input |
| Text.TrimIsSlice | src/services/sentiment-analysis.service.ts:48 | the trimmed text is the input with its leading and trailing whitespace cut off, and nothing else |
| Text.TrimIdempotent | src/services/sentiment-analysis.service.ts:48 | trimming twice is trimming once |
| Text.TrimEmptyIffAllSpace | src/services/sentiment-analysis.service.ts:48-52 | trimming gives the empty text exactly when the input is all whitespace |
| Text.IndexOfFirst | src/services/sentiment-analysis.service.ts:171-172 | `indexOf` is the first occurrence |
| Text.JoinSplit | src/services/review-analysis.service.ts:59 | joining the split pieces gives back the input |
| Text.SplitJoin | src/services/review-analysis.service.ts:59 | splitting joined pieces without the separator gives the pieces back |
| Text.NatToStringValue | src/services/review-analysis.service.ts:68 | reading back the rendering of a natural number gives the number |
| Json.JsStringRenders | src/services/sentiment-analysis.service.ts:121 | `String(v)` is defined for every value `JSON.parse` can produce |
| Json.ToNumberOfSingleton | src/services/sentiment-analysis.service.ts:177 | `Number([x])` is `x` |
| Json.ToNumberOfTextSingleton | src/services/sentiment-analysis.service.ts:177 | `Number([s])` is `Number(s)` |
| Json.ToNumberOfEmpty | src/services/sentiment-analysis.service.ts:177 | `Number([])` and `Number([null])` are 0 |
| Json.ToNumberOfLonger | src/services/sentiment-analysis.service.ts:177 | an array of two or more elements reads as NaN, since its text holds a comma |
| Json.ToNumberForeign | src/services/sentiment-analysis.service.ts:177 | a text holding a character no number can contain reads as NaN, alone or in a one-element array |
| NumberText.Negate | src/services/sentiment-analysis.service.ts:177 | the sign of a number read after `-` is flipped; NaN stays NaN |
| NumberText.IndexOfCharIs | src/services/sentiment-analysis.service.ts:177 | the first occurrence of a character is where it is found after none before it |
| NumberText.ExponentAtIs | src/services/sentiment-analysis.service.ts:177 | the exponent marker is the first `e` or `E` |
| NumberText.DecimalDigits | src/services/sentiment-analysis.service.ts:177 | a run of digits has its decimal value |
| NumberText.ReadNumberForeign | src/services/sentiment-analysis.service.ts:177 | a text holding a character that no number text can contain (anything but whitespace, a digit, a hexadecimal letter, a sign, a point, or a letter of `0x`, `0o` or `Infinity`) reads as NaN |
| NumberText.UnsignedDigits | src/services/sentiment-analysis.service.ts:177 | an unsigned run of digits reads as its decimal value |
| NumberText.ReadDigits | src/services/sentiment-analysis.service.ts:179-181 | a text of digits reads as its decimal value |
| NumberText.ReadNegatedDigits | src/services/sentiment-analysis.service.ts:177 | `-` followed by digits reads as minus their decimal value |
| NumberText.ExponentOfSign | src/services/sentiment-analysis.service.ts:121 | the exponent that `String` writes reads back as itself |
| NumberText.ReadLayout | src/services/sentiment-analysis.service.ts:121 | each of the four layouts `String` uses (whole, pointed, leading `0.`, exponent) reads back as the digits it was given at the place it was given |
| NumberText.PositiveStringValue | src/services/sentiment-analysis.service.ts:121 | the text of a positive number is a layout of non-empty digits whose value, at that place, is the number |
| NumberText.PositiveStringUnsigned | src/services/sentiment-analysis.service.ts:121 | the text of a positive number starts and ends with a digit and reads as the number |
| NumberText.ReadPositiveString | src/services/sentiment-analysis.service.ts:121 | `Number(String(x))` is `x` for every positive `x` |
| NumberText.ReadNegativeString | src/services/sentiment-analysis.service.ts:121 | `Number(String(x))` is `x` for every negative `x` |
| NumberText.ReadNumberString | src/services/sentiment-analysis.service.ts:121 | `Number(String(x))` is `x` for every number that has a text |
| NumberText.PlacesOfScaled | src/services/sentiment-analysis.service.ts:121 | a positive decimal with at most `left` places is found within `left` places |
| NumberText.NumberStringDefined | src/services/sentiment-analysis.service.ts:121 | every decimal with at most 1074 places, as every double is, has a text, and so has its negation |
| Json.TruthyIsPresent | src/services/sentiment-analysis.service.ts:107-114 | a truthy value is neither `null` nor `undefined` |
| Fences.StripFencesOptJsonOfFenced | src/services/sentiment-analysis.service.ts:47 | `/```(?:json)?\s*/g` removes both fences |
| Fences.StripFencesAroundOfFenced | src/services/review-dashboard.service.ts:143 | `/```json\s*\|\s*```/g` removes both fences and the whitespace before the closing one |
| Fences.StripJsonFencesOfFenced | src/services/dashboard-sentiment.service.ts:64-67 | the json-fence replacement removes the opening fence and its whitespace |
| Fences.StripFencesOfClosed | src/services/dashboard-sentiment.service.ts:64-67 | the bare-fence replacement then removes the closing fence |
| Fences.NoBacktickUnchanged | src/services/dashboard-sentiment.service.ts:64-67 | text without backticks passes every fence replacement unchanged |
| Fences.NoBacktickAround | src/services/review-dashboard.service.ts:143 | text without backticks passes the dashboard's fence replacement unchanged, trailing whitespace included |
| Numbers.RoundMonotone | src/app/user/review/review.page.ts:77 | `Math.round` is monotone |
| Numbers.RoundTenthWithin | src/app/user/review/review.page.ts:72 | rounding to one decimal never leaves an interval with integer ends |
| Numbers.SumBounds | src/app/user/review/review.page.ts:71 | a sum of n terms in [lo, hi] lies in [n·lo, n·hi] |
| Numbers.SumPermutation | src/app/user/review/review.page.ts:71 | reordering the terms does not change the sum |
| Numbers.MeanTenthBounds | src/app/admin/dashboard/dashboard.page.ts:71-78 | no terms give 0; terms in [lo, hi] give a one-decimal mean in [lo, hi] |
| Numbers.MeanTenthPermutation | src/app/admin/dashboard/dashboard.page.ts:71-78 | the one-decimal mean does not depend on the order of the terms |
| Sorting.SortDesc | src/app/admin/dashboard/dashboard.page.ts:83 | the result is a permutation of the input with keys never increasing |
| Sorting.SortSorted | src/app/user/review/review.page.ts:145-147 | a sequence already in order is left as it is |
| Sorting.SortIdempotent | src/app/user/review/review.page.ts:145-147 | sorting a sorted result again changes nothing |
| Sorting.InsertHaving | src/app/admin/dashboard/dashboard.page.ts:83 | inserting an element puts it ahead of every element with the same key and keeps the order of the others |
| Sorting.SortStable | src/app/admin/dashboard/dashboard.page.ts:83 | the sort is stable: for each key, the elements that have it come out in the order they went in |
| Sorting.ProjectPermutation | src/app/admin/dashboard/dashboard.page.ts:83 | mapping two permutations of each other gives permutations of each other |

## Left out

- `JSON.parse` is not modelled: a parsed reply is an input, either a `Json` value or the parse error's message.
- The messages of JavaScript TypeErrors are approximations of the engine's wording: `not a string` and `Cannot read properties of null`.
- ReviewDashboardService.FixedPrediction: `Json.JNum` holds an exact real, so a number literal that `JSON.parse` overflows to ±Infinity (`-1e400`, say) cannot be represented. A confidence text that reads as -Infinity ("-Infinity") passes `< 1`, and the source stores -Infinity; the model has no infinite number to store and keeps the confidence as it was.
- Json.JsString: `String(v)` is `None` for a real with no decimal expansion within 1074 places (a third, say); no number that `JSON.parse` produces is such a real, and `Json.JsStringRenders` proves every parsed value has a text.
- SentimentAnalysis.BuildAnalysis: for a summary with no text, which no parsed value has, the model gives the error `TypeError: not a string`.
- Json.ToNumber: an array with no text is NaN; no parsed value is such an array.
- NumberText.NumberString: numbers are exact reals, so `String(x)` writes the digits of the exact value rather than the shortest digits that round to the same double; `-0` is not told apart from `0`.
- ReviewDashboardService.FixConfidence: the source changes the parsed object in place; the model returns the changed value, since the object has no other reference.
- DashboardSentiment.DashboardSentimentService.AnalyzeSentiment: the `setTimeout` waits are not modelled as waiting. Each attempt's clock is an input, and the clock after a wait is `now + WaitTime`.
- DashboardSentiment.Validate: the source hands on the parsed object itself; the model keeps only its `score` and `label`, so any other fields of the reply are dropped.
- DashboardSentiment.DashboardSentimentService.AnalyzeBatch: `Promise.all` starts the calls of a batch together. The model makes them one after the other, in batch order, so the rate limiter sees them in that order.
- DashboardSentiment.Classify: the retry is unbounded in the source. The model follows the finite list of attempts it is given, and gives the neutral result when the list runs out.
- A number literal beyond the range of a double, which `JSON.parse` turns into ±Infinity, has no `Json` value: parsed numbers are exact reals. A reply is a `Json` value, so such replies are outside the model.
- Floating point is not modelled: numbers are exact reals, so IEEE-754 rounding (for example in `toFixed` at exact ties) is not captured.
- The prompt's "average reviews per month" (src/services/review-dashboard.service.ts:118) depends on the current time and its float division; it is not modelled.
- Prompt wording, `toLocaleDateString` and the model call itself are not modelled; a reply is an input.
- Firestore and Firebase Auth are not called: snapshots, documents, the signed-in user and the outcome of each write are inputs.
- The timestamp `ownerReply.createdAt` (`new Date()`) that `replyToReview` stores is not modelled.
- A `collectionData` query is a live stream; the model takes one emission per call.
- `checkOwnerStatus` of the owner's review page, the route and auth subscriptions of `ngOnInit`, the operating page's `loadRestaurants`, `verifyRestaurant` of the administrator's home page and the restaurant-details loaders only read or write documents; they are not modelled.
- Chart creation and destruction in the trend chart component are display only and not modelled.
- Sorting.SortDesc: the sort is an insertion sort, which gives the same result as a stable comparator sort. The comparator's behaviour on NaN keys is not modelled.
- `trim`, `toLowerCase` and `toUpperCase` are modelled on ASCII. Unicode whitespace and case mappings are not.
- OwnerReviewPage.GetStarArray: only numeric ratings are modelled; `Array(n)` with a non-number argument is not.
