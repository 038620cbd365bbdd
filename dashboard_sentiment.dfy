/** The per-review sentiment classifier of the owner dashboard
    (src/services/dashboard-sentiment.service.ts): a request counter with a
    one-minute window, one model call per attempt, fence cleaning, result
    validation, retry on throttling errors, and a runner that processes the
    reviews in consecutive batches of 25.

    The generative model is an oracle: for each review, the sequence of
    attempts it answers, each carrying the `Date.now()` reading at the start
    of that attempt and either the reply text or the message of the error
    thrown. The source retries a throttled request without bound; here the
    retries stop when the review's attempts run out. */
module DashboardSentiment {
  import opened Wrappers
  import opened Text
  import opened Json
  import Fences

  const MaxRequestsPerMinute: nat := 1800
  const CooldownPeriod: int := 60000
  const BatchSize: nat := 25

  datatype Review = Review(text: string, stars: int, createdAt: int)

  /** The source's `SentimentResult { score, label }`; `label` is a reserved
      word in Dafny, so the label is held in the field `sentiment`. */
  datatype SentimentResult = SentimentResult(score: real, sentiment: string)

  /** The result returned for every failure other than throttling. */
  const NeutralResult := SentimentResult(0.0, "neutral")

  const Labels: seq<string> := ["positive", "neutral", "negative"]

  /** What the source's type guard accepts. */
  predicate Valid(r: SentimentResult) {
    -1.0 <= r.score <= 1.0 && r.sentiment in Labels
  }

  // ---------------------------------------------------------------------
  // The rate limiter

  /** `requestCounter` and `lastResetTime`. */
  datatype Limiter = Limiter(counter: nat, windowStart: int)

  /** `resetCounterIfNeeded` at time `now`. */
  function Reset(l: Limiter, now: int): (r: Limiter)
    ensures now - l.windowStart >= CooldownPeriod ==> r == Limiter(0, now)
    ensures now - l.windowStart < CooldownPeriod ==> r == l
  {
    if now - l.windowStart >= CooldownPeriod then Limiter(0, now) else l
  }

  /** A second reset at the same instant changes nothing. */
  lemma ResetIdempotent(l: Limiter, now: int)
    ensures Reset(Reset(l, now), now) == Reset(l, now)
  {
  }

  /** The time to sleep when the window is full. */
  function WaitTime(l: Limiter, now: int): int {
    CooldownPeriod - (now - l.windowStart)
  }

  /** A full window always has a positive wait left once the reset has run,
      and never more than one cooldown when the clock has not gone back. */
  lemma WaitTimeBounds(l: Limiter, now: int)
    requires Reset(l, now).counter >= MaxRequestsPerMinute
    ensures 0 < WaitTime(Reset(l, now), now)
    ensures now >= l.windowStart ==> WaitTime(Reset(l, now), now) <= CooldownPeriod
  {
  }

  /** The reset, the wait when the window is full (after which the counter
      is 0 and the window restarts when the sleep ends, at
      `now + WaitTime`), then `requestCounter++` for the call. */
  function Admit(l: Limiter, now: int): (r: Limiter)
    ensures 1 <= r.counter <= MaxRequestsPerMinute
  {
    var g := Reset(l, now);
    if g.counter >= MaxRequestsPerMinute then Limiter(1, now + WaitTime(g, now))
    else Limiter(g.counter + 1, g.windowStart)
  }

  /** Below the limit and inside the window, a call only counts itself. */
  lemma AdmitCounts(l: Limiter, now: int)
    requires now - l.windowStart < CooldownPeriod
    ensures l.counter < MaxRequestsPerMinute ==> Admit(l, now) == Limiter(l.counter + 1, l.windowStart)
    ensures l.counter >= MaxRequestsPerMinute ==>
      Admit(l, now) == Limiter(1, l.windowStart + CooldownPeriod)
  {
  }

  /** An expired window restarts at `now` with this call as its first. */
  lemma AdmitAfterWindow(l: Limiter, now: int)
    requires now - l.windowStart >= CooldownPeriod
    ensures Admit(l, now) == Limiter(1, now)
  {
  }

  // ---------------------------------------------------------------------
  // One attempt

  /** One model call: the clock when the attempt starts, and the reply text
      or the message of the error thrown by the model call. */
  datatype Attempt = Attempt(clock: int, reply: Result<string>)

  /** `.trim()`, the two global fence replacements, and `.trim()` again. */
  function CleanResponse(text: string): string {
    Trim(Fences.StripFences(Fences.StripJsonFences(Trim(text))))
  }

  /** A reply that is already the bare payload is kept as it is. */
  lemma CleanBarePayload(x: string)
    requires Fences.Payload(x)
    ensures CleanResponse(x) == x
  {
    TrimOfTrimmed(x);
    Fences.NoBacktickUnchanged(x);
  }

  /** A payload inside a ```json fence, with any whitespace around the
      fences, is cleaned to the payload. */
  lemma CleanFencedPayload(v0: string, w0: string, x: string, w1: string, v1: string)
    requires AllSpace(v0) && AllSpace(v1) && AllSpace(w0) && AllSpace(w1)
    requires Fences.Payload(x)
    ensures CleanResponse(v0 + Fences.Fenced(w0, x, w1) + v1) == x
  {
    var f := Fences.Fenced(w0, x, w1);
    assert Trim(v0 + f + v1) == f by {
      Fences.FencedEnds(w0, x, w1);
      TrimAroundFence(v0, f, v1);
    }
    assert Fences.StripJsonFences(f) == x + w1 + Fences.Fence by {
      Fences.StripJsonFencesOfFenced(w0, x, w1);
    }
    assert Fences.StripFences(x + w1 + Fences.Fence) == x + w1 by {
      Fences.StripFencesOfClosed(x, w1);
    }
    assert Trim(x + w1) == x by {
      assert x + w1 == [] + x + w1;
      TrimPadded([], x, w1);
    }
    CleanSteps(v0 + f + v1, f, x + w1 + Fences.Fence, x + w1, x);
  }

  /** The whitespace around a fenced reply is trimmed away. */
  lemma TrimAroundFence(v0: string, f: string, v1: string)
    requires AllSpace(v0) && AllSpace(v1)
    requires f != [] && f[0] == '`' && f[|f| - 1] == '`'
    ensures Trim(v0 + f + v1) == f
  {
    TrimPadded(v0, f, v1);
  }

  /** The cleaning, one step after the other. */
  lemma CleanSteps(text: string, t1: string, t2: string, t3: string, r: string)
    requires Trim(text) == t1 && Fences.StripJsonFences(t1) == t2
    requires Fences.StripFences(t2) == t3 && Trim(t3) == r
    ensures CleanResponse(text) == r
  {
  }

  /** Text without backticks is only trimmed. */
  lemma CleanNoBackticks(text: string)
    requires '`' !in text
    ensures CleanResponse(text) == Trim(text)
  {
    TrimNoNewChars(text, '`');
    Fences.NoBacktickUnchanged(Trim(text));
    TrimIdempotent(text);
  }

  /** The message of the TypeError raised by reading `score` of `null`. */
  const NullScoreMessage := "Cannot read properties of null (reading 'score')"

  const InvalidFormatMessage := "Invalid sentiment result format"

  /** `isValidSentimentResult` on a parsed value other than `null`: an object
      (arrays have no `score`) with a number `score` in [-1, 1] and a string
      `label` among the three labels. */
  predicate IsValidSentimentResult(v: Json) {
    v.JObj? && "score" in v.fields && "label" in v.fields
    && v.fields["score"].JNum? && -1.0 <= v.fields["score"].n <= 1.0
    && v.fields["label"].JStr? && v.fields["label"].s in Labels
  }

  /** The type guard and the `throw` that follows it. */
  function Validate(v: Json): (r: Result<SentimentResult>)
    ensures r.Ok? <==> IsValidSentimentResult(v)
    ensures r.Ok? ==> Valid(r.value)
    ensures r.Ok? ==> Get(v, "score") == Some(JNum(r.value.score))
                      && Get(v, "label") == Some(JStr(r.value.sentiment))
    ensures v.JNull? ==> r == Err(NullScoreMessage)
    ensures r.Err? && !v.JNull? ==> r == Err(InvalidFormatMessage)
  {
    if v.JNull? then Err(NullScoreMessage)
    else if IsValidSentimentResult(v) then
      Ok(SentimentResult(v.fields["score"].n, v.fields["label"].s))
    else Err(InvalidFormatMessage)
  }

  /** How the service reads a reply: clean it, then `JSON.parse` it. */
  function ReadReply(parse: Parser): Parser {
    text => parse(CleanResponse(text))
  }

  /** Everything in the `try` block after the model call: read the reply
      (`ReadReply` of `JSON.parse`) and validate the value. */
  function AttemptOutcome(reply: Result<string>, read: Parser): (r: Result<SentimentResult>)
    ensures r.Ok? ==> Valid(r.value)
    ensures reply.Err? ==> r == Err(reply.msg)
  {
    match reply
    case Err(m) => Err(m)
    case Ok(text) =>
      var v :- read(text);
      Validate(v)
  }

  /** The `catch` test that triggers a retry. */
  predicate IsThrottle(msg: string) {
    Contains(msg, "429") || Contains(msg, "quota")
  }

  // ---------------------------------------------------------------------
  // One review

  datatype Outcome = Outcome(result: SentimentResult, limiter: Limiter)

  /** An attempt once its `try` block has run: the clock when it started
      and what the block gave. */
  datatype Step = Step(clock: int, outcome: Result<SentimentResult>)

  /** Every successful step carries a result that passes the type guard. */
  ghost predicate AllValid(steps: seq<Step>) {
    forall i :: 0 <= i < |steps| ==> steps[i].outcome.Ok? ==> Valid(steps[i].outcome.value)
  }

  /** The step one attempt makes. */
  function StepOf(a: Attempt, read: Parser): Step {
    Step(a.clock, AttemptOutcome(a.reply, read))
  }

  /** The steps the attempts make, one per attempt and in the same order. */
  function Steps(attempts: seq<Attempt>, read: Parser): (r: seq<Step>)
    ensures |r| == |attempts|
    ensures AllValid(r)
  {
    seq(|attempts|, i requires 0 <= i < |attempts| => StepOf(attempts[i], read))
  }

  /** Dropping the first attempt drops the first step. */
  lemma StepsTail(attempts: seq<Attempt>, read: Parser)
    requires attempts != []
    ensures Steps(attempts[1..], read) == Steps(attempts, read)[1..]
  {
    var a, b := Steps(attempts[1..], read), Steps(attempts, read)[1..];
    forall i | 0 <= i < |a| ensures a[i] == b[i] {
      assert a[i] == StepOf(attempts[1..][i], read);
      assert b[i] == StepOf(attempts[i + 1], read);
      assert attempts[1..][i] == attempts[i + 1];
    }
  }

  /** The retry loop of `analyzeSentiment`: each step is first admitted by
      the rate limiter; a success decides, a throttling error moves on to
      the next step, and any other error gives the neutral result. */
  function Decide(l: Limiter, steps: seq<Step>): (o: Outcome)
    ensures AllValid(steps) ==> Valid(o.result)
    ensures steps != [] || l.counter <= MaxRequestsPerMinute ==>
      o.limiter.counter <= MaxRequestsPerMinute
    ensures steps == [] ==> o == Outcome(NeutralResult, l)
    decreases |steps|
  {
    if steps == [] then Outcome(NeutralResult, l)
    else
      var l1 := Admit(l, steps[0].clock);
      match steps[0].outcome
      case Ok(r) => Outcome(r, l1)
      case Err(m) =>
        if IsThrottle(m) then Decide(l1, steps[1..])
        else Outcome(NeutralResult, l1)
  }

  /** The decided result is the neutral fallback or the successful outcome
      of one of the steps, whose index the lemma returns. */
  lemma {:induction false} DecideOrigin(l: Limiter, steps: seq<Step>) returns (i: nat)
    ensures Decide(l, steps).result == NeutralResult ||
      (i < |steps| && steps[i].outcome == Ok(Decide(l, steps).result))
    decreases |steps|
  {
    i := 0;
    if steps != [] && steps[0].outcome.Err? && IsThrottle(steps[0].outcome.msg) {
      var k := DecideOrigin(Admit(l, steps[0].clock), steps[1..]);
      i := k + 1;
    }
  }

  /** `analyzeSentiment`: the attempts' steps, decided in order. */
  function Classify(l: Limiter, attempts: seq<Attempt>, read: Parser): (o: Outcome)
    ensures Valid(o.result)
    ensures attempts != [] || l.counter <= MaxRequestsPerMinute ==>
      o.limiter.counter <= MaxRequestsPerMinute
    ensures attempts == [] ==> o == Outcome(NeutralResult, l)
  {
    Decide(l, Steps(attempts, read))
  }

  /** The result is the neutral fallback or the validated answer of one of
      the attempts, whose index the lemma returns. */
  lemma ClassifyResultOrigin(l: Limiter, attempts: seq<Attempt>, read: Parser)
    returns (i: nat)
    ensures Classify(l, attempts, read).result == NeutralResult ||
      (i < |attempts| && AttemptOutcome(attempts[i].reply, read) == Ok(Classify(l, attempts, read).result))
  {
    var s := Steps(attempts, read);
    i := DecideOrigin(l, s);
    if i < |s| {
      assert s[i] == StepOf(attempts[i], read);
    }
  }

  /** A validated answer on the first attempt is the result. */
  lemma ClassifyAnswered(l: Limiter, attempts: seq<Attempt>, read: Parser)
    requires attempts != []
    requires AttemptOutcome(attempts[0].reply, read).Ok?
    ensures Classify(l, attempts, read) ==
      Outcome(AttemptOutcome(attempts[0].reply, read).value, Admit(l, attempts[0].clock))
  {
    assert Steps(attempts, read)[0] == StepOf(attempts[0], read);
  }

  /** A throttling error makes the next attempt answer the same request. */
  lemma ClassifyRetriesOnThrottle(l: Limiter, attempts: seq<Attempt>, read: Parser)
    requires attempts != []
    requires AttemptOutcome(attempts[0].reply, read).Err?
    requires IsThrottle(AttemptOutcome(attempts[0].reply, read).msg)
    ensures Classify(l, attempts, read) ==
      Classify(Admit(l, attempts[0].clock), attempts[1..], read)
  {
    assert Steps(attempts, read)[0] == StepOf(attempts[0], read);
    StepsTail(attempts, read);
  }

  /** Any other error ends the request with the neutral result. */
  lemma ClassifyNeutralOnOtherError(l: Limiter, attempts: seq<Attempt>, read: Parser)
    requires attempts != []
    requires AttemptOutcome(attempts[0].reply, read).Err?
    requires !IsThrottle(AttemptOutcome(attempts[0].reply, read).msg)
    ensures Classify(l, attempts, read) ==
      Outcome(NeutralResult, Admit(l, attempts[0].clock))
  {
    assert Steps(attempts, read)[0] == StepOf(attempts[0], read);
  }

  /** A fenced, valid answer is accepted as parsed. */
  lemma FencedAnswerAccepted(w0: string, x: string, w1: string, parse: Parser, v: Json)
    requires AllSpace(w0) && AllSpace(w1) && Fences.Payload(x)
    requires parse(x) == Ok(v) && IsValidSentimentResult(v)
    ensures AttemptOutcome(Ok(Fences.Fenced(w0, x, w1)), ReadReply(parse)) ==
      Ok(SentimentResult(v.fields["score"].n, v.fields["label"].s))
  {
    var f := Fences.Fenced(w0, x, w1);
    CleanFencedPayload([], w0, x, w1, []);
    assert [] + f + [] == f;
    AcceptedAfterCleaning(f, parse, v);
  }

  /** An answer whose cleaned text parses to a valid value is accepted. */
  lemma AcceptedAfterCleaning(text: string, parse: Parser, v: Json)
    requires parse(CleanResponse(text)) == Ok(v) && IsValidSentimentResult(v)
    ensures AttemptOutcome(Ok(text), ReadReply(parse)) ==
      Ok(SentimentResult(v.fields["score"].n, v.fields["label"].s))
  {
  }

  // ---------------------------------------------------------------------
  // Many reviews, one after the other

  datatype Run = Run(results: seq<SentimentResult>, limiter: Limiter)

  /** The reviews classified in order, each starting from the limiter the
      previous one left. */
  function ClassifyAll(l: Limiter, replies: seq<seq<Attempt>>, read: Parser): (r: Run)
    ensures |r.results| == |replies|
    decreases |replies|
  {
    if replies == [] then Run([], l)
    else
      var prev := ClassifyAll(l, replies[..|replies| - 1], read);
      var o := Classify(prev.limiter, replies[|replies| - 1], read);
      Run(prev.results + [o.result], o.limiter)
  }

  /** Result `i` is the outcome of review `i`'s own attempts, from the
      limiter state the reviews before it left. */
  lemma {:induction false} ClassifyAllPointwise(l: Limiter, replies: seq<seq<Attempt>>, read: Parser, i: nat)
    requires i < |replies|
    ensures ClassifyAll(l, replies, read).results[i] ==
      Classify(ClassifyAll(l, replies[..i], read).limiter, replies[i], read).result
    decreases |replies|
  {
    var m := |replies| - 1;
    if i < m {
      ClassifyAllPointwise(l, replies[..m], read, i);
      assert replies[..m][..i] == replies[..i];
      assert replies[..m][i] == replies[i];
    } else {
      assert replies[..m] == replies[..i];
    }
  }

  /** Every result of a run passes the type guard. */
  lemma {:induction false} ClassifyAllValid(l: Limiter, replies: seq<seq<Attempt>>, read: Parser)
    ensures forall i :: 0 <= i < |replies| ==> Valid(ClassifyAll(l, replies, read).results[i])
    decreases |replies|
  {
    if replies != [] {
      ClassifyAllValid(l, replies[..|replies| - 1], read);
    }
  }

  /** Running two groups of reviews one after the other is running them
      together: splitting into batches does not change any result. */
  lemma {:induction false} ClassifyAllAppend(l: Limiter, a: seq<seq<Attempt>>, b: seq<seq<Attempt>>, read: Parser)
    ensures var ra := ClassifyAll(l, a, read);
      var rb := ClassifyAll(ra.limiter, b, read);
      ClassifyAll(l, a + b, read) == Run(ra.results + rb.results, rb.limiter)
    decreases |b|
  {
    if b == [] {
      assert a + b == a;
    } else {
      var m := |b| - 1;
      assert (a + b)[..|a + b| - 1] == a + b[..m];
      assert (a + b)[|a + b| - 1] == b[m];
      ClassifyAllAppend(l, a, b[..m], read);
    }
  }

  /** A run of the reviews before `j`, then review `j`, is the run of the
      reviews up to `j`. */
  lemma ClassifyAllSnoc(l: Limiter, replies: seq<seq<Attempt>>, j: nat, read: Parser,
                        results: seq<SentimentResult>, mid: Limiter)
    requires j < |replies|
    requires Run(results, mid) == ClassifyAll(l, replies[..j], read)
    ensures var o := Classify(mid, replies[j], read);
      ClassifyAll(l, replies[..j + 1], read) == Run(results + [o.result], o.limiter)
  {
    assert replies[..j + 1][..j] == replies[..j];
    assert replies[..j + 1][j] == replies[j];
  }

  /** A run of the reviews before `i`, then of those from `i` to `end`, is
      the run of the reviews before `end`. */
  lemma ClassifyAllStep(l: Limiter, replies: seq<seq<Attempt>>, i: nat, end: nat, read: Parser,
                        results: seq<SentimentResult>, mid: Limiter)
    requires i <= end <= |replies|
    requires Run(results, mid) == ClassifyAll(l, replies[..i], read)
    ensures var rb := ClassifyAll(mid, replies[i..end], read);
      ClassifyAll(l, replies[..end], read) == Run(results + rb.results, rb.limiter)
  {
    ClassifyAllAppend(l, replies[..i], replies[i..end], read);
    assert replies[..i] + replies[i..end] == replies[..end];
  }

  // ---------------------------------------------------------------------
  // Batches

  /** The number of batches of 25 that `n` reviews make. */
  function NumBatches(n: nat): nat {
    (n + BatchSize - 1) / BatchSize
  }

  /** The consecutive slices `reviews.slice(i, i + 25)` for i = 0, 25, 50, …. */
  function Batches<T>(s: seq<T>): (r: seq<seq<T>>)
    ensures |r| == NumBatches(|s|)
    ensures forall k :: 0 <= k < |r| ==> 1 <= |r[k]| <= BatchSize
    decreases |s|
  {
    if s == [] then []
    else if |s| <= BatchSize then [s]
    else [s[..BatchSize]] + Batches(s[BatchSize..])
  }

  function Flatten<T>(ss: seq<seq<T>>): seq<T>
    decreases |ss|
  {
    if ss == [] then [] else ss[0] + Flatten(ss[1..])
  }

  /** The batches cover the input exactly and in order. */
  lemma {:induction false} BatchesCover<T>(s: seq<T>)
    ensures Flatten(Batches(s)) == s
    decreases |s|
  {
    if s != [] {
      if |s| <= BatchSize {
        assert Flatten([s]) == s + Flatten([s][1..]);
        assert s + [] == s;
      } else {
        BatchesCover(s[BatchSize..]);
        var r := Batches(s);
        assert r[0] == s[..BatchSize] && r[1..] == Batches(s[BatchSize..]);
        assert s == s[..BatchSize] + s[BatchSize..];
      }
    }
  }

  /** Batch number `b` is the slice of 25 starting at 25·b, cut short at the
      end of the input. */
  lemma {:induction false} BatchAt<T>(s: seq<T>, b: nat)
    requires b * BatchSize < |s|
    ensures b < |Batches(s)|
    ensures Batches(s)[b] == s[b * BatchSize..if b * BatchSize + BatchSize < |s| then b * BatchSize + BatchSize else |s|]
    decreases b
  {
    if b > 0 {
      var t := s[BatchSize..];
      var lo := (b - 1) * BatchSize;
      assert lo + BatchSize == b * BatchSize;
      BatchAt(t, b - 1);
      assert Batches(s) == [s[..BatchSize]] + Batches(t);
      assert Batches(s)[b] == Batches(t)[b - 1];
      var hi := if lo + BatchSize < |t| then lo + BatchSize else |t|;
      assert t[lo..hi] == s[lo + BatchSize..hi + BatchSize] by {
        assert |t[lo..hi]| == |s[lo + BatchSize..hi + BatchSize]|;
        forall k | 0 <= k < hi - lo
          ensures t[lo..hi][k] == s[lo + BatchSize..hi + BatchSize][k]
        {
          assert t[lo..hi][k] == t[lo + k] == s[BatchSize + lo + k];
        }
      }
    }
  }

  /** Passing the slice that starts at 25·b extends the batches passed so far
      by the next one. */
  lemma NextBatch<T>(s: seq<T>, b: nat, i: nat, end: nat)
    requires i == b * BatchSize < |s|
    requires end == if i + BatchSize < |s| then i + BatchSize else |s|
    ensures b < |Batches(s)|
    ensures Batches(s)[..b + 1] == Batches(s)[..b] + [s[i..end]]
  {
    BatchAt(s, b);
  }

  /** The pauses `analyzeReviewsBatch` makes: one between each two batches. */
  function NumPauses(n: nat): nat {
    if n == 0 then 0 else NumBatches(n) - 1
  }

  /** The batch starting at 25·b is the last one exactly when it reaches the
      end, and then b pauses have been made. */
  lemma LastBatch(n: nat, b: nat)
    requires b * BatchSize < n <= b * BatchSize + BatchSize
    ensures NumPauses(n) == b
  {
    assert b * BatchSize + BatchSize <= n + BatchSize - 1 < (b + 1) * BatchSize + BatchSize;
  }

  // ---------------------------------------------------------------------
  // The service object

  class DashboardSentimentService {
    var requestCounter: nat
    var lastResetTime: int

    /** A new service; its window starts at the creation time. */
    constructor(now: int)
      ensures requestCounter == 0 && lastResetTime == now
    {
      requestCounter := 0;
      lastResetTime := now;
    }

    function State(): Limiter
      reads this
    {
      Limiter(requestCounter, lastResetTime)
    }

    method ResetCounterIfNeeded(now: int)
      modifies this
      ensures State() == Reset(old(State()), now)
    {
      if now - lastResetTime >= CooldownPeriod {
        requestCounter := 0;
        lastResetTime := now;
      }
    }

    /** `analyzeSentiment` for one review, answered by `attempts`. */
    method AnalyzeSentiment(attempts: seq<Attempt>, parse: Parser) returns (r: SentimentResult)
      modifies this
      ensures Outcome(r, State()) == Classify(old(State()), attempts, ReadReply(parse))
      decreases |attempts|
    {
      if attempts == [] {
        return NeutralResult;
      }
      var a := attempts[0];
      ghost var l0 := State();
      ResetCounterIfNeeded(a.clock);
      if requestCounter >= MaxRequestsPerMinute {
        var waitTime := CooldownPeriod - (a.clock - lastResetTime);
        requestCounter := 0;
        lastResetTime := a.clock + waitTime;
      }
      requestCounter := requestCounter + 1;
      assert State() == Admit(l0, a.clock);
      var outcome := AttemptOutcome(a.reply, ReadReply(parse));
      if outcome.Ok? {
        ClassifyAnswered(l0, attempts, ReadReply(parse));
        return outcome.value;
      }
      if IsThrottle(outcome.msg) {
        ClassifyRetriesOnThrottle(l0, attempts, ReadReply(parse));
        r := AnalyzeSentiment(attempts[1..], parse);
        return r;
      }
      ClassifyNeutralOnOtherError(l0, attempts, ReadReply(parse));
      return NeutralResult;
    }

    /** `Promise.all(batch.map(review => this.analyzeSentiment(review.text)))`,
        with the calls made one after the other. */
    method AnalyzeBatch(batch: seq<seq<Attempt>>, parse: Parser) returns (results: seq<SentimentResult>)
      modifies this
      ensures Run(results, State()) == ClassifyAll(old(State()), batch, ReadReply(parse))
    {
      ghost var start := State();
      results := [];
      var j := 0;
      while j < |batch|
        invariant j <= |batch|
        invariant Run(results, State()) == ClassifyAll(start, batch[..j], ReadReply(parse))
      {
        ghost var before := State();
        var r := AnalyzeSentiment(batch[j], parse);
        ClassifyAllSnoc(start, batch, j, ReadReply(parse), results, before);
        results := results + [r];
        j := j + 1;
      }
      assert batch[..j] == batch;
    }

    /** `analyzeReviewsBatch`: batches of 25 in order, each processed review
      by review, with a pause after every batch but the last. `replies[i]`
      answers the calls made for `reviews[i]`. */
    method AnalyzeReviewsBatch(reviews: seq<Review>, replies: seq<seq<Attempt>>, parse: Parser)
      returns (results: seq<SentimentResult>, pauses: nat, ghost slices: seq<seq<seq<Attempt>>>)
      requires |replies| == |reviews|
      modifies this
      ensures Run(results, State()) == ClassifyAll(old(State()), replies, ReadReply(parse))
      ensures pauses == NumPauses(|reviews|)
      ensures slices == Batches(replies)
    {
      ghost var start := State();
      results := [];
      pauses := 0;
      slices := [];
      var i := 0;
      ghost var b, done := 0, 0;
      while i < |reviews|
        invariant i == b * BatchSize
        invariant b <= |Batches(replies)| && slices == Batches(replies)[..b]
        invariant i >= |reviews| ==> b == |Batches(replies)|
        invariant done == if i < |reviews| then i else |reviews|
        invariant pauses == if i < |reviews| then b else NumPauses(|reviews|)
        invariant Run(results, State()) == ClassifyAll(start, replies[..done], ReadReply(parse))
        decreases |reviews| - i
      {
        var end := if i + BatchSize < |reviews| then i + BatchSize else |reviews|;
        ghost var before := State();
        var batchResults := AnalyzeBatch(replies[i..end], parse);
        ClassifyAllStep(start, replies, i, end, ReadReply(parse), results, before);
        results := results + batchResults;
        NextBatch(replies, b, i, end);
        slices := slices + [replies[i..end]];
        if i + BatchSize < |reviews| {
          pauses := pauses + 1;
        } else {
          LastBatch(|reviews|, b);
        }
        i := i + BatchSize;
        b := b + 1;
        done := end;
      }
      assert replies[..done] == replies;
      assert Batches(replies)[..b] == Batches(replies);
    }
  }
}
