/** The three ways the services strip Markdown code fences from a model reply
    before parsing it. Each global regular-expression replacement is written
    as the left-to-right scan that `String.prototype.replace` with a `/g`
    pattern performs: at each position, a match is removed and scanning
    resumes after it; otherwise one character is kept.

    - `StripJsonFences` and `StripFences`: `/```json\s*\/g` and `/```\s*\/g`
      (src/services/dashboard-sentiment.service.ts);
    - `StripFencesOptJson` and `RemoveBackticks`: `/```(?:json)?\s*\/g` and
      `/`/g` (src/services/sentiment-analysis.service.ts);
    - `StripFencesAround`: `/```json\s*|\s*```/g`
      (src/services/review-dashboard.service.ts). */
module Fences {
  import opened Text

  const Fence := "```"
  const JsonFence := "```json"

  // ---------------------------------------------------------------------
  // Match lengths at the start of a string (0 = no match)

  /** The length of the whitespace run `\s*` at the start of `s`. */
  function LeadingSpaces(s: string): (k: nat)
    ensures k <= |s| && AllSpace(s[..k])
    ensures k < |s| ==> !IsSpace(s[k])
    ensures forall j :: 0 <= j < k ==> IsSpace(s[j])
  {
    var k := SkipSpaces(s, |s|);
    assert forall i :: 0 <= i < k ==> s[..k][i] == s[i];
    k
  }

  /** A whitespace run followed by a non-whitespace character is exactly what
      `\s*` consumes. */
  lemma LeadingSpacesOf(w: string, p: string)
    requires AllSpace(w)
    requires p != [] && !IsSpace(p[0])
    ensures LeadingSpaces(w + p) == |w|
  {
    var s := w + p;
    assert forall i :: 0 <= i < |w| ==> s[i] == w[i];
    assert s[|w|] == p[0];
    SkipSpacesAt(s, |s|, |w|);
  }

  /** A string starts with `p` only if its first character is `p`'s. */
  lemma StartsWithHead(s: string, p: string)
    requires p != []
    ensures StartsWith(s, p) ==> s != [] && s[0] == p[0]
  {
    if StartsWith(s, p) { assert s[..|p|][0] == s[0]; }
  }

  /** `/```json\s*\/` at the start of `s`. */
  function JsonFenceLen(s: string): (k: nat)
    ensures k <= |s|
    ensures k > 0 ==> StartsWith(s, JsonFence)
  {
    if StartsWith(s, JsonFence) then 7 + LeadingSpaces(s[7..]) else 0
  }

  /** `/```\s*\/` at the start of `s`. */
  function FenceLen(s: string): (k: nat)
    ensures k <= |s|
    ensures k > 0 ==> StartsWith(s, Fence)
  {
    if StartsWith(s, Fence) then 3 + LeadingSpaces(s[3..]) else 0
  }

  /** `/```(?:json)?\s*\/` at the start of `s`; the optional group is greedy. */
  function FenceOptJsonLen(s: string): (k: nat)
    ensures k <= |s|
    ensures k > 0 ==> StartsWith(s, Fence)
  {
    if !StartsWith(s, Fence) then 0
    else if StartsWith(s[3..], "json") then 7 + LeadingSpaces(s[7..])
    else 3 + LeadingSpaces(s[3..])
  }

  /** `/```json\s*|\s*```/` at the start of `s`: the first alternative is
      tried first; the greedy `\s*` of the second can only be followed by
      "```" at the end of the whitespace run. */
  function FenceAroundLen(s: string): (k: nat)
    ensures k <= |s|
  {
    if StartsWith(s, JsonFence) then 7 + LeadingSpaces(s[7..])
    else
      var w := LeadingSpaces(s);
      if StartsWith(s[w..], Fence) then w + 3 else 0
  }

  // ---------------------------------------------------------------------
  // Global replacements

  function StripJsonFences(s: string): string
    decreases |s|
  {
    if s == [] then []
    else if JsonFenceLen(s) > 0 then StripJsonFences(s[JsonFenceLen(s)..])
    else [s[0]] + StripJsonFences(s[1..])
  }

  function StripFences(s: string): string
    decreases |s|
  {
    if s == [] then []
    else if FenceLen(s) > 0 then StripFences(s[FenceLen(s)..])
    else [s[0]] + StripFences(s[1..])
  }

  function StripFencesOptJson(s: string): string
    decreases |s|
  {
    if s == [] then []
    else if FenceOptJsonLen(s) > 0 then StripFencesOptJson(s[FenceOptJsonLen(s)..])
    else [s[0]] + StripFencesOptJson(s[1..])
  }

  function StripFencesAround(s: string): string
    decreases |s|
  {
    if s == [] then []
    else if FenceAroundLen(s) > 0 then StripFencesAround(s[FenceAroundLen(s)..])
    else [s[0]] + StripFencesAround(s[1..])
  }

  /** `s.replace(/`/g, '')`: every backtick removed, everything else kept in
      order. */
  function RemoveBackticks(s: string): (r: string)
    ensures '`' !in r
    ensures '`' !in s ==> r == s
    decreases |s|
  {
    if s == [] then []
    else if s[0] == '`' then RemoveBackticks(s[1..])
    else [s[0]] + RemoveBackticks(s[1..])
  }

  // ---------------------------------------------------------------------
  // Text without backticks passes through unchanged

  lemma {:induction false} StripJsonFencesPrefix(a: string, b: string)
    requires '`' !in a
    ensures StripJsonFences(a + b) == a + StripJsonFences(b)
    decreases |a|
  {
    if a != [] {
      assert a[0] in a;
      assert (a + b)[0] == a[0] && (a + b)[1..] == a[1..] + b;
      StartsWithHead(a + b, Fence);
      StartsWithHead(a + b, JsonFence);
      assert StripJsonFences(a + b) == [a[0]] + StripJsonFences(a[1..] + b);
      StripJsonFencesPrefix(a[1..], b);
      assert a == [a[0]] + a[1..];
    } else {
      assert a + b == b;
    }
  }

  lemma {:induction false} StripFencesPrefix(a: string, b: string)
    requires '`' !in a
    ensures StripFences(a + b) == a + StripFences(b)
    decreases |a|
  {
    if a != [] {
      assert a[0] in a;
      assert (a + b)[0] == a[0] && (a + b)[1..] == a[1..] + b;
      StartsWithHead(a + b, Fence);
      StartsWithHead(a + b, JsonFence);
      assert StripFences(a + b) == [a[0]] + StripFences(a[1..] + b);
      StripFencesPrefix(a[1..], b);
      assert a == [a[0]] + a[1..];
    } else {
      assert a + b == b;
    }
  }

  lemma {:induction false} StripFencesOptJsonPrefix(a: string, b: string)
    requires '`' !in a
    ensures StripFencesOptJson(a + b) == a + StripFencesOptJson(b)
    decreases |a|
  {
    if a != [] {
      assert a[0] in a;
      assert (a + b)[0] == a[0] && (a + b)[1..] == a[1..] + b;
      StartsWithHead(a + b, Fence);
      StartsWithHead(a + b, JsonFence);
      assert StripFencesOptJson(a + b) == [a[0]] + StripFencesOptJson(a[1..] + b);
      StripFencesOptJsonPrefix(a[1..], b);
      assert a == [a[0]] + a[1..];
    } else {
      assert a + b == b;
    }
  }

  /** Neither alternative of `/```json\s*|\s*```/` matches at the start of
      backtick-free text that does not end in whitespace. */
  lemma AroundLenZero(a: string, b: string)
    requires a != [] && '`' !in a && !IsSpace(a[|a| - 1])
    ensures FenceAroundLen(a + b) == 0
  {
    var s := a + b;
    assert a[0] in a && s[0] == a[0];
    StartsWithHead(s, JsonFence);
    var w := LeadingSpaces(s);
    assert s[|a| - 1] == a[|a| - 1];
    assert w < |a|;
    assert a[w] in a && s[w..][0] == a[w];
    StartsWithHead(s[w..], Fence);
  }

  /** For the alternation, a whitespace run may start the match, so the kept
      prefix must not end in whitespace. */
  lemma {:induction false} StripFencesAroundPrefix(a: string, b: string)
    requires '`' !in a
    requires a == [] || !IsSpace(a[|a| - 1])
    ensures StripFencesAround(a + b) == a + StripFencesAround(b)
    decreases |a|
  {
    if a != [] {
      var s := a + b;
      AroundLenZero(a, b);
      assert s[1..] == a[1..] + b;
      assert StripFencesAround(s) == [a[0]] + StripFencesAround(a[1..] + b);
      assert a[1..] == [] || a[1..][|a[1..]| - 1] == a[|a| - 1];
      StripFencesAroundPrefix(a[1..], b);
      assert a == [a[0]] + a[1..];
    } else {
      assert a + b == b;
    }
  }

  lemma NoBacktickUnchanged(s: string)
    requires '`' !in s
    ensures StripJsonFences(s) == s && StripFences(s) == s
    ensures StripFencesOptJson(s) == s && StripFencesAround(s) == s
  {
    assert s + [] == s;
    StripJsonFencesPrefix(s, []);
    StripFencesPrefix(s, []);
    StripFencesOptJsonPrefix(s, []);
    NoBacktickAround(s);
  }

  /** The trailing whitespace of a text with no backtick is kept too. */
  lemma NoBacktickAround(s: string)
    requires '`' !in s
    ensures StripFencesAround(s) == s
  {
    var t, w := SplitTrailingSpace(s);
    AroundSplit(t, w);
  }

  /** A backtick-free text not ending in whitespace, then whitespace. */
  lemma AroundSplit(t: string, w: string)
    requires '`' !in t && (t == [] || !IsSpace(t[|t| - 1]))
    requires AllSpace(w)
    ensures StripFencesAround(t + w) == t + w
  {
    StripFencesAroundPrefix(t, w);
    AroundSpacesOnly(w);
  }

  /** Whitespace with no fence after it is kept. */
  lemma {:induction false} AroundSpacesOnly(w: string)
    requires AllSpace(w)
    ensures StripFencesAround(w) == w
    decreases |w|
  {
    if w != [] {
      var k := LeadingSpaces(w);
      assert w[k..] == [];
      StartsWithHead(w, JsonFence);
      StartsWithHead(w[k..], Fence);
      AroundSpacesOnly(w[1..]);
      assert w == [w[0]] + w[1..];
    }
  }

  // ---------------------------------------------------------------------
  // A JSON payload wrapped in a ```json fence

  /** What the model is asked to return: a non-empty text with no backtick
      and no edge whitespace (a JSON object, say). */
  predicate Payload(x: string) {
    x != [] && '`' !in x && Trimmed(x)
  }

  /** The payload inside a Markdown code fence, with whitespace runs after
      the opening and before the closing fence. */
  function Fenced(w0: string, x: string, w1: string): string {
    JsonFence + w0 + x + w1 + Fence
  }

  /** A fenced text starts and ends with a backtick. */
  lemma FencedEnds(w0: string, x: string, w1: string)
    ensures var f := Fenced(w0, x, w1); f != [] && f[0] == '`' && f[|f| - 1] == '`'
  {
  }

  lemma FencedFacts(w0: string, x: string, w1: string)
    requires AllSpace(w0) && AllSpace(w1) && Payload(x)
    ensures Fenced(w0, x, w1)[..7] == JsonFence
    ensures Fenced(w0, x, w1)[..3] == Fence
    ensures Fenced(w0, x, w1)[3..][..4] == "json"
    ensures Fenced(w0, x, w1)[7..] == w0 + (x + w1 + Fence)
    ensures LeadingSpaces(w0 + (x + w1 + Fence)) == |w0|
  {
    var rest := w0 + (x + w1 + Fence);
    FencedSplit(w0, x, w1);
    JsonFenceOpens(rest);
    assert (x + w1 + Fence)[0] == x[0];
    LeadingSpacesOf(w0, x + w1 + Fence);
  }

  lemma FencedSplit(w0: string, x: string, w1: string)
    ensures Fenced(w0, x, w1) == JsonFence + (w0 + (x + w1 + Fence))
  {
  }

  /** The opening fence, seen as "```" and "json". */
  lemma JsonFenceOpens(rest: string)
    ensures (JsonFence + rest)[..7] == JsonFence
    ensures (JsonFence + rest)[..3] == Fence
    ensures (JsonFence + rest)[3..][..4] == "json"
    ensures (JsonFence + rest)[7..] == rest
  {
  }

  lemma {:induction false} StripJsonFencesShort(s: string)
    requires |s| < 7
    ensures StripJsonFences(s) == s
    decreases |s|
  {
    if s != [] {
      StripJsonFencesShort(s[1..]);
      assert s == [s[0]] + s[1..];
    }
  }

  /** `/```json\s*\/g` removes the opening fence and its whitespace. */
  lemma StripJsonFencesOfFenced(w0: string, x: string, w1: string)
    requires AllSpace(w0) && AllSpace(w1) && Payload(x)
    ensures StripJsonFences(Fenced(w0, x, w1)) == x + w1 + Fence
  {
    FencedFacts(w0, x, w1);
    var f := Fenced(w0, x, w1);
    assert JsonFenceLen(f) == 7 + |w0|;
    assert f[7 + |w0|..] == (x + w1) + Fence;
    assert '`' !in x + w1 by {
      assert forall c :: c in w1 ==> IsSpace(c);
    }
    StripJsonFencesPrefix(x + w1, Fence);
    StripJsonFencesShort(Fence);
  }

  /** `/```\s*\/g` then removes the closing fence. */
  lemma StripFencesOfClosed(x: string, w1: string)
    requires AllSpace(w1) && Payload(x)
    ensures StripFences(x + w1 + Fence) == x + w1
  {
    assert '`' !in x + w1 by {
      assert forall c :: c in w1 ==> IsSpace(c);
    }
    StripFencesPrefix(x + w1, Fence);
    assert FenceLen(Fence) == 3;
    assert Fence[3..] == [];
    assert x + w1 + [] == x + w1;
  }

  /** `/```(?:json)?\s*\/g` removes both fences. */
  lemma StripFencesOptJsonOfFenced(w0: string, x: string, w1: string)
    requires AllSpace(w0) && AllSpace(w1) && Payload(x)
    ensures StripFencesOptJson(Fenced(w0, x, w1)) == x + w1
  {
    FencedFacts(w0, x, w1);
    var f := Fenced(w0, x, w1);
    assert FenceOptJsonLen(f) == 7 + |w0|;
    assert f[7 + |w0|..] == (x + w1) + Fence;
    assert '`' !in x + w1 by {
      assert forall c :: c in w1 ==> IsSpace(c);
    }
    StripFencesOptJsonPrefix(x + w1, Fence);
    assert !StartsWith(Fence[3..], "json");
    assert FenceOptJsonLen(Fence) == 3;
    assert Fence[3..] == [];
    assert x + w1 + [] == x + w1;
  }

  /** `/```json\s*|\s*```/g` removes both fences and the whitespace before
      the closing one. */
  lemma StripFencesAroundOfFenced(w0: string, x: string, w1: string)
    requires AllSpace(w0) && AllSpace(w1) && Payload(x)
    ensures StripFencesAround(Fenced(w0, x, w1)) == x
  {
    FencedFacts(w0, x, w1);
    var f := Fenced(w0, x, w1);
    assert FenceAroundLen(f) == 7 + |w0|;
    assert f[7 + |w0|..] == x + (w1 + Fence);
    StripFencesAroundPrefix(x, w1 + Fence);
    var t := w1 + Fence;
    LeadingSpacesOf(w1, Fence);
    assert t[|w1|..] == Fence;
    StartsWithHead(t, JsonFence);
    assert FenceAroundLen(t) == |t|;
    assert t[|t|..] == [];
    assert x + [] == x;
  }
}
