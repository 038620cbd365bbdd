/** ASCII string operations with the meaning JavaScript gives them: `trim`,
    `includes`, `indexOf`, `startsWith`, `split`/`join` with a non-empty
    separator, `replace` with a string pattern (first occurrence only),
    `toLowerCase`/`toUpperCase`, and the decimal rendering of integers. */
module Text {
  import opened Wrappers

  // ---------------------------------------------------------------------
  // Characters

  /** The whitespace that `trim` and the regular-expression class `\s` remove
      (the ASCII part: tab, line feed, vertical tab, form feed, carriage
      return, space). */
  predicate IsSpace(c: char) {
    c == ' ' || (9 <= c as int <= 13)
  }

  /** The class `\d` of JavaScript regular expressions: ASCII digits only. */
  predicate IsDigit(c: char) {
    '0' <= c <= '9'
  }

  function DigitValue(c: char): (d: nat)
    requires IsDigit(c)
    ensures d < 10
  {
    c as int - '0' as int
  }

  function DigitChar(d: nat): (c: char)
    requires d < 10
    ensures IsDigit(c) && DigitValue(c) == d
  {
    (d + '0' as int) as char
  }

  function LowerChar(c: char): (r: char)
    ensures 'A' <= c <= 'Z' ==> r as int == c as int + 32
    ensures !('A' <= c <= 'Z') ==> r == c
  {
    if 'A' <= c <= 'Z' then (c as int + 32) as char else c
  }

  function UpperChar(c: char): (r: char)
    ensures 'a' <= c <= 'z' ==> r as int == c as int - 32
    ensures !('a' <= c <= 'z') ==> r == c
  {
    if 'a' <= c <= 'z' then (c as int - 32) as char else c
  }

  function ToLower(s: string): (r: string)
    ensures |r| == |s|
    ensures forall i :: 0 <= i < |s| ==> r[i] == LowerChar(s[i])
  {
    seq(|s|, i requires 0 <= i < |s| => LowerChar(s[i]))
  }

  function ToUpper(s: string): (r: string)
    ensures |r| == |s|
    ensures forall i :: 0 <= i < |s| ==> r[i] == UpperChar(s[i])
  {
    seq(|s|, i requires 0 <= i < |s| => UpperChar(s[i]))
  }

  // ---------------------------------------------------------------------
  // Trimming

  ghost predicate AllSpace(s: string) {
    forall i :: 0 <= i < |s| ==> IsSpace(s[i])
  }

  /** Neither the first nor the last character is whitespace. */
  predicate Trimmed(s: string) {
    s == [] || (!IsSpace(s[0]) && !IsSpace(s[|s| - 1]))
  }

  /** The index of the first non-whitespace character among the last `left`
      characters of `s`, or |s| when there is none. The search is counted by
      the characters left, so that its recursion always runs down to zero. */
  function SkipSpaces(s: string, left: nat): (n: nat)
    requires left <= |s|
    ensures |s| - left <= n <= |s|
    ensures forall i :: |s| - left <= i < n ==> IsSpace(s[i])
    ensures n == |s| || !IsSpace(s[n])
    decreases left
  {
    if left > 0 && IsSpace(s[|s| - left]) then SkipSpaces(s, left - 1) else |s| - left
  }

  /** The index just after the last non-whitespace character before `stop`,
      or 0 when there is none. */
  function SkipSpacesBack(s: string, stop: nat): (n: nat)
    requires stop <= |s|
    ensures n <= stop
    ensures forall i :: n <= i < stop ==> IsSpace(s[i])
    ensures n == 0 || !IsSpace(s[n - 1])
    decreases stop
  {
    if stop > 0 && IsSpace(s[stop - 1]) then SkipSpacesBack(s, stop - 1) else stop
  }

  /** A whitespace run followed by a non-whitespace character (or the end)
      is exactly what `SkipSpaces` skips. */
  lemma {:induction false} SkipSpacesAt(s: string, left: nat, n: nat)
    requires left <= |s| && |s| - left <= n <= |s|
    requires forall i :: |s| - left <= i < n ==> IsSpace(s[i])
    requires n == |s| || !IsSpace(s[n])
    ensures SkipSpaces(s, left) == n
    decreases left
  {
    if |s| - left < n {
      SkipSpacesAt(s, left - 1, n);
    }
  }

  lemma {:induction false} SkipSpacesBackAt(s: string, stop: nat, n: nat)
    requires n <= stop <= |s|
    requires forall i :: n <= i < stop ==> IsSpace(s[i])
    requires n == 0 || !IsSpace(s[n - 1])
    ensures SkipSpacesBack(s, stop) == n
    decreases stop
  {
    if n < stop {
      SkipSpacesBackAt(s, stop - 1, n);
    }
  }

  function TrimStart(s: string): (r: string)
    ensures |r| <= |s|
    ensures forall i :: 0 <= i < |s| - |r| ==> IsSpace(s[i])
    ensures r == [] || !IsSpace(r[0])
  {
    s[SkipSpaces(s, |s|)..]
  }

  /** A string is its part up to the whitespace it ends in, then that
      whitespace; the lemma returns the two parts. */
  lemma SplitTrailingSpace(s: string) returns (t: string, w: string)
    ensures s == t + w && AllSpace(w)
    ensures t == [] || !IsSpace(t[|t| - 1])
    ensures forall c :: c in t ==> c in s
  {
    var n := SkipSpacesBack(s, |s|);
    t, w := s[..n], s[n..];
    assert s == t + w;
    assert AllSpace(w) by {
      assert forall i :: 0 <= i < |w| ==> w[i] == s[n + i];
    }
    assert t == [] || t[|t| - 1] == s[n - 1];
    forall c | c in t ensures c in s {
      var i :| 0 <= i < |t| && t[i] == c;
      assert s[i] == c;
    }
  }

  function TrimEnd(s: string): (r: string)
    ensures |r| <= |s|
    ensures forall i :: |r| <= i < |s| ==> IsSpace(s[i])
    ensures r == [] || !IsSpace(r[|r| - 1])
  {
    s[..SkipSpacesBack(s, |s|)]
  }

  /** `String.prototype.trim`. */
  function Trim(s: string): (r: string)
    ensures Trimmed(r) && |r| <= |s|
  {
    var a := TrimStart(s);
    var r := TrimEnd(a);
    assert r != [] ==> r[0] == a[0];
    r
  }

  /** The trimmed string is the input with its leading and trailing
      whitespace cut off, and nothing else; the lemma returns where it starts. */
  lemma TrimIsSlice(s: string) returns (i: nat)
    ensures i + |Trim(s)| <= |s| && Trim(s) == s[i..i + |Trim(s)|]
    ensures AllSpace(s[..i]) && AllSpace(s[i + |Trim(s)|..])
  {
    var a := TrimStart(s);
    var r := TrimEnd(a);
    i := |s| - |a|;
    assert r == s[i..i + |r|];
    assert s[i + |r|..] == a[|r|..];
  }

  /** A string without edge whitespace is its own trim. */
  lemma {:induction false} TrimOfTrimmed(s: string)
    requires Trimmed(s)
    ensures Trim(s) == s
  {
    SkipSpacesAt(s, |s|, 0);
    assert TrimStart(s) == s[0..] == s;
    SkipSpacesBackAt(s, |s|, |s|);
    assert TrimEnd(s) == s[..|s|] == s;
  }

  lemma TrimIdempotent(s: string)
    ensures Trim(Trim(s)) == Trim(s)
  {
    TrimOfTrimmed(Trim(s));
  }

  lemma TrimStartPadded(w: string, t: string)
    requires AllSpace(w)
    requires t == [] || !IsSpace(t[0])
    ensures TrimStart(w + t) == t
  {
    var s := w + t;
    assert forall i :: 0 <= i < |w| ==> s[i] == w[i];
    assert |w| == |s| || s[|w|] == t[0];
    SkipSpacesAt(s, |s|, |w|);
    assert s[|w|..] == t;
  }

  lemma TrimEndPadded(t: string, w: string)
    requires AllSpace(w)
    requires t == [] || !IsSpace(t[|t| - 1])
    ensures TrimEnd(t + w) == t
  {
    var s := t + w;
    assert forall i :: |t| <= i < |s| ==> s[i] == w[i - |t|];
    assert |t| == 0 || s[|t| - 1] == t[|t| - 1];
    SkipSpacesBackAt(s, |s|, |t|);
    assert s[..|t|] == t;
  }

  /** Whitespace around a trimmed string is exactly what `trim` removes. */
  lemma TrimPadded(w0: string, x: string, w1: string)
    requires AllSpace(w0) && AllSpace(w1) && Trimmed(x)
    ensures Trim(w0 + x + w1) == x
  {
    assert w0 + x + w1 == w0 + (x + w1);
    if x == [] {
      assert x + w1 == w1;
      assert AllSpace(w0 + w1);
      TrimEmptyIffAllSpace(w0 + w1);
    } else {
      assert (x + w1)[0] == x[0];
      TrimStartPadded(w0, x + w1);
      TrimEndPadded(x, w1);
    }
  }

  /** `trim` only removes characters. */
  lemma TrimNoNewChars(s: string, c: char)
    requires c !in s
    ensures c !in Trim(s)
  {
    var a := TrimStart(s);
    var d := |s| - |a|;
    forall k | 0 <= k < |a| ensures a[k] != c {
      assert a[k] == s[d + k];
    }
    var r := TrimEnd(a);
    forall k | 0 <= k < |r| ensures r[k] != c {
      assert r[k] == a[k];
    }
    assert Trim(s) == r;
  }

  /** `trim` keeps every character that is not whitespace. */
  lemma TrimKeeps(s: string, c: char)
    requires c in s && !IsSpace(c)
    ensures c in Trim(s)
  {
    var t := Trim(s);
    var j := TrimIsSlice(s);
    var i :| 0 <= i < |s| && s[i] == c;
    forall k | 0 <= k < j ensures s[k] != c {
      assert s[..j][k] == s[k];
    }
    forall k | j + |t| <= k < |s| ensures s[k] != c {
      assert s[j + |t|..][k - j - |t|] == s[k];
    }
    assert t[i - j] == c;
  }

  /** Trimming gives the empty string exactly when the input is all whitespace. */
  lemma {:induction false} TrimEmptyIffAllSpace(s: string)
    ensures Trim(s) == [] <==> AllSpace(s)
  {
    var a := TrimStart(s);
    if TrimEnd(a) == [] {
      assert a[0..] == a;
      assert |a| == 0;
      assert s[..|s|] == s;
    }
  }

  // ---------------------------------------------------------------------
  // Searching

  /** `t` occurs in `s` at position `k`. */
  predicate OccursAt(s: string, t: string, k: nat) {
    k + |t| <= |s| && s[k..k + |t|] == t
  }

  /** The first position among the last `left` positions of `s` (the end
      included) where `t` occurs; counted by the positions left, so that the
      recursion always runs down to zero. */
  function IndexFrom(s: string, t: string, left: nat): (r: Option<nat>)
    requires left <= |s|
    ensures r.Some? ==> |s| - left <= r.value && OccursAt(s, t, r.value)
    ensures r.Some? ==> forall k :: |s| - left <= k < r.value ==> !OccursAt(s, t, k)
    ensures r.None? ==> forall k :: |s| - left <= k <= |s| ==> !OccursAt(s, t, k)
    decreases left
  {
    if OccursAt(s, t, |s| - left) then Some(|s| - left)
    else if left == 0 then None
    else IndexFrom(s, t, left - 1)
  }

  /** `s.indexOf(t)`: the first position where `t` occurs. */
  function IndexOf(s: string, t: string): (r: Option<nat>)
    ensures r.Some? ==> OccursAt(s, t, r.value)
    ensures r.Some? ==> forall k :: 0 <= k < r.value ==> !OccursAt(s, t, k)
    ensures r.None? ==> forall k :: 0 <= k <= |s| ==> !OccursAt(s, t, k)
  {
    IndexFrom(s, t, |s|)
  }

  /** `s.includes(t)`. */
  predicate Contains(s: string, t: string) {
    IndexOf(s, t).Some?
  }

  /** The first occurrence determines `indexOf`. */
  lemma IndexOfFirst(s: string, t: string, j: nat)
    requires OccursAt(s, t, j)
    requires forall k :: 0 <= k < j ==> !OccursAt(s, t, k)
    ensures IndexOf(s, t) == Some(j)
  {
  }

  lemma ContainsAt(s: string, t: string, j: nat)
    requires OccursAt(s, t, j)
    ensures Contains(s, t)
  {
  }

  /** An occurrence inside a slice is an occurrence in the whole string. */
  lemma {:induction false} ContainsSlice(s: string, i: nat, j: nat, t: string)
    requires i <= j <= |s|
    requires Contains(s[i..j], t)
    ensures Contains(s, t)
  {
    var k := IndexOf(s[i..j], t).value;
    assert OccursAt(s[i..j], t, k);
    forall m | 0 <= m < |t| ensures s[i + k..i + k + |t|][m] == t[m] {
      assert t[m] == s[i..j][k..k + |t|][m] == s[i..j][k + m];
    }
    assert s[i + k..i + k + |t|] == t;
    ContainsAt(s, t, i + k);
  }

  /** `s.startsWith(p)`. */
  predicate StartsWith(s: string, p: string) {
    |p| <= |s| && s[..|p|] == p
  }

  /** `s.replace(pat, '')` with a string pattern: removes the first
      occurrence only. */
  function RemoveFirst(s: string, pat: string): (r: string)
    ensures IndexOf(s, pat).None? ==> r == s
    ensures IndexOf(s, pat).Some? ==>
              var i := IndexOf(s, pat).value;
              |r| == |s| - |pat| && r == s[..i] + s[i + |pat|..]
  {
    match IndexOf(s, pat)
    case None => s
    case Some(i) => s[..i] + s[i + |pat|..]
  }

  // ---------------------------------------------------------------------
  // split / join

  /** `pieces.join(sep)`. */
  function Join(pieces: seq<string>, sep: string): string
    decreases |pieces|
  {
    if pieces == [] then []
    else if |pieces| == 1 then pieces[0]
    else pieces[0] + sep + Join(pieces[1..], sep)
  }

  /** `s.split(sep)` for a non-empty separator: the pieces between the
      successive leftmost occurrences of `sep`. */
  function Split(s: string, sep: string): (r: seq<string>)
    requires sep != []
    ensures |r| >= 1
    ensures forall i :: 0 <= i < |r| ==> !Contains(r[i], sep)
    decreases |s|
  {
    match IndexOf(s, sep)
    case None => [s]
    case Some(i) =>
      PrefixLacks(s, sep, i);
      [s[..i]] + Split(s[i + |sep|..], sep)
  }

  /** A prefix that ends before the first occurrence of `t` does not
      contain `t`. */
  lemma PrefixLacks(s: string, t: string, i: nat)
    requires t != [] && i <= |s|
    requires forall k :: 0 <= k < i ==> !OccursAt(s, t, k)
    ensures !Contains(s[..i], t)
  {
    forall k | 0 <= k <= i ensures !OccursAt(s[..i], t, k) {
      if k + |t| <= i {
        assert !OccursAt(s, t, k);
        assert s[..i][k..k + |t|] == s[k..k + |t|];
      }
    }
  }

  /** Splitting and joining again gives back the input. */
  lemma {:induction false} JoinSplit(s: string, sep: string)
    requires sep != []
    ensures Join(Split(s, sep), sep) == s
    decreases |s|
  {
    match IndexOf(s, sep)
    case None =>
    case Some(i) =>
      var head, rest := s[..i], s[i + |sep|..];
      var pieces := Split(rest, sep);
      JoinSplit(rest, sep);
      assert Split(s, sep) == [head] + pieces;
      assert ([head] + pieces)[1..] == pieces;
      assert Join([head] + pieces, sep) == head + sep + Join(pieces, sep);
      assert s == head + sep + rest;
  }

  /** A piece that may be followed by `sep` without creating an earlier
      occurrence of `sep`: no occurrence of `sep` starts inside it. */
  predicate SafePiece(p: string, sep: string)
    requires sep != []
  {
    !Contains(p + sep[..|sep| - 1], sep)
  }

  lemma {:induction false} SafePieceNoSep(p: string, sep: string)
    requires sep != [] && SafePiece(p, sep)
    ensures !Contains(p, sep)
  {
    if Contains(p, sep) {
      var k := IndexOf(p, sep).value;
      assert (p + sep[..|sep| - 1])[k..k + |sep|] == p[k..k + |sep|];
      ContainsAt(p + sep[..|sep| - 1], sep, k);
    }
  }

  lemma {:induction false} FirstSepAfterSafePiece(p: string, sep: string, rest: string)
    requires sep != [] && SafePiece(p, sep)
    ensures IndexOf(p + sep + rest, sep) == Some(|p|)
  {
    var s := p + sep + rest;
    var q := p + sep[..|sep| - 1];
    assert s[|p|..|p| + |sep|] == sep;
    forall k | 0 <= k < |p| ensures !OccursAt(s, sep, k) {
      assert s[k..k + |sep|] == q[k..k + |sep|];
      if OccursAt(s, sep, k) { ContainsAt(q, sep, k); }
    }
    IndexOfFirst(s, sep, |p|);
  }

  /** Joining pieces that contain no separator and then splitting gives the
      pieces back. */
  lemma {:induction false} SplitJoin(pieces: seq<string>, sep: string)
    requires sep != [] && pieces != []
    requires forall i :: 0 <= i < |pieces| ==> SafePiece(pieces[i], sep)
    ensures Split(Join(pieces, sep), sep) == pieces
    decreases |pieces|
  {
    if |pieces| == 1 {
      SafePieceNoSep(pieces[0], sep);
    } else {
      var rest := Join(pieces[1..], sep);
      FirstSepAfterSafePiece(pieces[0], sep, rest);
      var s := pieces[0] + sep + rest;
      assert s[..|pieces[0]|] == pieces[0];
      assert s[|pieces[0]| + |sep|..] == rest;
      SplitJoin(pieces[1..], sep);
    }
  }

  /** A string without the character `c` is a safe piece for the
      one-character separator `[c]`. */
  lemma SafePieceSingle(p: string, c: char)
    requires c !in p
    ensures SafePiece(p, [c])
  {
    assert p + [c][..0] == p;
    forall k | 0 <= k <= |p| ensures !OccursAt(p, [c], k) {
      if k + 1 <= |p| { assert p[k..k + 1][0] == p[k]; }
    }
  }

  // ---------------------------------------------------------------------
  // Decimal digits

  predicate AllDigits(s: string) {
    forall i :: 0 <= i < |s| ==> IsDigit(s[i])
  }

  /** The value of a run of decimal digits (0 for the empty run). */
  function DigitsValue(s: string): (v: nat)
    requires forall i :: 0 <= i < |s| ==> IsDigit(s[i])
    decreases |s|
  {
    if s == [] then 0 else DigitsValue(s[..|s| - 1]) * 10 + DigitValue(s[|s| - 1])
  }

  /** `String(n)` for a natural number. */
  function NatToString(n: nat): (r: string)
    ensures r != [] && AllDigits(r)
    ensures n >= 1 ==> r[0] != '0'
    decreases n
  {
    if n < 10 then [DigitChar(n)] else NatToString(n / 10) + [DigitChar(n % 10)]
  }

  /** `String(n)` for an integer. */
  function IntToString(n: int): string {
    if n < 0 then "-" + NatToString(-n) else NatToString(n)
  }

  /** Reading back the rendering of a natural number gives the number. */
  lemma {:induction false} NatToStringValue(n: nat)
    ensures DigitsValue(NatToString(n)) == n
    decreases n
  {
    if n >= 10 {
      var s := NatToString(n);
      assert s[..|s| - 1] == NatToString(n / 10);
      NatToStringValue(n / 10);
    }
  }

  /** The index of the first non-digit among the last `left` characters of
      `s`, or |s| when there is none; counted like `SkipSpaces`. */
  function SkipDigits(s: string, left: nat): (n: nat)
    requires left <= |s|
    ensures |s| - left <= n <= |s|
    ensures forall i :: |s| - left <= i < n ==> IsDigit(s[i])
    ensures n == |s| || !IsDigit(s[n])
    decreases left
  {
    if left > 0 && IsDigit(s[|s| - left]) then SkipDigits(s, left - 1) else |s| - left
  }

  lemma {:induction false} SkipDigitsAt(s: string, left: nat, n: nat)
    requires left <= |s| && |s| - left <= n <= |s|
    requires forall i :: |s| - left <= i < n ==> IsDigit(s[i])
    requires n == |s| || !IsDigit(s[n])
    ensures SkipDigits(s, left) == n
    decreases left
  {
    if |s| - left < n {
      SkipDigitsAt(s, left - 1, n);
    }
  }

  /** The length of the run of digits at the start of `s`. */
  function LeadingDigits(s: string): (k: nat)
    ensures k <= |s| && AllDigits(s[..k])
    ensures k < |s| ==> !IsDigit(s[k])
    ensures forall j :: 0 <= j < k ==> IsDigit(s[j])
  {
    var k := SkipDigits(s, |s|);
    assert forall i :: 0 <= i < k ==> s[..k][i] == s[i];
    k
  }

  /** A run of digits followed by a non-digit is exactly what `\d+` takes. */
  lemma LeadingDigitsOf(d: string, u: string)
    requires AllDigits(d)
    requires u == [] || !IsDigit(u[0])
    ensures LeadingDigits(d + u) == |d|
  {
    var s := d + u;
    assert forall i :: 0 <= i < |d| ==> s[i] == d[i];
    assert |d| < |s| ==> s[|d|] == u[0];
    SkipDigitsAt(s, |s|, |d|);
  }

  /** A string lacking one of the characters of `t` does not contain `t`. */
  lemma MissingCharNotContained(s: string, t: string, c: char)
    requires c !in s && c in t
    ensures !Contains(s, t)
  {
  }

  /** No two consecutive characters of `s` are both `c`. */
  predicate NoDouble(s: string, c: char) {
    forall i :: 0 <= i < |s| - 1 ==> !(s[i] == c && s[i + 1] == c)
  }

  lemma NoDoubleNotContained(s: string, c: char)
    requires NoDouble(s, c)
    ensures !Contains(s, [c, c])
  {
    forall k | 0 <= k <= |s| ensures !OccursAt(s, [c, c], k) {
      if k + 2 <= |s| {
        assert s[k..k + 2][0] == s[k] && s[k..k + 2][1] == s[k + 1];
      }
    }
  }

  lemma NoDoubleConcat(a: string, b: string, c: char)
    requires NoDouble(a, c) && NoDouble(b, c)
    requires a == [] || b == [] || a[|a| - 1] != c || b[0] != c
    ensures NoDouble(a + b, c)
  {
    var s := a + b;
    forall i | 0 <= i < |s| - 1 ensures !(s[i] == c && s[i + 1] == c) {
      if i < |a| - 1 {
        assert s[i] == a[i] && s[i + 1] == a[i + 1];
      } else if i == |a| - 1 {
        assert s[i] == a[i] && s[i + 1] == b[0];
      } else {
        assert s[i] == b[i - |a|] && s[i + 1] == b[i + 1 - |a|];
      }
    }
  }

  lemma NoCharNoDouble(s: string, c: char)
    requires c !in s
    ensures NoDouble(s, c)
  {
    assert forall i :: 0 <= i < |s| ==> s[i] != c;
  }
}
