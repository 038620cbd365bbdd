/** The sectioned free-text report of src/services/review-analysis.service.ts:
    the prompt's list of reviews, and the parser that splits the model's
    reply into blank-line-separated blocks, picks the block of each header,
    reads the three mood percentages and the `-` bullet lists. The parser is
    total: every text gives a result. */
module ReviewAnalysis {
  import opened Wrappers
  import opened Text
  import opened Numbers

  datatype Review = Review(text: string, stars: int)

  datatype Mood = Mood(positive: real, negative: real, neutral: real)

  datatype ReviewAnalysis = ReviewAnalysis(
    summary: string,
    sentiment: Mood,
    strengths: seq<string>,
    weaknesses: seq<string>)

  const BlankLine := "\n\n"
  const SummaryHeader := "SUMMARY:"
  const SentimentHeader := "SENTIMENT:"
  const StrengthsHeader := "STRENGTHS:"
  const WeaknessesHeader := "WEAKNESSES:"

  // ---------------------------------------------------------------------
  // buildPrompt: the list of reviews

  function FormatReview(r: Review): string {
    "- Rating: " + IntToString(r.stars) + "/5 stars\n      Review: " + r.text
  }

  function FormattedReviews(reviews: seq<Review>): (r: seq<string>)
    ensures |r| == |reviews|
    ensures forall i :: 0 <= i < |r| ==> r[i] == FormatReview(reviews[i])
  {
    seq(|reviews|, i requires 0 <= i < |reviews| => FormatReview(reviews[i]))
  }

  /** `reviews.map(...).join('\n\n')`. */
  function FormatReviews(reviews: seq<Review>): string {
    Join(FormattedReviews(reviews), BlankLine)
  }

  /** When no review text holds a blank line (nor ends in a newline), the
      prompt's list splits back into one entry per review, in order. */
  lemma FormatReviewsSplit(reviews: seq<Review>)
    requires reviews != []
    requires forall i :: 0 <= i < |reviews| ==> SafePiece(FormatReview(reviews[i]), BlankLine)
    ensures Split(FormatReviews(reviews), BlankLine) == FormattedReviews(reviews)
  {
    SplitJoin(FormattedReviews(reviews), BlankLine);
  }

  // ---------------------------------------------------------------------
  // Finding a block

  /** The first index among the last `left` blocks whose block contains
      the token: where `sections.find(s => s.includes(token))` stops. */
  function FindFrom(sections: seq<string>, token: string, left: nat): (r: Option<nat>)
    requires left <= |sections|
    ensures r.Some? ==> |sections| - left <= r.value < |sections| && Contains(sections[r.value], token)
    ensures r.Some? ==> forall j :: |sections| - left <= j < r.value ==> !Contains(sections[j], token)
    ensures r.None? ==> forall j :: |sections| - left <= j < |sections| ==> !Contains(sections[j], token)
    decreases left
  {
    if left == 0 then None
    else if Contains(sections[|sections| - left], token) then Some(|sections| - left)
    else FindFrom(sections, token, left - 1)
  }

  function Find(sections: seq<string>, token: string): (r: Option<nat>)
    ensures r.Some? ==> r.value < |sections| && Contains(sections[r.value], token)
    ensures r.Some? ==> forall j :: 0 <= j < r.value ==> !Contains(sections[j], token)
    ensures r.None? ==> forall j :: 0 <= j < |sections| ==> !Contains(sections[j], token)
  {
    FindFrom(sections, token, |sections|)
  }

  /** The first block containing `j`'s position is found there. */
  lemma FindAt(sections: seq<string>, token: string, i: nat)
    requires i < |sections| && Contains(sections[i], token)
    requires forall j :: 0 <= j < i ==> !Contains(sections[j], token)
    ensures Find(sections, token) == Some(i)
  {
  }

  /** `sections.find(...) || ''`. */
  function Section(sections: seq<string>, token: string): string {
    match Find(sections, token)
    case None => ""
    case Some(i) => sections[i]
  }

  // ---------------------------------------------------------------------
  // Numbers: `match(/\d+(\.\d+)?/g)?.map(Number)`

  /** Every match of `\d+(\.\d+)?`, left to right, as its value. */
  function NumberLiterals(s: string): (r: seq<real>)
    ensures forall i :: 0 <= i < |r| ==> r[i] >= 0.0
    decreases |s|
  {
    if s == [] then []
    else if !IsDigit(s[0]) then NumberLiterals(s[1..])
    else
      var k := LeadingDigits(s);
      var whole := DigitsValue(s[..k]) as real;
      if k + 1 < |s| && s[k] == '.' && IsDigit(s[k + 1]) then
        var f := LeadingDigits(s[k + 1..]);
        var frac := s[k + 1..k + 1 + f];
        [whole + DigitsValue(frac) as real / Pow10(f) as real] + NumberLiterals(s[k + 1 + f..])
      else [whole] + NumberLiterals(s[k..])
  }

  predicate NoDigits(s: string) {
    forall i :: 0 <= i < |s| ==> !IsDigit(s[i])
  }

  /** Text without digits contributes no number. */
  lemma {:induction false} NumberLiteralsSkip(t: string, u: string)
    requires NoDigits(t)
    ensures NumberLiterals(t + u) == NumberLiterals(u)
    decreases |t|
  {
    if t == [] {
      assert t + u == u;
    } else {
      assert (t + u)[0] == t[0] && (t + u)[1..] == t[1..] + u;
      NumberLiteralsSkip(t[1..], u);
    }
  }

  /** The text of a whole number, not followed by a digit or a dot, is read
      as that number. */
  lemma NumberLiteralsNat(n: nat, u: string)
    requires u == [] || (!IsDigit(u[0]) && u[0] != '.')
    ensures NumberLiterals(NatToString(n) + u) == [n as real] + NumberLiterals(u)
  {
    var d := NatToString(n);
    var s := d + u;
    LeadingDigitsOf(d, u);
    assert s[0] == d[0];
    assert s[..|d|] == d && s[|d|..] == u;
    NatToStringValue(n);
  }

  /** `sentimentMatches[i] || 0`. */
  function NthOrZero(m: seq<real>, i: nat): real {
    if i < |m| then m[i] else 0.0
  }

  // ---------------------------------------------------------------------
  // parseListItems

  /** `line.trim().startsWith('-')`. */
  predicate IsBullet(line: string) {
    var t := Trim(line);
    t != [] && t[0] == '-'
  }

  /** `line.trim().substring(1).trim()`. */
  function BulletText(line: string): (r: string)
    requires IsBullet(line)
    ensures Trimmed(r)
  {
    Trim(Trim(line)[1..])
  }

  /** The bullet lines, in order, each with its dash and edge spaces removed. */
  function ListItems(lines: seq<string>): (r: seq<string>)
    ensures |r| <= |lines|
    ensures forall i :: 0 <= i < |r| ==> Trimmed(r[i])
    decreases |lines|
  {
    if lines == [] then []
    else if IsBullet(lines[0]) then [BulletText(lines[0])] + ListItems(lines[1..])
    else ListItems(lines[1..])
  }

  function ParseListItems(section: string): seq<string> {
    ListItems(Split(section, "\n"))
  }

  /** Order is kept: the items of two groups of lines are the items of the
      first group followed by those of the second. */
  lemma {:induction false} ListItemsAppend(a: seq<string>, b: seq<string>)
    ensures ListItems(a + b) == ListItems(a) + ListItems(b)
    decreases |a|
  {
    if a == [] {
      assert a + b == b;
    } else {
      assert (a + b)[0] == a[0] && (a + b)[1..] == a[1..] + b;
      ListItemsAppend(a[1..], b);
      if IsBullet(a[0]) {
        var x := [BulletText(a[0])];
        assert x + (ListItems(a[1..]) + ListItems(b)) == (x + ListItems(a[1..])) + ListItems(b);
      }
    }
  }

  /** There is an item exactly when some line is a bullet line; header
      lines and other text never give one. */
  lemma ListItemsEmpty(lines: seq<string>)
    ensures ListItems(lines) == [] <==> forall i :: 0 <= i < |lines| ==> !IsBullet(lines[i])
  {
    if forall i :: 0 <= i < |lines| ==> !IsBullet(lines[i]) {
      ListItemsNoBullets(lines);
    } else {
      var k :| 0 <= k < |lines| && IsBullet(lines[k]);
      ListItemsBulletAt(lines, k);
    }
  }

  lemma {:induction false} ListItemsNoBullets(lines: seq<string>)
    requires forall i :: 0 <= i < |lines| ==> !IsBullet(lines[i])
    ensures ListItems(lines) == []
    decreases |lines|
  {
    if lines != [] {
      var rest := lines[1..];
      assert forall i :: 0 <= i < |rest| ==> rest[i] == lines[i + 1];
      ListItemsNoBullets(rest);
    }
  }

  lemma {:induction false} ListItemsBulletAt(lines: seq<string>, k: nat)
    requires k < |lines| && IsBullet(lines[k])
    ensures ListItems(lines) != []
    decreases k
  {
    if k > 0 {
      var rest := lines[1..];
      assert rest[k - 1] == lines[k];
      ListItemsBulletAt(rest, k - 1);
    }
  }

  /** The bullet line the prompt asks for. */
  function Bullet(item: string): string {
    "- " + item
  }

  function Bullets(items: seq<string>): (r: seq<string>)
    ensures |r| == |items|
    ensures forall i :: 0 <= i < |r| ==> r[i] == Bullet(items[i])
  {
    seq(|items|, i requires 0 <= i < |items| => Bullet(items[i]))
  }

  /** An item the parser can give back: non-empty, trimmed, one line. */
  predicate ListItem(item: string) {
    item != [] && Trimmed(item) && '\n' !in item
  }

  /** A bullet line of a one-line item is already trimmed. */
  lemma BulletTrimmed(item: string)
    requires ListItem(item)
    ensures Trim(Bullet(item)) == Bullet(item)
  {
    var b := Bullet(item);
    assert b[0] == '-' && b[|b| - 1] == item[|item| - 1];
    assert Trimmed(b);
    TrimOfTrimmed(b);
  }

  /** What follows the dash trims to the item. */
  lemma BulletTail(item: string)
    requires ListItem(item)
    ensures Trim(Bullet(item)[1..]) == item
  {
    assert Bullet(item)[1..] == " " + item + [];
    TrimPadded(" ", item, []);
  }

  /** The parser reads back the item of a bullet line. */
  lemma BulletRoundTrip(item: string)
    requires ListItem(item)
    ensures IsBullet(Bullet(item)) && BulletText(Bullet(item)) == item
  {
    BulletTrimmed(item);
    assert IsBullet(Bullet(item));
    BulletTail(item);
  }

  lemma BulletsCons(items: seq<string>)
    requires items != []
    ensures Bullets(items) == [Bullet(items[0])] + Bullets(items[1..])
  {
  }

  lemma ListItemsBullet(line: string, rest: seq<string>)
    requires IsBullet(line)
    ensures ListItems([line] + rest) == [BulletText(line)] + ListItems(rest)
  {
    assert ([line] + rest)[1..] == rest;
  }

  lemma HeadTail(items: seq<string>)
    requires items != []
    ensures items == [items[0]] + items[1..]
  {
  }

  /** Bullet lines of one-line items are read back as those items. */
  lemma {:induction false} ListItemsOfBullets(items: seq<string>)
    requires forall i :: 0 <= i < |items| ==> ListItem(items[i])
    ensures ListItems(Bullets(items)) == items
    decreases |items|
  {
    if items != [] {
      BulletsCons(items);
      BulletRoundTrip(items[0]);
      ListItemsBullet(Bullet(items[0]), Bullets(items[1..]));
      ListItemsOfBullets(items[1..]);
      HeadTail(items);
    }
  }

  /** A line that is neither empty nor a bullet line, and needs no trimming. */
  predicate HeaderLine(h: string) {
    h != [] && '\n' !in h && h[0] != '-' && Trimmed(h)
  }

  lemma HeaderNotBullet(h: string)
    requires HeaderLine(h)
    ensures !IsBullet(h)
  {
    TrimOfTrimmed(h);
  }

  /** A header line followed by bullet lines. */
  function ListBlock(header: string, items: seq<string>): string {
    Join([header] + Bullets(items), "\n")
  }

  /** The bullets of a list block are read back exactly, in order. */
  lemma ParseListBlock(header: string, items: seq<string>)
    requires HeaderLine(header)
    requires forall i :: 0 <= i < |items| ==> ListItem(items[i])
    ensures ParseListItems(ListBlock(header, items)) == items
  {
    HeaderNotBullet(header);
    var lines := [header] + Bullets(items);
    forall i | 0 <= i < |lines| ensures SafePiece(lines[i], "\n") {
      if i == 0 {
        SafePieceSingle(header, '\n');
      } else {
        assert lines[i] == Bullet(items[i - 1]);
        SafePieceSingle(lines[i], '\n');
      }
    }
    SplitJoin(lines, "\n");
    ListItemsOfBullets(items);
    assert lines[1..] == Bullets(items);
  }

  // ---------------------------------------------------------------------
  // parseResponse

  /** The SUMMARY block with its first "SUMMARY:" removed, trimmed; ''
      when no block has the header. */
  function SummaryOf(sections: seq<string>): string {
    match Find(sections, SummaryHeader)
    case None => ""
    case Some(i) => Trim(RemoveFirst(sections[i], SummaryHeader))
  }

  /** The analysis read from the blocks of a reply. */
  function ParseSections(sections: seq<string>): (r: ReviewAnalysis)
    ensures r.sentiment.positive >= 0.0 && r.sentiment.negative >= 0.0 && r.sentiment.neutral >= 0.0
    ensures Trimmed(r.summary)
  {
    var numbers := NumberLiterals(Section(sections, SentimentHeader));
    ReviewAnalysis(
      SummaryOf(sections),
      Mood(NthOrZero(numbers, 0), NthOrZero(numbers, 1), NthOrZero(numbers, 2)),
      ParseListItems(Section(sections, StrengthsHeader)),
      ParseListItems(Section(sections, WeaknessesHeader)))
  }

  function ParseResponse(responseText: string): (r: ReviewAnalysis)
    ensures r.sentiment.positive >= 0.0 && r.sentiment.negative >= 0.0 && r.sentiment.neutral >= 0.0
    ensures Trimmed(r.summary)
  {
    ParseSections(Split(responseText, BlankLine))
  }

  /** A reply with none of the headers gives the empty analysis. */
  lemma ParseResponseNoHeaders(responseText: string)
    requires !Contains(responseText, SummaryHeader) && !Contains(responseText, SentimentHeader)
    requires !Contains(responseText, StrengthsHeader) && !Contains(responseText, WeaknessesHeader)
    ensures ParseResponse(responseText) == ReviewAnalysis("", Mood(0.0, 0.0, 0.0), [], [])
  {
    var sections := Split(responseText, BlankLine);
    JoinSplit(responseText, BlankLine);
    PiecesLack(sections, BlankLine, SummaryHeader);
    PiecesLack(sections, BlankLine, SentimentHeader);
    PiecesLack(sections, BlankLine, StrengthsHeader);
    PiecesLack(sections, BlankLine, WeaknessesHeader);
    assert SummaryOf(sections) == "";
    assert Section(sections, SentimentHeader) == "";
    assert Section(sections, StrengthsHeader) == "";
    assert Section(sections, WeaknessesHeader) == "";
    ParseListItemsEmpty();
  }

  /** An empty block has no items. */
  lemma ParseListItemsEmpty()
    ensures ParseListItems("") == []
  {
    assert Split("", "\n") == [""];
    assert !IsBullet("");
  }

  /** No piece of a joined text contains what the whole text lacks. */
  lemma PiecesLack(pieces: seq<string>, sep: string, t: string)
    requires !Contains(Join(pieces, sep), t)
    ensures forall j :: 0 <= j < |pieces| ==> !Contains(pieces[j], t)
  {
    forall j | 0 <= j < |pieces| ensures !Contains(pieces[j], t) {
      if Contains(pieces[j], t) {
        JoinContainsPiece(pieces, sep, j, t);
      }
    }
  }

  /** A piece of a joined text is part of it, so whatever a piece contains
      the whole text contains. */
  lemma {:induction false} JoinContainsPiece(pieces: seq<string>, sep: string, j: nat, t: string)
    requires j < |pieces| && Contains(pieces[j], t)
    ensures Contains(Join(pieces, sep), t)
    decreases |pieces|
  {
    var s := Join(pieces, sep);
    if |pieces| == 1 {
    } else {
      var rest := Join(pieces[1..], sep);
      assert s == pieces[0] + (sep + rest);
      if j == 0 {
        assert s[0..|pieces[0]|] == pieces[0];
        ContainsSlice(s, 0, |pieces[0]|, t);
      } else {
        assert pieces[1..][j - 1] == pieces[j];
        JoinContainsPiece(pieces[1..], sep, j - 1, t);
        var off := |pieces[0]| + |sep|;
        assert s[off..|s|] == rest;
        ContainsSlice(s, off, |s|, t);
      }
    }
  }

  // ---------------------------------------------------------------------
  // Reading back a report in the requested format

  function SummaryBlock(summary: string): string {
    SummaryHeader + "\n" + summary
  }

  const PositiveLead := SentimentHeader + "\nPositive: "
  const NegativeLead := "%\nNegative: "
  const NeutralLead := "%\nNeutral: "
  const PercentSign := "%"

  function SentimentBlock(positive: nat, negative: nat, neutral: nat): string {
    PositiveLead + NatToString(positive) + NegativeLead + NatToString(negative)
      + NeutralLead + NatToString(neutral) + PercentSign
  }

  /** Three numbers, each after a piece of fixed text. */
  function Interleave(a: string, p: nat, b: string, n: nat, c: string, z: nat, e: string): string {
    a + (NatToString(p) + (b + (NatToString(n) + (c + (NatToString(z) + e)))))
  }

  lemma SentimentBlockInterleave(p: nat, n: nat, z: nat)
    ensures SentimentBlock(p, n, z) ==
      Interleave(PositiveLead, p, NegativeLead, n, NeutralLead, z, PercentSign)
  {
  }

  /** The fixed text of the sentiment block holds no digit; the second and
      third pieces open with the percent sign. */
  lemma LeadDigits()
    ensures NoDigits(PositiveLead) && NoDigits(NegativeLead) && NoDigits(NeutralLead)
    ensures NegativeLead[0] == '%' && NeutralLead[0] == '%' && PercentSign == "%"
  {
  }

  /** The fixed text of the sentiment block holds no blank line and ends
      inside a line. */
  lemma LeadNewlines()
    ensures NoDouble(PositiveLead, '\n') && NoDouble(NegativeLead, '\n')
    ensures NoDouble(NeutralLead, '\n')
    ensures PositiveLead[|PositiveLead| - 1] != '\n' && NegativeLead[|NegativeLead| - 1] != '\n'
    ensures NeutralLead[|NeutralLead| - 1] != '\n'
  {
  }

  /** The fixed text of the sentiment block has no 'G' and no 'W'. */
  lemma LeadLetters()
    ensures 'G' !in PositiveLead && 'G' !in NegativeLead && 'G' !in NeutralLead
    ensures 'W' !in PositiveLead && 'W' !in NegativeLead && 'W' !in NeutralLead
    ensures 'G' !in PercentSign && 'W' !in PercentSign
    ensures 'G' in StrengthsHeader && 'W' in WeaknessesHeader
  {
  }

  /** Digit-free text, then a whole number not followed by a digit or a dot:
      the number is the next one read. */
  lemma NumberAfterText(a: string, n: nat, u: string)
    requires NoDigits(a)
    requires u == [] || (!IsDigit(u[0]) && u[0] != '.')
    ensures NumberLiterals(a + (NatToString(n) + u)) == [n as real] + NumberLiterals(u)
  {
    NumberLiteralsSkip(a, NatToString(n) + u);
    NumberLiteralsNat(n, u);
  }

  lemma InterleaveNumbers(a: string, p: nat, b: string, n: nat, c: string, z: nat)
    requires NoDigits(a) && NoDigits(b) && NoDigits(c)
    requires b != [] && b[0] == '%' && c != [] && c[0] == '%'
    ensures NumberLiterals(Interleave(a, p, b, n, c, z, "%")) == [p as real, n as real, z as real]
  {
    var t3 := c + (NatToString(z) + "%");
    var t2 := b + (NatToString(n) + t3);
    NumberAfterText(a, p, t2);
    NumberAfterText(b, n, t3);
    NumberAfterText(c, z, "%");
    PercentNumbers();
  }

  /** The three percentages are read back in order. */
  lemma SentimentBlockNumbers(p: nat, n: nat, z: nat)
    ensures NumberLiterals(SentimentBlock(p, n, z)) == [p as real, n as real, z as real]
  {
    SentimentBlockInterleave(p, n, z);
    LeadDigits();
    InterleaveNumbers(PositiveLead, p, NegativeLead, n, NeutralLead, z);
  }

  lemma PercentNumbers()
    ensures NumberLiterals("%") == []
  {
    assert "%"[1..] == [];
  }

  lemma InterleaveNoDouble(a: string, p: nat, b: string, n: nat, c: string, z: nat)
    requires NoDouble(a, '\n') && NoDouble(b, '\n') && NoDouble(c, '\n')
    requires a != [] && a[|a| - 1] != '\n' && b != [] && b[|b| - 1] != '\n'
    requires c != [] && c[|c| - 1] != '\n'
    ensures NoDouble(Interleave(a, p, b, n, c, z, "%\n"), '\n')
  {
    var dp, dn, dz := NatToString(p), NatToString(n), NatToString(z);
    DigitsLackChar(dp, '\n');
    DigitsLackChar(dn, '\n');
    DigitsLackChar(dz, '\n');
    NoCharNoDouble(dp, '\n');
    NoCharNoDouble(dn, '\n');
    NoCharNoDouble(dz, '\n');
    assert NoDouble("%\n", '\n');
    NoDoubleConcat(dz, "%\n", '\n');
    NoDoubleConcat(c, dz + "%\n", '\n');
    NoDoubleConcat(dn, c + (dz + "%\n"), '\n');
    NoDoubleConcat(b, dn + (c + (dz + "%\n")), '\n');
    NoDoubleConcat(dp, b + (dn + (c + (dz + "%\n"))), '\n');
    NoDoubleConcat(a, dp + (b + (dn + (c + (dz + "%\n")))), '\n');
  }

  /** A run of digits holds no character that is not a digit. */
  lemma DigitsLackChar(d: string, c: char)
    requires AllDigits(d) && !IsDigit(c)
    ensures c !in d
  {
  }

  /** The sentiment block is one block: it holds no blank line. */
  lemma SentimentBlockSafe(p: nat, n: nat, z: nat)
    ensures SafePiece(SentimentBlock(p, n, z), BlankLine)
  {
    var s := SentimentBlock(p, n, z);
    LeadNewlines();
    InterleaveNoDouble(PositiveLead, p, NegativeLead, n, NeutralLead, z);
    assert s + BlankLine[..1] ==
      Interleave(PositiveLead, p, NegativeLead, n, NeutralLead, z, "%\n");
    NoDoubleNotContained(s + BlankLine[..1], '\n');
  }

  /** The whole report in the requested format. */
  function Report(summary: string, p: nat, n: nat, z: nat, strengths: seq<string>,
                  weaknesses: seq<string>): string {
    Join([SummaryBlock(summary), SentimentBlock(p, n, z),
          ListBlock(StrengthsHeader, strengths), ListBlock(WeaknessesHeader, weaknesses)], BlankLine)
  }

  /** A report in the requested format is read back field for field, as
      long as each block holds no blank line and mentions no later header. */
  lemma ParseReport(summary: string, p: nat, n: nat, z: nat, strengths: seq<string>,
                    weaknesses: seq<string>)
    requires Trimmed(summary) && SafePiece(SummaryBlock(summary), BlankLine)
    requires !Contains(SummaryBlock(summary), SentimentHeader)
    requires !Contains(SummaryBlock(summary), StrengthsHeader)
    requires !Contains(SummaryBlock(summary), WeaknessesHeader)
    requires forall i :: 0 <= i < |strengths| ==> ListItem(strengths[i])
    requires forall i :: 0 <= i < |weaknesses| ==> ListItem(weaknesses[i])
    requires SafePiece(ListBlock(StrengthsHeader, strengths), BlankLine)
    requires SafePiece(ListBlock(WeaknessesHeader, weaknesses), BlankLine)
    requires !Contains(ListBlock(StrengthsHeader, strengths), WeaknessesHeader)
    ensures ParseResponse(Report(summary, p, n, z, strengths, weaknesses)) ==
      ReviewAnalysis(summary, Mood(p as real, n as real, z as real), strengths, weaknesses)
  {
    var s0, s1 := SummaryBlock(summary), SentimentBlock(p, n, z);
    var s2, s3 := ListBlock(StrengthsHeader, strengths), ListBlock(WeaknessesHeader, weaknesses);
    SentimentBlockSafe(p, n, z);
    SentimentBlockLacks(p, n, z);
    HeaderOpens(SummaryHeader, "\n" + summary);
    SentimentBlockOpens(p, n, z);
    ListBlockOpens(StrengthsHeader, strengths);
    ListBlockOpens(WeaknessesHeader, weaknesses);
    ParseBlocks(s0, s1, s2, s3);
    SummaryBlockRead(summary);
    SentimentBlockNumbers(p, n, z);
    ListHeadersAreLines();
    ParseListBlock(StrengthsHeader, strengths);
    ParseListBlock(WeaknessesHeader, weaknesses);
  }

  lemma ListHeadersAreLines()
    ensures HeaderLine(StrengthsHeader) && HeaderLine(WeaknessesHeader)
  {
  }

  /** A list block opens with its header. */
  lemma ListBlockOpens(header: string, items: seq<string>)
    ensures StartsWith(ListBlock(header, items), header)
  {
    var lines := [header] + Bullets(items);
    if items == [] {
      assert lines == [header];
      HeaderOpens(header, []);
      assert header + [] == header;
    } else {
      assert lines[1..] == Bullets(items);
      HeaderOpens(header, "\n" + Join(Bullets(items), "\n"));
      assert ListBlock(header, items) == header + ("\n" + Join(Bullets(items), "\n"));
    }
  }

  /** Four blocks, each opening with its header and mentioning no later one,
      are parsed block by block. */
  lemma ParseBlocks(s0: string, s1: string, s2: string, s3: string)
    requires StartsWith(s0, SummaryHeader) && StartsWith(s1, SentimentHeader)
    requires StartsWith(s2, StrengthsHeader) && StartsWith(s3, WeaknessesHeader)
    requires SafePiece(s0, BlankLine) && SafePiece(s1, BlankLine)
    requires SafePiece(s2, BlankLine) && SafePiece(s3, BlankLine)
    requires !Contains(s0, SentimentHeader)
    requires !Contains(s0, StrengthsHeader) && !Contains(s0, WeaknessesHeader)
    requires !Contains(s1, StrengthsHeader) && !Contains(s1, WeaknessesHeader)
    requires !Contains(s2, WeaknessesHeader)
    ensures var m := NumberLiterals(s1);
      ParseResponse(Join([s0, s1, s2, s3], BlankLine)) ==
      ReviewAnalysis(Trim(RemoveFirst(s0, SummaryHeader)),
        Mood(NthOrZero(m, 0), NthOrZero(m, 1), NthOrZero(m, 2)),
        ParseListItems(s2), ParseListItems(s3))
  {
    ParseJoined(s0, s1, s2, s3);
    SectionsRead(s0, s1, s2, s3);
  }

  /** Blocks without a blank line, joined by blank lines, are split back
      into those blocks. */
  lemma ParseJoined(s0: string, s1: string, s2: string, s3: string)
    requires SafePiece(s0, BlankLine) && SafePiece(s1, BlankLine)
    requires SafePiece(s2, BlankLine) && SafePiece(s3, BlankLine)
    ensures ParseResponse(Join([s0, s1, s2, s3], BlankLine)) == ParseSections([s0, s1, s2, s3])
  {
    var sections := [s0, s1, s2, s3];
    assert forall i :: 0 <= i < |sections| ==> SafePiece(sections[i], BlankLine);
    SplitJoin(sections, BlankLine);
  }

  /** The blocks of a report, once split, are read block by block. */
  lemma SectionsRead(s0: string, s1: string, s2: string, s3: string)
    requires StartsWith(s0, SummaryHeader) && StartsWith(s1, SentimentHeader)
    requires StartsWith(s2, StrengthsHeader) && StartsWith(s3, WeaknessesHeader)
    requires !Contains(s0, SentimentHeader)
    requires !Contains(s0, StrengthsHeader) && !Contains(s0, WeaknessesHeader)
    requires !Contains(s1, StrengthsHeader) && !Contains(s1, WeaknessesHeader)
    requires !Contains(s2, WeaknessesHeader)
    ensures var m := NumberLiterals(s1);
      ParseSections([s0, s1, s2, s3]) ==
      ReviewAnalysis(Trim(RemoveFirst(s0, SummaryHeader)),
        Mood(NthOrZero(m, 0), NthOrZero(m, 1), NthOrZero(m, 2)),
        ParseListItems(s2), ParseListItems(s3))
  {
    var sections := [s0, s1, s2, s3];
    ReportFinds(s0, s1, s2, s3);
    StartsWithContains(s1, SentimentHeader);
    FindAt(sections, SentimentHeader, 1);
  }

  /** Each block of a report opens with its own header, so the summary, the
      strengths and the weaknesses headers are found in their own blocks. */
  lemma ReportFinds(s0: string, s1: string, s2: string, s3: string)
    requires StartsWith(s0, SummaryHeader) && StartsWith(s2, StrengthsHeader)
    requires StartsWith(s3, WeaknessesHeader)
    requires !Contains(s0, StrengthsHeader) && !Contains(s0, WeaknessesHeader)
    requires !Contains(s1, StrengthsHeader) && !Contains(s1, WeaknessesHeader)
    requires !Contains(s2, WeaknessesHeader)
    ensures Find([s0, s1, s2, s3], SummaryHeader) == Some(0)
    ensures Find([s0, s1, s2, s3], StrengthsHeader) == Some(2)
    ensures Find([s0, s1, s2, s3], WeaknessesHeader) == Some(3)
  {
    var sections := [s0, s1, s2, s3];
    StartsWithContains(s0, SummaryHeader);
    StartsWithContains(s2, StrengthsHeader);
    StartsWithContains(s3, WeaknessesHeader);
    FindAt(sections, SummaryHeader, 0);
    FindAt(sections, StrengthsHeader, 2);
    FindAt(sections, WeaknessesHeader, 3);
  }

  lemma StartsWithContains(s: string, t: string)
    requires StartsWith(s, t)
    ensures Contains(s, t)
  {
    ContainsAt(s, t, 0);
  }

  /** The summary block gives back its summary. */
  lemma SummaryBlockRead(summary: string)
    requires Trimmed(summary)
    ensures Trim(RemoveFirst(SummaryBlock(summary), SummaryHeader)) == summary
  {
    var s0 := SummaryBlock(summary);
    assert s0[0..|SummaryHeader|] == SummaryHeader;
    IndexOfFirst(s0, SummaryHeader, 0);
    assert RemoveFirst(s0, SummaryHeader) == "\n" + summary + [];
    TrimPadded("\n", summary, []);
  }

  /** A header at the start of a block is found in it. */
  lemma HeaderOpens(header: string, rest: string)
    ensures StartsWith(header + rest, header)
    ensures OccursAt(header + rest, header, 0) && Contains(header + rest, header)
  {
    assert (header + rest)[..|header|] == header;
    assert (header + rest)[0..|header|] == header;
  }

  /** The sentiment block opens with its header. */
  lemma SentimentBlockOpens(p: nat, n: nat, z: nat)
    ensures StartsWith(SentimentBlock(p, n, z), SentimentHeader)
  {
    var rest := NatToString(p) + NegativeLead + NatToString(n) + NeutralLead + NatToString(z) + PercentSign;
    var tail := "\nPositive: " + rest;
    assert SentimentBlock(p, n, z) == PositiveLead + rest;
    assert PositiveLead + rest == SentimentHeader + tail;
    HeaderOpens(SentimentHeader, tail);
  }

  /** Text built from pieces that lack some character holds no string that
      has it. */
  lemma InterleaveLacks(a: string, p: nat, b: string, n: nat, c: string, z: nat,
                        e: string, t: string, x: char)
    requires !IsDigit(x) && x !in a && x !in b && x !in c && x !in e && x in t
    ensures !Contains(Interleave(a, p, b, n, c, z, e), t)
  {
    DigitsLackChar(NatToString(p), x);
    DigitsLackChar(NatToString(n), x);
    DigitsLackChar(NatToString(z), x);
    MissingCharNotContained(Interleave(a, p, b, n, c, z, e), t, x);
  }

  /** The sentiment block mentions neither list header: it has no 'G' and
      no 'W'. */
  lemma SentimentBlockLacks(p: nat, n: nat, z: nat)
    ensures !Contains(SentimentBlock(p, n, z), StrengthsHeader)
    ensures !Contains(SentimentBlock(p, n, z), WeaknessesHeader)
  {
    SentimentBlockInterleave(p, n, z);
    LeadLetters();
    InterleaveLacks(PositiveLead, p, NegativeLead, n, NeutralLead, z, PercentSign, StrengthsHeader, 'G');
    InterleaveLacks(PositiveLead, p, NegativeLead, n, NeutralLead, z, PercentSign, WeaknessesHeader, 'W');
  }
}
