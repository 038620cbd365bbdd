/** The administrator's dashboard of src/app/admin/dashboard/dashboard.page.ts:
    one entry per restaurant with its review count and average rating, the
    totals, and the list ordered by rating, highest first. The Firestore
    snapshots are inputs; each restaurant's reviews are given by their star
    ratings, or by the failure of fetching them. */
module AdminDashboardPage {
  import opened Wrappers
  import opened Numbers
  import Sorting

  /** A restaurant document of the snapshot: its name and the outcome of
      fetching the star ratings of its `reviews` sub-collection. */
  datatype Listing = Listing(name: string, reviews: Result<seq<int>>)

  /** An element of `restaurants`. */
  datatype Entry = Entry(name: string, totalReviews: nat, averageRating: real)

  /** The entry pushed for a restaurant with the given star ratings. */
  function EntryOf(name: string, stars: seq<int>): Entry {
    Entry(name, |stars|, MeanTenth(stars))
  }

  function Rating(e: Entry): real {
    e.averageRating
  }

  function CountOf(e: Entry): int {
    e.totalReviews
  }

  /** The sum of the entries' review counts. */
  function Total(es: seq<Entry>): int {
    Sum(Sorting.Project(es, CountOf))
  }

  /** How many restaurants, from the first, had their reviews fetched before
      the first failed fetch. */
  function Fetched(ls: seq<Listing>): (k: nat)
    ensures k <= |ls|
    ensures forall i :: 0 <= i < k ==> ls[i].reviews.Ok?
    ensures k < |ls| ==> ls[k].reviews.Err?
    decreases |ls|
  {
    if ls == [] || ls[0].reviews.Err? then 0 else 1 + Fetched(ls[1..])
  }

  /** The entries, in snapshot order, of restaurants whose reviews were
      fetched: exactly one per restaurant, with its name and review count. */
  function Entries(ls: seq<Listing>): (es: seq<Entry>)
    requires forall i :: 0 <= i < |ls| ==> ls[i].reviews.Ok?
    ensures |es| == |ls|
    ensures forall i :: 0 <= i < |ls| ==> es[i] == EntryOf(ls[i].name, ls[i].reviews.value)
    decreases |ls|
  {
    if ls == [] then []
    else
      var last := ls[|ls| - 1];
      Entries(ls[..|ls| - 1]) + [EntryOf(last.name, last.reviews.value)]
  }

  /** The number of fetched reviews, restaurant by restaurant. */
  function ReviewCount(ls: seq<Listing>): nat
    requires forall i :: 0 <= i < |ls| ==> ls[i].reviews.Ok?
    decreases |ls|
  {
    if ls == [] then 0 else |ls[0].reviews.value| + ReviewCount(ls[1..])
  }

  class Page {
    var totalRestaurants: nat
    var totalReviews: int
    var restaurants: seq<Entry>

    constructor()
      ensures totalRestaurants == 0 && totalReviews == 0 && restaurants == []
    {
      totalRestaurants := 0;
      totalReviews := 0;
      restaurants := [];
    }

    /** `loadDashboardData`. A failed restaurant query changes nothing. A
        failed review query ends the `for` loop in the `catch`, leaving the
        entries pushed so far, unsorted. The new state never depends on the
        old one: reloading does not accumulate. */
    method LoadDashboardData(snapshot: Result<seq<Listing>>)
      modifies this
      ensures snapshot.Err? ==>
        totalRestaurants == old(totalRestaurants) && totalReviews == old(totalReviews)
        && restaurants == old(restaurants)
      ensures snapshot.Ok? ==>
        var ls := snapshot.value;
        var k := Fetched(ls);
        totalRestaurants == |ls|
        && totalReviews == Total(Entries(ls[..k]))
        && restaurants == (if k == |ls| then Sorting.SortDesc(Entries(ls), Rating) else Entries(ls[..k]))
    {
      if snapshot.Err? {
        return;
      }
      var ls := snapshot.value;
      totalRestaurants := |ls|;
      totalReviews := 0;
      restaurants := [];
      var i := 0;
      while i < |ls|
        invariant i <= |ls|
        invariant forall j :: 0 <= j < i ==> ls[j].reviews.Ok?
        invariant restaurants == Entries(ls[..i])
        invariant totalReviews == Total(restaurants)
        invariant totalRestaurants == |ls|
      {
        if ls[i].reviews.Err? {
          FetchedAt(ls, i);
          return;
        }
        var stars := ls[i].reviews.value;
        var count := |stars|;
        totalReviews := totalReviews + count;
        var average := if count > 0 then Sum(stars) as real / count as real else 0.0;
        var entry := Entry(ls[i].name, count, RoundTenth(average));
        EntryComputed(ls[i].name, stars);
        EntriesSnoc(ls, i);
        TotalSnoc(restaurants, entry);
        restaurants := restaurants + [entry];
        i := i + 1;
      }
      assert ls[..i] == ls;
      FetchedAt(ls, i);
      restaurants := Sorting.SortDesc(restaurants, Rating);
    }
  }

  /** The entry the loop body builds is `EntryOf`. */
  lemma EntryComputed(name: string, stars: seq<int>)
    ensures var average := if |stars| > 0 then Sum(stars) as real / |stars| as real else 0.0;
      Entry(name, |stars|, RoundTenth(average)) == EntryOf(name, stars)
  {
  }

  lemma FetchedAt(ls: seq<Listing>, i: nat)
    requires i <= |ls| && forall j :: 0 <= j < i ==> ls[j].reviews.Ok?
    requires i < |ls| ==> ls[i].reviews.Err?
    ensures Fetched(ls) == i
  {
  }

  lemma EntriesSnoc(ls: seq<Listing>, i: nat)
    requires i < |ls| && forall j :: 0 <= j <= i ==> ls[j].reviews.Ok?
    ensures Entries(ls[..i + 1]) == Entries(ls[..i]) + [EntryOf(ls[i].name, ls[i].reviews.value)]
  {
    assert ls[..i + 1][..i] == ls[..i];
  }

  lemma TotalSnoc(es: seq<Entry>, e: Entry)
    ensures Total(es + [e]) == Total(es) + e.totalReviews
  {
    var p := Sorting.Project(es + [e], CountOf);
    assert p[..|p| - 1] == Sorting.Project(es, CountOf);
  }

  /** `totalReviews` is the number of reviews of all restaurants. */
  lemma {:induction false} TotalIsReviewCount(ls: seq<Listing>)
    requires forall i :: 0 <= i < |ls| ==> ls[i].reviews.Ok?
    ensures Total(Entries(ls)) == ReviewCount(ls)
    decreases |ls|
  {
    if ls != [] {
      var es := Entries(ls);
      var rest := Entries(ls[1..]);
      TotalIsReviewCount(ls[1..]);
      assert es == [es[0]] + rest;
      var p := Sorting.Project(es, CountOf);
      assert p == [CountOf(es[0])] + Sorting.Project(rest, CountOf);
      SumAppend([CountOf(es[0])], Sorting.Project(rest, CountOf));
    }
  }

  /** When every fetch succeeds, the shown list holds exactly one entry per
      restaurant, in some order, ordered by rating with the highest first, and
      `totalReviews` is the sum of the shown review counts. */
  lemma LoadedEntries(ls: seq<Listing>)
    requires forall i :: 0 <= i < |ls| ==> ls[i].reviews.Ok?
    ensures var shown := Sorting.SortDesc(Entries(ls), Rating);
      |shown| == |ls|
      && multiset(shown) == multiset(Entries(ls))
      && (forall i :: 0 <= i < |ls| ==> EntryOf(ls[i].name, ls[i].reviews.value) in shown)
      && (forall i, j :: 0 <= i < j < |shown| ==> shown[i].averageRating >= shown[j].averageRating)
      && Total(shown) == ReviewCount(ls)
  {
    var es := Entries(ls);
    var shown := Sorting.SortDesc(es, Rating);
    forall i | 0 <= i < |ls| ensures EntryOf(ls[i].name, ls[i].reviews.value) in shown {
      assert es[i] in multiset(es);
    }
    assert forall i, j :: 0 <= i < j < |shown| ==> Rating(shown[i]) >= Rating(shown[j]);
    Sorting.ProjectPermutation(es, shown, CountOf);
    SumPermutation(Sorting.Project(es, CountOf), Sorting.Project(shown, CountOf));
    TotalIsReviewCount(ls);
  }

  /** A restaurant without reviews is rated 0; with ratings in 1..5 its
      rating lies in [1, 5] and is within half a tenth of the exact mean. */
  lemma EntryRating(name: string, stars: seq<int>)
    requires forall i :: 0 <= i < |stars| ==> 1 <= stars[i] <= 5
    ensures stars == [] ==> EntryOf(name, stars).averageRating == 0.0
    ensures stars != [] ==>
      var mean := Sum(stars) as real / |stars| as real;
      var r := EntryOf(name, stars).averageRating;
      1.0 <= r <= 5.0 && -1.0 / 20.0 < r - mean <= 1.0 / 20.0
  {
    MeanTenthBounds(stars, 1, 5);
    if stars != [] {
      MeanBounds(stars, 1, 5);
    }
  }
}
