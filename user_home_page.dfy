/** The collapsing search bar of the customer's home page,
    src/app/user/home/home.page.ts: each scroll event compares the new
    position with the previous one. */
module UserHomePage {

  /** The threshold past which scrolling down collapses the bar. */
  const Threshold: real := 50.0

  /** The bar's state after one event at `top`, coming from `last`. */
  function Collapse(collapsed: bool, last: real, top: real): bool {
    if top > last && top > Threshold then true
    else if top < last then false
    else collapsed
  }

  /** An event that sets the state rather than keeping it. */
  predicate Decisive(last: real, top: real) {
    (top > last && top > Threshold) || top < last
  }

  /** A down scroll past the threshold collapses, any up scroll expands, and
      every other event keeps the state. */
  lemma CollapseCases(collapsed: bool, last: real, top: real)
    ensures top > last && top > Threshold ==> Collapse(collapsed, last, top)
    ensures top < last ==> !Collapse(collapsed, last, top)
    ensures !Decisive(last, top) ==> Collapse(collapsed, last, top) == collapsed
  {
  }

  /** The state after a run of events: the bar's state and the last
      position. */
  datatype Scroll = Scroll(collapsed: bool, last: real)

  function Run(s: Scroll, tops: seq<real>): Scroll
    decreases |tops|
  {
    if tops == [] then s
    else
      var before := Run(s, tops[..|tops| - 1]);
      var top := tops[|tops| - 1];
      Scroll(Collapse(before.collapsed, before.last, top), top)
  }

  /** The position before event `i` of a run. */
  function Prev(s: Scroll, tops: seq<real>, i: nat): real
    requires i < |tops|
  {
    if i == 0 then s.last else tops[i - 1]
  }

  /** After a run the last position is the last event's. */
  lemma RunLast(s: Scroll, tops: seq<real>)
    requires tops != []
    ensures Run(s, tops).last == tops[|tops| - 1]
  {
  }

  /** The position before the last event of a run is where the run without
      it ended. */
  lemma RunPrev(s: Scroll, tops: seq<real>)
    requires tops != []
    ensures Run(s, tops[..|tops| - 1]).last == Prev(s, tops, |tops| - 1)
    ensures forall i :: 0 <= i < |tops| - 1 ==> Prev(s, tops[..|tops| - 1], i) == Prev(s, tops, i)
  {
    var n := |tops| - 1;
    if n > 0 {
      RunLast(s, tops[..n]);
    }
  }

  /** With no decisive event the bar keeps its initial state. */
  lemma {:induction false} RunNoDecisive(s: Scroll, tops: seq<real>)
    requires forall i :: 0 <= i < |tops| ==> !Decisive(Prev(s, tops, i), tops[i])
    ensures Run(s, tops).collapsed == s.collapsed
    decreases |tops|
  {
    if tops != [] {
      RunPrev(s, tops);
      RunNoDecisive(s, tops[..|tops| - 1]);
    }
  }

  /** The bar is in the state the last decisive event set: collapsed
      exactly when that event was a down scroll. */
  lemma {:induction false} RunLastDecisive(s: Scroll, tops: seq<real>, k: nat)
    requires k < |tops| && Decisive(Prev(s, tops, k), tops[k])
    requires forall j :: k < j < |tops| ==> !Decisive(Prev(s, tops, j), tops[j])
    ensures Run(s, tops).collapsed == (tops[k] > Prev(s, tops, k))
    decreases |tops|
  {
    var n := |tops| - 1;
    RunPrev(s, tops);
    if k < n {
      RunLastDecisive(s, tops[..n], k);
    }
  }

  class Page {
    var isSearchbarCollapsed: bool
    var lastScrollPosition: real

    constructor()
      ensures !isSearchbarCollapsed && lastScrollPosition == 0.0
    {
      isSearchbarCollapsed := false;
      lastScrollPosition := 0.0;
    }

    /** `handleScroll` for an event whose `scrollTop` is `top`. */
    method HandleScroll(top: real)
      modifies this
      ensures isSearchbarCollapsed == Collapse(old(isSearchbarCollapsed), old(lastScrollPosition), top)
      ensures lastScrollPosition == top
    {
      if top > lastScrollPosition && top > Threshold {
        isSearchbarCollapsed := true;
      } else if top < lastScrollPosition {
        isSearchbarCollapsed := false;
      }
      lastScrollPosition := top;
    }
  }
}
