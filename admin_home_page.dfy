/** The administrator's home page of src/app/admin/home/home.page.ts: the
    restaurants of the snapshot split into a verified and an unverified
    list. The snapshot is an input. */
module AdminHomePage {
  import opened Wrappers
  import opened Json

  /** `{ id: doc.id, ...doc.data() }`; `isVerified` is whatever the document
      holds, `None` when it has no such field. */
  datatype Restaurant = Restaurant(id: string, name: string, desc: string, ownerId: string, isVerified: Option<Json>)

  /** The restaurants, in snapshot order, whose `isVerified` truthiness is
      `verified`. */
  function Matching(rs: seq<Restaurant>, verified: bool): (r: seq<Restaurant>)
    ensures |r| <= |rs|
    ensures forall i :: 0 <= i < |r| ==> Truthy(r[i].isVerified) == verified
    decreases |rs|
  {
    if rs == [] then []
    else
      var init, last := rs[..|rs| - 1], rs[|rs| - 1];
      assert rs == init + [last];
      if Truthy(last.isVerified) == verified then Matching(init, verified) + [last]
      else Matching(init, verified)
  }

  /** One more restaurant of the snapshot. */
  lemma MatchingSnoc(rs: seq<Restaurant>, i: nat, verified: bool)
    requires i < |rs|
    ensures Matching(rs[..i + 1], verified)
      == Matching(rs[..i], verified) + (if Truthy(rs[i].isVerified) == verified then [rs[i]] else [])
  {
    assert rs[..i + 1][..i] == rs[..i];
  }

  /** Splitting keeps the snapshot order: the lists of a concatenation are
      the concatenations of the lists. */
  lemma {:induction false} MatchingAppend(a: seq<Restaurant>, b: seq<Restaurant>, verified: bool)
    ensures Matching(a + b, verified) == Matching(a, verified) + Matching(b, verified)
    decreases |b|
  {
    if b == [] {
      assert a + b == a;
    } else {
      var b' := b[..|b| - 1];
      assert (a + b)[..|a + b| - 1] == a + b';
      MatchingAppend(a, b', verified);
    }
  }

  /** Each restaurant lands in exactly one list: together the lists are the
      snapshot, and their lengths add up to its size. */
  lemma {:induction false} MatchingSplits(rs: seq<Restaurant>)
    ensures multiset(Matching(rs, true)) + multiset(Matching(rs, false)) == multiset(rs)
    ensures |Matching(rs, true)| + |Matching(rs, false)| == |rs|
    decreases |rs|
  {
    if rs != [] {
      var n := |rs| - 1;
      MatchingSplits(rs[..n]);
      MatchingSnoc(rs, n, true);
      MatchingSnoc(rs, n, false);
      assert rs[..n + 1] == rs;
      SplitStep(Matching(rs[..n], true), Matching(rs[..n], false), rs, n, Truthy(rs[n].isVerified));
    }
  }

  lemma SplitStep(t: seq<Restaurant>, f: seq<Restaurant>, rs: seq<Restaurant>, n: nat, b: bool)
    requires n < |rs| && multiset(t) + multiset(f) == multiset(rs[..n]) && |t| + |f| == n
    ensures var t', f' := t + (if b == true then [rs[n]] else []), f + (if b == false then [rs[n]] else []);
      multiset(t') + multiset(f') == multiset(rs[..n + 1]) && |t'| + |f'| == n + 1
  {
    assert rs[..n + 1] == rs[..n] + [rs[n]];
  }

  /** A restaurant of the snapshot is in the verified list exactly when its
      `isVerified` is truthy, and otherwise in the unverified one. */
  lemma MatchingMembership(rs: seq<Restaurant>, i: nat)
    requires i < |rs|
    ensures Truthy(rs[i].isVerified) ==> rs[i] in Matching(rs, true)
    ensures !Truthy(rs[i].isVerified) ==> rs[i] in Matching(rs, false)
  {
    var b := Truthy(rs[i].isVerified);
    assert rs == rs[..i + 1] + rs[i + 1..];
    MatchingAppend(rs[..i + 1], rs[i + 1..], b);
    MatchingSnoc(rs, i, b);
    assert rs[i] in Matching(rs[..i + 1], b);
  }

  class Page {
    var verifiedRestaurants: seq<Restaurant>
    var unverifiedRestaurants: seq<Restaurant>

    constructor()
      ensures verifiedRestaurants == [] && unverifiedRestaurants == []
    {
      verifiedRestaurants := [];
      unverifiedRestaurants := [];
    }

    /** `loadRestaurants`: a failed query leaves both lists as they were;
        otherwise both are cleared and refilled by the `forEach`. */
    method LoadRestaurants(snapshot: Result<seq<Restaurant>>)
      modifies this
      ensures snapshot.Err? ==>
        verifiedRestaurants == old(verifiedRestaurants) && unverifiedRestaurants == old(unverifiedRestaurants)
      ensures snapshot.Ok? ==>
        verifiedRestaurants == Matching(snapshot.value, true)
        && unverifiedRestaurants == Matching(snapshot.value, false)
    {
      if snapshot.Err? {
        return;
      }
      var rs := snapshot.value;
      verifiedRestaurants := [];
      unverifiedRestaurants := [];
      var i := 0;
      while i < |rs|
        invariant i <= |rs|
        invariant verifiedRestaurants == Matching(rs[..i], true)
        invariant unverifiedRestaurants == Matching(rs[..i], false)
      {
        MatchingSnoc(rs, i, true);
        MatchingSnoc(rs, i, false);
        if Truthy(rs[i].isVerified) {
          verifiedRestaurants := verifiedRestaurants + [rs[i]];
        } else {
          unverifiedRestaurants := unverifiedRestaurants + [rs[i]];
        }
        i := i + 1;
      }
      assert rs[..i] == rs;
    }
  }
}
