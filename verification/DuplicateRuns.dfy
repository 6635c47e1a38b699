/** Dropping near-repeats of the last item that passed, for any notion of nearness. */
module DuplicateRuns {

  /** The items that pass a fresh filter, in order. */
  function Passed<H>(near: (H, H) -> bool, items: seq<H>): seq<H> {
    if items == [] then []
    else
      var n := |items| - 1;
      var kept := Passed(near, items[..n]);
      if Repeats(near, kept, items[n]) then kept else kept + [items[n]]
  }

  /** The item is near the last one that passed. */
  predicate Repeats<H>(near: (H, H) -> bool, kept: seq<H>, item: H) {
    |kept| > 0 && near(item, kept[|kept| - 1])
  }

  predicate Dropped<H>(near: (H, H) -> bool, items: seq<H>, i: nat)
    requires i < |items|
  {
    Repeats(near, Passed(near, items[..i]), items[i])
  }

  lemma PassedSnoc<H>(near: (H, H) -> bool, items: seq<H>, item: H)
    ensures var kept := Passed(near, items);
      Passed(near, items + [item]) == if Repeats(near, kept, item) then kept else kept + [item]
  {
    assert (items + [item])[..|items|] == items;
  }

  /** The first item passes. */
  lemma {:induction false} FirstPasses<H>(near: (H, H) -> bool, items: seq<H>)
    requires |items| > 0
    ensures |Passed(near, items)| > 0 && Passed(near, items)[0] == items[0]
  {
    var n := |items| - 1;
    if n > 0 {
      FirstPasses(near, items[..n]);
    }
  }

  /** Of two items the second passes exactly if it is not near the first. */
  lemma TwoItems<H>(near: (H, H) -> bool, a: H, b: H)
    ensures Passed(near, [a, b]) == if near(b, a) then [a] else [a, b]
  {
    PassedSnoc(near, [], a);
    PassedSnoc(near, [a], b);
    assert [] + [a] == [a] && [a] + [b] == [a, b];
  }

  /** An item that passes is not near the one that passed before it. */
  lemma {:induction false} PassedAreApart<H>(near: (H, H) -> bool, items: seq<H>, i: nat)
    requires i + 1 < |Passed(near, items)|
    ensures !near(Passed(near, items)[i + 1], Passed(near, items)[i])
  {
    var init := items[..|items| - 1];
    if i + 1 < |Passed(near, init)| {
      PassedAreApart(near, init, i);
    }
  }

  /** A stretch of dropped items leaves what has passed unchanged. */
  lemma {:induction false} GapKeepsPassed<H>(near: (H, H) -> bool, items: seq<H>, i: nat, j: nat)
    requires i <= j <= |items|
    requires forall k :: i <= k < j ==> Dropped(near, items, k)
    ensures Passed(near, items[..j]) == Passed(near, items[..i])
  {
    if i < j {
      GapKeepsPassed(near, items, i, j - 1);
      assert Dropped(near, items, j - 1);
      assert items[..j] == items[..j - 1] + [items[j - 1]];
      PassedSnoc(near, items[..j - 1], items[j - 1]);
    }
  }

  /** Filtering once more what passed changes nothing. */
  lemma {:induction false} PassedIsStable<H>(near: (H, H) -> bool, items: seq<H>)
    ensures Passed(near, Passed(near, items)) == Passed(near, items)
  {
    if |items| > 0 {
      var n := |items| - 1;
      PassedIsStable(near, items[..n]);
      PassedSnoc(near, Passed(near, items[..n]), items[n]);
    }
  }

  /** Every item is near one that passed: itself, or the reference it repeats. */
  lemma {:induction false} PassedCover<H>(near: (H, H) -> bool, items: seq<H>, i: nat) returns (j: nat)
    requires i < |items| && near(items[i], items[i])
    ensures j < |Passed(near, items)| && near(items[i], Passed(near, items)[j])
  {
    var n := |items| - 1;
    var kept := Passed(near, items[..n]);
    if i < n {
      j := PassedCover(near, items[..n], i);
    } else if Repeats(near, kept, items[n]) {
      j := |kept| - 1;
    } else {
      j := |kept|;
    }
  }
}
