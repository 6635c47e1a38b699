/** Short-circuiting chains of stateful stages, for any kind of stage.

    A stage in state s, shown an item x, moves to some state s' with
    advances(s, x, s'); what it lets through is a function of the new state. This is
    all that the filter interface promises, so the theorems hold for every filter.
 */
module Chains {
  import opened Options

  /** What leaves the chain, given the states after the run. */
  ghost function Output<S, X>(verdict: (S, X) -> Option<X>, after: seq<S>, x: X): Option<X> {
    if |after| == 0 then Some(x)
    else
      var n := |after| - 1;
      match Output(verdict, after[..n], x)
      case None => None
      case Some(y) => verdict(after[n], y)
  }

  /** One item goes through the stages: each one that is reached advances, the ones
      behind a drop keep their state. */
  ghost predicate Runs<S, X>(verdict: (S, X) -> Option<X>, advances: (S, X, S) -> bool,
                             before: seq<S>, x: X, after: seq<S>) {
    |before| == |after| &&
    (|before| == 0 ||
     var n := |before| - 1;
     Runs(verdict, advances, before[..n], x, after[..n]) &&
     match Output(verdict, after[..n], x)
     case None => after[n] == before[n]
     case Some(y) => advances(before[n], y, after[n]))
  }

  /** A chain of one stage. */
  lemma OutputOfOne<S, X>(verdict: (S, X) -> Option<X>, s: S, x: X)
    ensures Output(verdict, [s], x) == verdict(s, x)
  {
    var chain := [s];
    assert chain[..0] == [];
    assert Output(verdict, chain[..0], x) == Some(x);
  }

  lemma {:induction false} OutputSplits<S, X>(verdict: (S, X) -> Option<X>, a: seq<S>, b: seq<S>, x: X)
    ensures Output(verdict, a + b, x) ==
            match Output(verdict, a, x) { case None => None case Some(y) => Output(verdict, b, y) }
  {
    if |b| == 0 {
      assert a + b == a;
    } else {
      var n := |b| - 1;
      OutputSplits(verdict, a, b[..n], x);
      assert (a + b)[..|a + b| - 1] == a + b[..n];
    }
  }

  /** Composition: running a followed by b is running a and then, on what passes, b; a
      drop in a leaves b untouched. */
  lemma {:induction false} RunsCompose<S, X>(verdict: (S, X) -> Option<X>, advances: (S, X, S) -> bool,
                                             a: seq<S>, b: seq<S>, x: X, a': seq<S>, b': seq<S>)
    requires |a| == |a'| && |b| == |b'|
    ensures Runs(verdict, advances, a + b, x, a' + b') <==>
            Runs(verdict, advances, a, x, a') &&
            match Output(verdict, a', x) { case None => b' == b case Some(y) => Runs(verdict, advances, b, y, b') }
  {
    if |b| == 0 {
      assert a + b == a && a' + b' == a';
    } else {
      var n := |b| - 1;
      RunsCompose(verdict, advances, a, b[..n], x, a', b'[..n]);
      OutputSplits(verdict, a', b'[..n], x);
      assert (a + b)[..|a + b| - 1] == a + b[..n] && (a' + b')[..|a + b| - 1] == a' + b'[..n];
      assert b == b[..n] + [b[n]] && b' == b'[..n] + [b'[n]];
    }
  }

  /** An item dropped by the first k stages leaves the rest of the chain alone. */
  lemma DropStopsRun<S, X>(verdict: (S, X) -> Option<X>, advances: (S, X, S) -> bool,
                           before: seq<S>, x: X, after: seq<S>, k: nat)
    requires k <= |before| == |after| && after[k..] == before[k..]
    requires Runs(verdict, advances, before[..k], x, after[..k]) && Output(verdict, after[..k], x) == None
    ensures Runs(verdict, advances, before, x, after) && Output(verdict, after, x) == None
  {
    RunsCompose(verdict, advances, before[..k], before[k..], x, after[..k], after[k..]);
    OutputSplits(verdict, after[..k], after[k..], x);
    assert before == before[..k] + before[k..] && after == after[..k] + after[k..];
  }

  /** One more stage. */
  lemma RunsSnoc<S, X>(verdict: (S, X) -> Option<X>, advances: (S, X, S) -> bool,
                       before: seq<S>, x: X, after: seq<S>, y: X, s: S, s': S)
    requires Runs(verdict, advances, before, x, after) && Output(verdict, after, x) == Some(y) && advances(s, y, s')
    ensures Runs(verdict, advances, before + [s], x, after + [s'])
    ensures Output(verdict, after + [s'], x) == verdict(s', y)
  {
    assert (before + [s])[..|before|] == before && (after + [s'])[..|after|] == after;
  }

  /** Every stage of an emitted item was shown some intermediate item and passed it. */
  lemma {:induction false} EmittedPassesAll<S, X>(verdict: (S, X) -> Option<X>, advances: (S, X, S) -> bool,
                                                  before: seq<S>, x: X, after: seq<S>, i: nat) returns (y: X)
    requires Runs(verdict, advances, before, x, after) && Output(verdict, after, x).Some? && i < |before|
    ensures Output(verdict, after[..i], x) == Some(y)
    ensures advances(before[i], y, after[i]) && verdict(after[i], y).Some?
  {
    var n := |before| - 1;
    if i < n {
      y := EmittedPassesAll(verdict, advances, before[..n], x, after[..n], i);
      assert after[..n][..i] == after[..i];
    } else {
      y := Output(verdict, after[..n], x).value;
    }
  }
}
