/** Runs that show the bounds of the greedy assignment to be sharp and its conditions to
    be needed. */
module TrackWitnesses {
  import opened Rectangles
  import opened Tracking
  import opened TrackHistory
  import opened TrackOptimality

  // ---------- small calls and runs ----------

  /** One more detection. */
  lemma Extend(params: Params, p: Pass, boxes: seq<Rect>, ids: seq<int>, box: Rect, id: int)
    requires |ids| == |boxes| && IsGreedy(params, p, boxes, ids)
    requires IsChoice(params, Assign(p, boxes, ids), box, id)
    ensures IsGreedy(params, p, boxes + [box], ids + [id])
    ensures Assign(p, boxes + [box], ids + [id]) == Give(Assign(p, boxes, ids), box, id)
  {
    PassIgnoresLater(params, p, boxes, [box], ids);
    GreedySnoc(params, p, boxes + [box], ids, id);
  }

  /** Detections behind the ones served so far have no influence. */
  lemma {:induction false} PassIgnoresLater(params: Params, p: Pass, boxes: seq<Rect>, more: seq<Rect>, ids: seq<int>)
    requires |ids| <= |boxes|
    ensures Assign(p, boxes + more, ids) == Assign(p, boxes, ids)
    ensures IsGreedy(params, p, boxes + more, ids) == IsGreedy(params, p, boxes, ids)
  {
    if ids != [] {
      PassIgnoresLater(params, p, boxes, more, ids[..|ids| - 1]);
    }
  }

  lemma TwoDetections(params: Params, p: Pass, a: Rect, b: Rect, i: int, j: int)
    requires IsChoice(params, p, a, i) && IsChoice(params, Give(p, a, i), b, j)
    ensures IsGreedy(params, p, [a, b], [i, j])
    ensures Assign(p, [a, b], [i, j]) == Give(Give(p, a, i), b, j)
  {
    Extend(params, p, [], [], a, i);
    assert [] + [a] == [a] && [] + [i] == [i];
    Extend(params, p, [a], [i], b, j);
    assert [a] + [b] == [a, b] && [i] + [j] == [i, j];
  }

  /** A box detected twice in a call claims its own track, which therefore does not age. */
  lemma ClaimedAtBirth(params: Params, t: Rect) returns (calls: seq<Call>)
    requires !t.Empty() && params.threshold < 1.0
    ensures IsRun(params, calls) && After(params, calls) == State(map[1 := Track(t, 0)], 2)
  {
    IouOneIffSame(t, t);
    TwoDetections(params, Start(INITIAL), t, t, 1, 1);
    RunSnoc(params, [], [t, t], [1, 1]);
    calls := [] + [CallRecord([t, t], [1, 1])];
  }

  /** The pass after two boxes were detected twice each. */
  lemma TwiceTwo(params: Params, t: Rect, u: Rect)
    requires !t.Empty() && !u.Empty() && params.threshold < 1.0
    ensures IsGreedy(params, Start(INITIAL), [t, t, u, u], [1, 1, 2, 2])
    ensures Assign(Start(INITIAL), [t, t, u, u], [1, 1, 2, 2]) ==
            Pass(map[1 := Track(t, 0), 2 := Track(u, 0)], 3, {1, 2})
  {
    IouOneIffSame(t, t);
    IouOneIffSame(u, u);
    var p := Start(INITIAL);
    TwoDetections(params, p, t, t, 1, 1);
    Extend(params, p, [t, t], [1, 1], u, 2);
    assert [t, t] + [u] == [t, t, u] && [1, 1] + [2] == [1, 1, 2];
    Extend(params, p, [t, t, u], [1, 1, 2], u, 2);
    assert [t, t, u] + [u] == [t, t, u, u] && [1, 1, 2] + [2] == [1, 1, 2, 2];
  }

  lemma BothClaimedAtBirth(params: Params, t: Rect, u: Rect) returns (calls: seq<Call>)
    requires !t.Empty() && !u.Empty() && params.threshold < 1.0
    ensures IsRun(params, calls)
    ensures After(params, calls) == State(map[1 := Track(t, 0), 2 := Track(u, 0)], 3)
  {
    var boxes, ids := [t, t, u, u], [1, 1, 2, 2];
    TwiceTwo(params, t, u);
    RunSnoc(params, [], boxes, ids);
    calls := [] + [CallRecord(boxes, ids)];
  }

  // ---------- the bound is sharp ----------

  /** The first detection d takes the only track t that the second detection e could
      keep, although it could have kept u. */
  lemma GreedyTakesFirst(params: Params, s: State, d: Rect, e: Rect)
    requires s.next == 3 && s.tracks.Keys == {1, 2}
    requires var t, u := s.tracks[1].box, s.tracks[2].box;
      && Iou(d, t) >= Iou(d, u) > params.threshold
      && Iou(e, t) > params.threshold && Iou(e, u) <= params.threshold
    ensures IsGreedy(params, Start(s), [d, e], [1, 3]) && IsAssignment(params, s, [d, e], [2, 1])
    ensures |Kept(s.next, [2, 1])| == 2 * |Kept(s.next, [1, 3])| == 2
  {
    TwoDetections(params, Start(s), d, e, 1, 3);
    assert Kept(3, [1, 3]) == {0} && Kept(3, [2, 1]) == {0, 1};
  }

  /** The factor two is reached, by a run that ends in the call just described. */
  lemma HalfIsTight(params: Params, t: Rect, u: Rect, d: Rect, e: Rect) returns (calls: seq<Call>)
    requires Iou(d, t) >= Iou(d, u) > params.threshold
    requires Iou(e, t) > params.threshold && Iou(e, u) <= params.threshold
    ensures IsRun(params, calls + [CallRecord([d, e], [1, 3])])
    ensures var s := After(params, calls);
      && IsAssignment(params, s, [d, e], [2, 1])
      && |Kept(s.next, [2, 1])| == 2 * |Kept(s.next, [1, 3])| == 2
  {
    assert !t.Empty() && !u.Empty() && params.threshold < 1.0 by {
      IouInUnitInterval(d, u);
      IouInUnitInterval(e, u);
    }
    calls := BothClaimedAtBirth(params, t, u);
    GreedyTakesFirst(params, After(params, calls), d, e);
    RunSnoc(params, calls, [d, e], [1, 3]);
  }

  /** The second detection e prefers the track just opened for d to the old track. */
  lemma GreedyPrefersOpened(params: Params, s: State, d: Rect, e: Rect)
    requires s.next == 2 && s.tracks.Keys == {1} && Lures(params, d, e, s.tracks[1].box)
    ensures IsGreedy(params, Start(s), [d, e], [2, 2]) && IsAssignment(params, s, [d, e], [2, 1])
  {
    TwoDetections(params, Start(s), d, e, 2, 2);
  }

  lemma PairCounts()
    ensures Kept(2, [2, 2]) == {} && Kept(2, [2, 1]) == {1} && Claimers(2, [2, 2]) == {1}
  {
    var ids := [2, 2];
    assert ids[..0] == [] && ids[..1] == [2];
    assert Claimers(2, ids) == {1};
  }

  lemma OneLured(params: Params, s: State, boxes: seq<Rect>, ids: seq<int>, k: nat, t: int)
    requires |ids| <= |boxes| && Claimers(s.next, ids) == {k} && Misses(params, s, boxes, ids, k, t)
    ensures Lured(params, s, boxes, ids) == {k}
  {
  }

  /** The loss of one identity for each lured detection is reached, by a run: greedy keeps
      nothing although t could be kept. */
  lemma SharingCanLoseEverything(params: Params, t: Rect, d: Rect, e: Rect) returns (calls: seq<Call>)
    requires Lures(params, d, e, t)
    ensures IsRun(params, calls + [CallRecord([d, e], [2, 2])])
    ensures var s := After(params, calls);
      && IsAssignment(params, s, [d, e], [2, 1])
      && Kept(s.next, [2, 2]) == {}
      && |Kept(s.next, [2, 1])| == |Lured(params, s, [d, e], [2, 2])| == 1
  {
    assert !t.Empty() && params.threshold < 1.0 by {
      IouInUnitInterval(d, t);
      IouInUnitInterval(e, t);
    }
    calls := ClaimedAtBirth(params, t);
    GreedyPrefersOpened(params, After(params, calls), d, e);
    PairCounts();
    OneLured(params, After(params, calls), [d, e], [2, 2], 1, 1);
    RunSnoc(params, calls, [d, e], [2, 2]);
  }

  // ---------- for pairs the condition is exact ----------

  /** Whatever the manager holds and in whatever order it visits its tracks, a call on
      these detections keeps at least half of what could be kept. */
  ghost predicate SurelyKeepsHalf(params: Params, boxes: seq<Rect>) {
    forall s, ids, best | WellFormed(s) && IsOutcome(params, s, boxes, ids) && IsAssignment(params, s, boxes, best) ::
      |Kept(s.next, best)| <= 2 * |Kept(s.next, ids)|
  }

  /** The same in every run. */
  ghost predicate KeepsHalfInRuns(params: Params, boxes: seq<Rect>) {
    forall calls: seq<Call>, ids, best | |ids| == |boxes| && IsRun(params, calls + [CallRecord(boxes, ids)]) &&
                                         IsAssignment(params, After(params, calls), boxes, best) ::
      |Kept(After(params, calls).next, best)| <= 2 * |Kept(After(params, calls).next, ids)|
  }

  lemma LureLoses(params: Params, d: Rect, e: Rect, t: Rect)
    requires Lures(params, d, e, t)
    ensures !SurelyKeepsHalf(params, [d, e]) && !KeepsHalfInRuns(params, [d, e])
  {
    var calls := SharingCanLoseEverything(params, t, d, e);
    var s := After(params, calls);
    LastCall(params, calls, [d, e], [2, 2]);
    assert IsOutcome(params, s, [d, e], [2, 2]) && IsAssignment(params, s, [d, e], [2, 1]);
  }

  lemma NoLureKeepsHalf(params: Params, boxes: seq<Rect>)
    requires NoLure(params, boxes)
    ensures SurelyKeepsHalf(params, boxes) && KeepsHalfInRuns(params, boxes)
  {
    forall s, ids, best | WellFormed(s) && IsOutcome(params, s, boxes, ids) && IsAssignment(params, s, boxes, best)
      ensures |Kept(s.next, best)| <= 2 * |Kept(s.next, ids)|
    {
      GreedyKeepsHalf(params, s, boxes, ids, best);
    }
    forall calls: seq<Call>, ids, best | |ids| == |boxes| && IsRun(params, calls + [CallRecord(boxes, ids)]) &&
                                         IsAssignment(params, After(params, calls), boxes, best)
      ensures |Kept(After(params, calls).next, best)| <= 2 * |Kept(After(params, calls).next, ids)|
    {
      LastCall(params, calls, boxes, ids);
    }
  }

  lemma LastCall(params: Params, calls: seq<Call>, boxes: seq<Rect>, ids: seq<int>)
    requires |ids| == |boxes| && IsRun(params, calls + [CallRecord(boxes, ids)])
    ensures WellFormed(After(params, calls)) && IsOutcome(params, After(params, calls), boxes, ids)
  {
    var all := calls + [CallRecord(boxes, ids)];
    RunPrefix(params, all, |calls|);
    assert all[..|calls|] == calls;
    HistoryOfOne(params, calls, 0);
  }

  /** A call on two detections is sure to keep half exactly if the first cannot lure the
      second away from anywhere; runs show every failure. */
  lemma PairKeepsHalfIffNoLure(params: Params, d: Rect, e: Rect)
    ensures SurelyKeepsHalf(params, [d, e]) <==> NoLure(params, [d, e])
    ensures KeepsHalfInRuns(params, [d, e]) <==> NoLure(params, [d, e])
  {
    if NoLure(params, [d, e]) {
      NoLureKeepsHalf(params, [d, e]);
    } else {
      PairNoLure(params, d, e);
      var t :| Lures(params, d, e, t);
      LureLoses(params, d, e, t);
    }
  }

  lemma PairNoLure(params: Params, d: Rect, e: Rect)
    ensures NoLure(params, [d, e]) <==> forall t :: !Lures(params, d, e, t)
  {
    var pair := [d, e];
    assert pair[0] == d && pair[1] == e;
    if NoLure(params, pair) {
      forall t
        ensures !Lures(params, d, e, t)
      {
        assert !Lures(params, pair[0], pair[1], t);
      }
    }
  }

  /** For a longer call: nobody can be lured exactly if every two of its detections, in
      their order, are sure to keep half on their own; and then the whole call is. */
  lemma PairsKeepHalfIffNoLure(params: Params, boxes: seq<Rect>)
    ensures NoLure(params, boxes) <==>
            forall i, j | 0 <= i < j < |boxes| :: SurelyKeepsHalf(params, [boxes[i], boxes[j]])
    ensures NoLure(params, boxes) ==> SurelyKeepsHalf(params, boxes)
  {
    forall i, j | 0 <= i < j < |boxes|
      ensures SurelyKeepsHalf(params, [boxes[i], boxes[j]]) <==> forall t :: !Lures(params, boxes[i], boxes[j], t)
    {
      PairKeepsHalfIffNoLure(params, boxes[i], boxes[j]);
      PairNoLure(params, boxes[i], boxes[j]);
    }
    if NoLure(params, boxes) {
      NoLureKeepsHalf(params, boxes);
    }
  }

  // ---------- ties occur ----------

  /** Two tracks opened in one call tie for a detection that overlaps both equally, and
      then the run can go on either way. */
  lemma TieIsReachable(params: Params, a: Rect, b: Rect, d: Rect) returns (calls: seq<Call>)
    requires 1 <= params.maxLost
    requires Iou(d, a) == Iou(d, b) > params.threshold >= Iou(b, a)
    ensures IsRun(params, calls + [CallRecord([d], [1])]) && IsRun(params, calls + [CallRecord([d], [2])])
  {
    TwoDetections(params, Start(INITIAL), a, b, 1, 2);
    RunSnoc(params, [], [a, b], [1, 2]);
    calls := [] + [CallRecord([a, b], [1, 2])];
    var s := After(params, calls);
    forall id | id == 1 || id == 2
      ensures IsRun(params, calls + [CallRecord([d], [id])])
    {
      assert IsChoice(params, Start(s), d, id);
      Extend(params, Start(s), [], [], d, id);
      assert [] + [d] == [d] && [] + [id] == [id];
      RunSnoc(params, calls, [d], [id]);
    }
  }

  // ---------- boxes for the default threshold 0.3 ----------

  /** A box one pixel high. */
  function Strip(lo: int, hi: int): Rect {
    Rect(lo, 0, hi, 1)
  }

  lemma StripArea(lo: int, hi: int)
    requires lo < hi
    ensures Area(Strip(lo, hi)) == hi - lo
  {
  }

  lemma StripIou(a: int, d: int)
    requires 0 <= d < 10
    ensures Iou(Strip(a, a + 10), Strip(a + d, a + d + 10)) == (10 - d) as real / (10 + d) as real
    ensures Iou(Strip(a + d, a + d + 10), Strip(a, a + 10)) == (10 - d) as real / (10 + d) as real
  {
    StripArea(a, a + 10);
    StripArea(a + d, a + d + 10);
    StripArea(a + d, a + 10);
    assert Strip(a, a + 10).Intersect(Strip(a + d, a + d + 10)) == Strip(a + d, a + 10);
    IouSymmetric(Strip(a, a + 10), Strip(a + d, a + d + 10));
  }

  lemma SharpBoxes(x: int) returns (t: Rect, u: Rect, d: Rect, e: Rect)
    ensures Iou(d, t) >= Iou(d, u) > 0.3 && Iou(e, t) > 0.3 && Iou(e, u) <= 0.3
  {
    t, u, d, e := Strip(x + 5, x + 15), Strip(x + 10, x + 20), Strip(x + 5, x + 15), Strip(x, x + 10);
    StripIou(x + 5, 0);
    StripIou(x + 5, 5);
    StripIou(x, 5);
    assert e.Intersect(u).Empty();
  }

  lemma LuringBoxes(x: int) returns (t: Rect, d: Rect, e: Rect)
    ensures Iou(d, t) <= 0.3 < Iou(e, t) <= Iou(e, d)
  {
    t, d, e := Strip(x, x + 10), Strip(x + 6, x + 16), Strip(x + 5, x + 15);
    StripIou(x, 6);
    StripIou(x, 5);
    StripIou(x + 5, 1);
  }

  lemma TyingBoxes(x: int) returns (a: Rect, b: Rect, d: Rect)
    ensures Iou(d, a) == Iou(d, b) > 0.3 >= Iou(b, a)
  {
    a, b, d := Strip(x, x + 10), Strip(x + 10, x + 20), Strip(x + 5, x + 15);
    StripIou(x, 5);
    StripIou(x + 5, 5);
    assert b.Intersect(a).Empty();
  }

  /** At the default threshold a run reaches the factor two. */
  lemma HalfIsReached(maxLost: int) returns (d: Rect, e: Rect, calls: seq<Call>)
    ensures var params := Params(0.3, maxLost); var s := After(params, calls);
      && IsRun(params, calls + [CallRecord([d, e], [1, 3])]) && IsAssignment(params, s, [d, e], [2, 1])
      && |Kept(s.next, [2, 1])| == 2 * |Kept(s.next, [1, 3])| == 2
  {
    var t, u;
    t, u, d, e := SharpBoxes(0);
    calls := HalfIsTight(Params(0.3, maxLost), t, u, d, e);
  }

  /** At the default threshold a run loses the only identity that could be kept. */
  lemma LossOccurs(maxLost: int) returns (d: Rect, e: Rect, calls: seq<Call>)
    ensures var params := Params(0.3, maxLost); var s := After(params, calls);
      && IsRun(params, calls + [CallRecord([d, e], [2, 2])]) && IsAssignment(params, s, [d, e], [2, 1])
      && Kept(s.next, [2, 2]) == {}
      && |Kept(s.next, [2, 1])| == |Lured(params, s, [d, e], [2, 2])| == 1
  {
    var t;
    t, d, e := LuringBoxes(0);
    calls := SharingCanLoseEverything(Params(0.3, maxLost), t, d, e);
  }

  /** At the default threshold a run leaves two tracks that tie for a detection. */
  lemma TieOccurs(maxLost: int) returns (d: Rect, calls: seq<Call>)
    requires 1 <= maxLost
    ensures var params := Params(0.3, maxLost);
      IsRun(params, calls + [CallRecord([d], [1])]) && IsRun(params, calls + [CallRecord([d], [2])])
  {
    var a, b;
    a, b, d := TyingBoxes(0);
    calls := TieIsReachable(Params(0.3, maxLost), a, b, d);
  }
}
