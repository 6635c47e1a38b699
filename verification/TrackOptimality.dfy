/** How good the greedy assignment is, and when it is the only one.

    The competitors are all one-to-one assignments of detections to tracks that
    existed before the call. An assignment is written like the result of a call: an
    identity below `next` keeps that track, any other entry stands for a new track.
 */
module TrackOptimality {
  import opened Rectangles
  import opened Sets
  import opened Tracking

  ghost predicate IsAssignment(params: Params, s: State, boxes: seq<Rect>, a: seq<int>) {
    && |a| == |boxes|
    && (forall k :: 0 <= k < |a| && a[k] < s.next ==>
          a[k] in s.tracks && Iou(boxes[k], s.tracks[a[k]].box) > params.threshold)
    && (forall i, j :: 0 <= i < j < |a| && a[i] == a[j] ==> s.next <= a[i])
  }

  /** The detections that keep an existing track. */
  function Kept(next: int, a: seq<int>): set<nat> {
    set k: nat | k < |a| && a[k] < next
  }

  // ---------- one detection of a greedy call ----------

  /** A track is free for detection k if it existed before and was not handed out. */
  predicate Free(s: State, ids: seq<int>, k: nat, t: int)
    requires k <= |ids|
  {
    t in s.tracks && t !in ids[..k]
  }

  lemma FreeIsUntouched(params: Params, s: State, boxes: seq<Rect>, ids: seq<int>, k: nat, t: int)
    requires WellFormed(s) && k <= |ids| <= |boxes| && IsGreedy(params, Start(s), boxes, ids)
    requires t in s.tracks
    ensures var p := Assign(Start(s), boxes, ids[..k]);
      t in p.tracks && (t in p.used <==> !Free(s, ids, k, t)) &&
      (Free(s, ids, k, t) ==> p.tracks[t] == s.tracks[t])
  {
    GreedyPrefix(params, Start(s), boxes, ids, k);
    AssignDetermined(params, s, boxes, ids[..k], t);
  }

  /** A detection that opens a track had no free track above the threshold. */
  lemma OpenedHadNoFree(params: Params, s: State, boxes: seq<Rect>, ids: seq<int>, k: nat, t: int)
    requires WellFormed(s) && k < |ids| <= |boxes| && IsGreedy(params, Start(s), boxes, ids)
    requires s.next <= ids[k] && ids[k] !in ids[..k] && Free(s, ids, k, t)
    ensures Iou(boxes[k], s.tracks[t].box) <= params.threshold
  {
    FreeIsUntouched(params, s, boxes, ids, k, t);
    GreedyPrefix(params, Start(s), boxes, ids, k);
    AssignDetermined(params, s, boxes, ids[..k], ids[k]);
    var p := Assign(Start(s), boxes, ids[..k]);
    assert ids[k] == p.next;
    assert !Candidate(params, p, boxes[k], t);
  }

  /** A detection that keeps a track takes the best free one. */
  lemma KeptIsBestFree(params: Params, s: State, boxes: seq<Rect>, ids: seq<int>, k: nat)
    requires WellFormed(s) && k < |ids| <= |boxes| && IsGreedy(params, Start(s), boxes, ids)
    requires ids[k] < s.next
    ensures Free(s, ids, k, ids[k])
    ensures Iou(boxes[k], s.tracks[ids[k]].box) > params.threshold
    ensures forall t :: Free(s, ids, k, t) ==>
              Iou(boxes[k], s.tracks[t].box) <= Iou(boxes[k], s.tracks[ids[k]].box)
  {
    var p := Assign(Start(s), boxes, ids[..k]);
    GreedyPrefix(params, Start(s), boxes, ids, k);
    AssignDetermined(params, s, boxes, ids[..k], ids[k]);
    FreeIsUntouched(params, s, boxes, ids, k, ids[k]);
    forall t | Free(s, ids, k, t)
      ensures Iou(boxes[k], s.tracks[t].box) <= Iou(boxes[k], s.tracks[ids[k]].box)
    {
      FreeIsUntouched(params, s, boxes, ids, k, t);
      assert Candidate(params, p, boxes[k], t) || Iou(boxes[k], s.tracks[t].box) <= params.threshold;
    }
  }

  // ---------- the greedy call as an assignment ----------

  lemma GreedyIsAssignment(params: Params, s: State, boxes: seq<Rect>, ids: seq<int>)
    requires WellFormed(s) && |ids| == |boxes| && IsGreedy(params, Start(s), boxes, ids)
    ensures IsAssignment(params, s, boxes, ids)
  {
    forall k | 0 <= k < |ids| && ids[k] < s.next
      ensures ids[k] in s.tracks && ids[k] !in ids[..k]
      ensures Iou(boxes[k], s.tracks[ids[k]].box) > params.threshold
    {
      KeptIsBestFree(params, s, boxes, ids, k);
    }
    forall i, j | 0 <= i < j < |ids| && ids[i] == ids[j]
      ensures s.next <= ids[i]
    {
      assert ids[..j][i] == ids[j];
    }
  }

  /** The detections that claim a track another detection of the call opened. */
  function Claimers(next: int, ids: seq<int>): set<nat> {
    set k: nat | k < |ids| && next <= ids[k] && ids[k] in ids[..k]
  }

  /** A place t that box e overlaps beyond the threshold and box d does not, while e
      overlaps d at least as much: a track opened for d lures e away from t. */
  predicate Lures(params: Params, d: Rect, e: Rect, t: Rect) {
    Iou(d, t) <= params.threshold < Iou(e, t) <= Iou(e, d)
  }

  /** No detection can be lured away from a track the manager holds. */
  ghost predicate NoLureFrom(params: Params, s: State, boxes: seq<Rect>) {
    forall i, j, t | 0 <= i < j < |boxes| && t in s.tracks :: !Lures(params, boxes[i], boxes[j], s.tracks[t].box)
  }

  /** No detection can be lured away from anywhere. */
  ghost predicate NoLure(params: Params, boxes: seq<Rect>) {
    forall i, j, t | 0 <= i < j < |boxes| :: !Lures(params, boxes[i], boxes[j], t)
  }

  /** Detections that are apart lure nobody. */
  lemma ApartHasNoLure(params: Params, boxes: seq<Rect>)
    requires Apart(params, boxes)
    ensures NoLure(params, boxes)
  {
    forall i, j, t | 0 <= i < j < |boxes|
      ensures !Lures(params, boxes[i], boxes[j], t)
    {
      IouSymmetric(boxes[i], boxes[j]);
    }
  }

  /** A detection that claims a track opened in its own call overlaps the opener at
      least as much as every track it could have kept. */
  lemma ClaimerPrefersOpened(params: Params, s: State, boxes: seq<Rect>, ids: seq<int>, i: nat, k: nat, t: int)
    requires WellFormed(s) && |ids| == |boxes| && IsGreedy(params, Start(s), boxes, ids)
    requires i < k < |ids| && ids[i] == ids[k] && Free(s, ids, k, t)
    ensures params.threshold < Iou(boxes[k], boxes[i]) && Iou(boxes[k], s.tracks[t].box) <= Iou(boxes[k], boxes[i])
  {
    var before := ids[..k];
    SharedIdentity(params, s, boxes, ids, i, k);
    GreedyPrefix(params, Start(s), boxes, ids, k);
    FreeIsUntouched(params, s, boxes, ids, k, t);
    AssignDetermined(params, s, boxes, ids, ids[k]);
    AssignDetermined(params, s, boxes, before, ids[k]);
    CountSplit(ids, ids[k], k);
    CountSplit(before, before[i], i);
    OpenedStaysOnOffer(params, s, boxes, before, i);
    assert Candidate(params, Assign(Start(s), boxes, before), boxes[k], t) ||
           Iou(boxes[k], s.tracks[t].box) <= params.threshold;
  }

  /** The matching is maximal but for the claimers: another detection without an
      existing track and an existing track without a detection never overlap by more
      than the threshold. */
  lemma MaximalButForClaimers(params: Params, s: State, boxes: seq<Rect>, ids: seq<int>, k: nat, t: int)
    requires WellFormed(s) && |ids| == |boxes| && IsGreedy(params, Start(s), boxes, ids)
    requires k < |ids| && s.next <= ids[k] && k !in Claimers(s.next, ids) && t in s.tracks && t !in ids
    ensures Iou(boxes[k], s.tracks[t].box) <= params.threshold
  {
    OpenedHadNoFree(params, s, boxes, ids, k, t);
  }

  /** A claimer that could have kept a free track was lured away from it by the opener
      of the track it claims. */
  lemma ClaimerWasLured(params: Params, s: State, boxes: seq<Rect>, ids: seq<int>, k: nat, t: int) returns (i: nat)
    requires WellFormed(s) && |ids| == |boxes| && IsGreedy(params, Start(s), boxes, ids)
    requires k in Claimers(s.next, ids) && Free(s, ids, k, t) && params.threshold < Iou(boxes[k], s.tracks[t].box)
    ensures i < k && Lures(params, boxes[i], boxes[k], s.tracks[t].box)
  {
    i :| i < k && ids[..k][i] == ids[k];
    SharedIdentity(params, s, boxes, ids, i, k);
    ClaimerPrefersOpened(params, s, boxes, ids, i, k, t);
    assert ids[i] !in ids[..i] && Free(s, ids, i, t);
    OpenedHadNoFree(params, s, boxes, ids, i, t);
  }

  /** Where no detection can be lured away from a track, the matching is maximal. */
  lemma GreedyIsMaximal(params: Params, s: State, boxes: seq<Rect>, ids: seq<int>, k: nat, t: int)
    requires WellFormed(s) && |ids| == |boxes| && IsGreedy(params, Start(s), boxes, ids)
    requires NoLureFrom(params, s, boxes)
    requires k < |ids| && s.next <= ids[k] && t in s.tracks && t !in ids
    ensures Iou(boxes[k], s.tracks[t].box) <= params.threshold
  {
    if k !in Claimers(s.next, ids) {
      MaximalButForClaimers(params, s, boxes, ids, k, t);
    } else if params.threshold < Iou(boxes[k], s.tracks[t].box) {
      var i := ClaimerWasLured(params, s, boxes, ids, k, t);
    }
  }

  /** The old track t is left untaken although detection k could have kept it. */
  predicate Misses(params: Params, s: State, boxes: seq<Rect>, ids: seq<int>, k: nat, t: int) {
    k < |boxes| && t in s.tracks && t !in ids && params.threshold < Iou(boxes[k], s.tracks[t].box)
  }

  /** The claimers that miss an old track. */
  ghost function Lured(params: Params, s: State, boxes: seq<Rect>, ids: seq<int>): set<nat>
    requires |ids| <= |boxes|
  {
    set k: nat | k in Claimers(s.next, ids) && exists t :: Misses(params, s, boxes, ids, k, t)
  }

  function At(a: seq<int>, k: nat): int {
    if k < |a| then a[k] else 0
  }

  /** The counting behind the bound: every track wanted by a detection that keeps nothing
      and is not among the losers was given to another detection. */
  lemma KeptAtLeastHalf(next: int, ids: seq<int>, best: seq<int>, losers: set<nat>)
    requires forall i, j :: 0 <= i < j < |best| && best[i] == best[j] ==> next <= best[i]
    requires forall k: nat :: k in Kept(next, best) - Kept(next, ids) - losers ==> best[k] in ids
    ensures |Kept(next, best)| <= 2 * |Kept(next, ids)| + |losers|
  {
    var kept, wanted := Kept(next, ids), Kept(next, best);
    var missed := wanted - kept - losers;
    forall k: nat | k in missed
      ensures exists i: nat :: i in kept && At(ids, i) == At(best, k)
    {
      var i :| 0 <= i < |ids| && ids[i] == best[k];
      assert i in kept && At(ids, i) == At(best, k);
    }
    InjectionSize(missed, (k: nat) => At(best, k), kept, (k: nat) => At(ids, k));
    SubsetSize(wanted, kept + missed + losers);
    UnionSize(kept, missed);
    UnionSize(kept + missed, losers);
  }

  /** No assignment keeps more than twice the identities greedy keeps, plus one for each
      detection that was lured away from a track nobody took. */
  lemma GreedyLosesAtMost(params: Params, s: State, boxes: seq<Rect>, ids: seq<int>, best: seq<int>)
    requires WellFormed(s) && |ids| == |boxes| && IsGreedy(params, Start(s), boxes, ids)
    requires IsAssignment(params, s, boxes, best)
    ensures |Kept(s.next, best)| <= 2 * |Kept(s.next, ids)| + |Lured(params, s, boxes, ids)|
  {
    forall k: nat | k in Kept(s.next, best) - Kept(s.next, ids) - Lured(params, s, boxes, ids)
      ensures best[k] in ids
    {
      if best[k] !in ids {
        assert Misses(params, s, boxes, ids, k, best[k]);
        MaximalButForClaimers(params, s, boxes, ids, k, best[k]);
      }
    }
    KeptAtLeastHalf(s.next, ids, best, Lured(params, s, boxes, ids));
  }

  /** Where no detection can be lured away from a track, greedy keeps at least half as
      many identities as any assignment could. */
  lemma GreedyKeepsHalf(params: Params, s: State, boxes: seq<Rect>, ids: seq<int>, best: seq<int>)
    requires WellFormed(s) && |ids| == |boxes| && IsGreedy(params, Start(s), boxes, ids)
    requires NoLureFrom(params, s, boxes) && IsAssignment(params, s, boxes, best)
    ensures |Kept(s.next, best)| <= 2 * |Kept(s.next, ids)|
  {
    GreedyLosesAtMost(params, s, boxes, ids, best);
    forall k: nat, t | k < |ids| && s.next <= ids[k] && t in s.tracks && t !in ids
      ensures !Misses(params, s, boxes, ids, k, t)
    {
      GreedyIsMaximal(params, s, boxes, ids, k, t);
    }
    assert Lured(params, s, boxes, ids) == {};
  }

  /** Overlap gained by a detection; staying without an existing track counts lowest. */
  function Gain(s: State, box: Rect, id: int): real {
    if id < s.next && id in s.tracks then Iou(box, s.tracks[id].box) else -1.0
  }

  predicate SameTarget(next: int, a: int, b: int) {
    a == b || (next <= a && next <= b)
  }

  /** What another assignment gives the first detection where it departs from greedy
      was free for greedy to take. */
  lemma DepartureWasFree(params: Params, s: State, boxes: seq<Rect>, ids: seq<int>, other: seq<int>, k: nat)
    requires |ids| == |boxes| && IsAssignment(params, s, boxes, other) && k < |ids| && other[k] < s.next
    requires forall j :: 0 <= j < k ==> SameTarget(s.next, ids[j], other[j])
    ensures Free(s, ids, k, other[k])
  {
    forall j | 0 <= j < k
      ensures ids[j] != other[k]
    {
      assert SameTarget(s.next, ids[j], other[j]);
    }
  }

  /** Lexicographic optimality: where another assignment first departs from greedy,
      greedy's choice overlaps at least as much, unless greedy claims a new track. */
  lemma LexOptimalButForClaimers(params: Params, s: State, boxes: seq<Rect>, ids: seq<int>, other: seq<int>, k: nat)
    requires WellFormed(s) && |ids| == |boxes| && IsGreedy(params, Start(s), boxes, ids)
    requires IsAssignment(params, s, boxes, other) && k < |ids| && k !in Claimers(s.next, ids)
    requires forall j :: 0 <= j < k ==> SameTarget(s.next, ids[j], other[j])
    ensures Gain(s, boxes[k], other[k]) <= Gain(s, boxes[k], ids[k])
  {
    if other[k] < s.next {
      DepartureWasFree(params, s, boxes, ids, other, k);
      if s.next <= ids[k] {
        OpenedHadNoFree(params, s, boxes, ids, k, other[k]);
      } else {
        KeptIsBestFree(params, s, boxes, ids, k);
      }
    } else if ids[k] < s.next && ids[k] in s.tracks {
      IouInUnitInterval(boxes[k], s.tracks[ids[k]].box);
    }
  }

  /** Where no detection can be lured away from a track, greedy is lexicographically
      optimal. */
  lemma GreedyIsLexOptimal(params: Params, s: State, boxes: seq<Rect>, ids: seq<int>, other: seq<int>, k: nat)
    requires WellFormed(s) && |ids| == |boxes| && IsGreedy(params, Start(s), boxes, ids)
    requires NoLureFrom(params, s, boxes) && IsAssignment(params, s, boxes, other)
    requires k < |ids| && forall j :: 0 <= j < k ==> SameTarget(s.next, ids[j], other[j])
    ensures Gain(s, boxes[k], other[k]) <= Gain(s, boxes[k], ids[k])
  {
    if k !in Claimers(s.next, ids) {
      LexOptimalButForClaimers(params, s, boxes, ids, other, k);
    } else if other[k] < s.next {
      DepartureWasFree(params, s, boxes, ids, other, k);
      var i := ClaimerWasLured(params, s, boxes, ids, k, other[k]);
    }
  }

  // ---------- map iteration order ----------

  datatype Best = Best(score: real, id: int)

  /** The selection loop over the tracks in a given order; id -1 means none. */
  function Scan(params: Params, p: Pass, box: Rect, order: seq<int>): Best {
    if order == [] then Best(params.threshold, -1)
    else
      var best, id := Scan(params, p, box, order[..|order| - 1]), order[|order| - 1];
      if id !in p.tracks || id in p.used then best
      else if Iou(box, p.tracks[id].box) > best.score then Best(Iou(box, p.tracks[id].box), id)
      else best
  }

  lemma ScanSnoc(params: Params, p: Pass, box: Rect, order: seq<int>, id: int)
    ensures var best := Scan(params, p, box, order);
      Scan(params, p, box, order + [id]) ==
      if id in p.tracks && id !in p.used && Iou(box, p.tracks[id].box) > best.score
      then Best(Iou(box, p.tracks[id].box), id) else best
  {
    assert (order + [id])[..|order|] == order;
  }

  function Chosen(p: Pass, best: Best): int {
    if best.id >= 0 then best.id else p.next
  }

  ghost predicate OrdersTracks(p: Pass, order: seq<int>) {
    && (forall t :: t in order <==> t in p.tracks)
    && (forall i, j :: 0 <= i < j < |order| ==> order[i] != order[j])
  }

  ghost predicate PassWellFormed(p: Pass) {
    1 <= p.next && forall t :: t in p.tracks ==> 1 <= t < p.next
  }

  lemma {:induction false} ScanBounds(params: Params, p: Pass, box: Rect, order: seq<int>)
    requires PassWellFormed(p)
    ensures var best := Scan(params, p, box, order);
      && (best.id == -1 || (Candidate(params, p, box, best.id) && best.score == Iou(box, p.tracks[best.id].box)))
      && (best.id == -1 ==> best.score == params.threshold)
      && params.threshold <= best.score
      && (forall t :: t in order && t in p.tracks && t !in p.used ==> Iou(box, p.tracks[t].box) <= best.score)
  {
    if order != [] {
      ScanBounds(params, p, box, order[..|order| - 1]);
    }
  }

  /** Every iteration order of the map ends in a permitted choice. */
  lemma EveryOrderChooses(params: Params, p: Pass, box: Rect, order: seq<int>)
    requires PassWellFormed(p) && OrdersTracks(p, order)
    ensures IsChoice(params, p, box, Chosen(p, Scan(params, p, box, order)))
  {
    ScanBounds(params, p, box, order);
  }

  lemma {:induction false} ScanKeeps(params: Params, p: Pass, box: Rect, id: int, order: seq<int>)
    requires Candidate(params, p, box, id)
    requires forall t :: Candidate(params, p, box, t) ==> Iou(box, p.tracks[t].box) <= Iou(box, p.tracks[id].box)
    ensures Scan(params, p, box, [id] + order) == Best(Iou(box, p.tracks[id].box), id)
  {
    var all := [id] + order;
    if order == [] {
      assert all[..|all| - 1] == [];
    } else {
      var init := order[..|order| - 1];
      ScanKeeps(params, p, box, id, init);
      assert all[..|all| - 1] == [id] + init;
      assert all[|all| - 1] == order[|order| - 1];
      var t := order[|order| - 1];
      assert t in p.tracks && t !in p.used ==>
          Candidate(params, p, box, t) || Iou(box, p.tracks[t].box) <= params.threshold;
    }
  }

  lemma {:induction false} SomeOrder(keys: set<int>) returns (order: seq<int>)
    ensures forall t :: t in order <==> t in keys
    ensures forall i, j :: 0 <= i < j < |order| ==> order[i] != order[j]
  {
    order := [];
    if keys != {} {
      var t := Member(keys);
      var rest := SomeOrder(keys - {t});
      order := rest + [t];
    }
  }

  /** Every permitted choice is what the loop settles on for some iteration order. */
  lemma EveryChoiceHasOrder(params: Params, p: Pass, box: Rect, id: int)
    requires PassWellFormed(p) && IsChoice(params, p, box, id)
    ensures exists order :: OrdersTracks(p, order) && Chosen(p, Scan(params, p, box, order)) == id
  {
    if id == p.next {
      var order := SomeOrder(p.tracks.Keys);
      ScanBounds(params, p, box, order);
      assert OrdersTracks(p, order) && Chosen(p, Scan(params, p, box, order)) == id;
    } else {
      var rest := SomeOrder(p.tracks.Keys - {id});
      var order := [id] + rest;
      ScanKeeps(params, p, box, id, rest);
      assert OrdersTracks(p, order) && Chosen(p, Scan(params, p, box, order)) == id;
    }
  }

  // ---------- when the order does not matter ----------

  ghost predicate Tie(params: Params, p: Pass, box: Rect, id: int, t: int) {
    && t != id && Candidate(params, p, box, t) && Candidate(params, p, box, id)
    && Iou(box, p.tracks[t].box) == Iou(box, p.tracks[id].box)
  }

  ghost predicate NoTies(params: Params, s: State, boxes: seq<Rect>, ids: seq<int>)
    requires |ids| <= |boxes|
  {
    forall k, t :: 0 <= k < |ids| ==> !Tie(params, Assign(Start(s), boxes, ids[..k]), boxes[k], ids[k], t)
  }

  ghost predicate OnlyOutcome(params: Params, s: State, boxes: seq<Rect>, ids: seq<int>) {
    forall other: seq<int> :: |other| == |boxes| && IsGreedy(params, Start(s), boxes, other) ==> other == ids
  }

  lemma {:induction false} BestAmong(p: Pass, box: Rect, among: set<int>) returns (best: int)
    requires among != {} && among <= p.tracks.Keys
    ensures best in among && forall t :: t in among ==> Iou(box, p.tracks[t].box) <= Iou(box, p.tracks[best].box)
  {
    best := Member(among);
    if among != {best} {
      var rest := BestAmong(p, box, among - {best});
      if Iou(box, p.tracks[best].box) < Iou(box, p.tracks[rest].box) {
        best := rest;
      }
    }
  }

  lemma ChoiceExists(params: Params, p: Pass, box: Rect) returns (id: int)
    requires PassWellFormed(p)
    ensures IsChoice(params, p, box, id)
  {
    var among := set t | t in p.tracks && Candidate(params, p, box, t);
    if among == {} {
      id := p.next;
      forall t ensures !Candidate(params, p, box, t) {
        assert t !in among;
      }
    } else {
      id := BestAmong(p, box, among);
      assert id in among;
    }
  }

  lemma PassStaysWellFormed(params: Params, s: State, boxes: seq<Rect>, ids: seq<int>)
    requires WellFormed(s) && |ids| <= |boxes| && IsGreedy(params, Start(s), boxes, ids)
    ensures PassWellFormed(Assign(Start(s), boxes, ids))
  {
    var p := Assign(Start(s), boxes, ids);
    forall t ensures 1 <= p.next && (t in p.tracks ==> 1 <= t < p.next) {
      AssignDetermined(params, s, boxes, ids, t);
    }
  }

  /** Every partial call can be completed. */
  lemma {:induction false} Completion(params: Params, s: State, boxes: seq<Rect>, ids: seq<int>) returns (all: seq<int>)
    requires WellFormed(s) && |ids| <= |boxes| && IsGreedy(params, Start(s), boxes, ids)
    ensures |all| == |boxes| && ids <= all && IsGreedy(params, Start(s), boxes, all)
    decreases |boxes| - |ids|
  {
    if |ids| == |boxes| {
      all := ids;
    } else {
      PassStaysWellFormed(params, s, boxes, ids);
      var id := ChoiceExists(params, Assign(Start(s), boxes, ids), boxes[|ids|]);
      assert (ids + [id])[..|ids|] == ids;
      all := Completion(params, s, boxes, ids + [id]);
    }
  }

  /** The identities of a call are sure to be distinct, whatever tracks the manager
      holds and in whatever order it visits them, exactly when the detections are apart. */
  lemma SurelyDistinctIffApart(params: Params, boxes: seq<Rect>)
    ensures Apart(params, boxes) <==>
            forall s, ids | WellFormed(s) && |ids| == |boxes| && IsGreedy(params, Start(s), boxes, ids) :: Distinct(ids)
  {
    if Apart(params, boxes) {
      forall s, ids | WellFormed(s) && |ids| == |boxes| && IsGreedy(params, Start(s), boxes, ids)
        ensures Distinct(ids)
      {
        DistinctIdentities(params, s, boxes, ids);
      }
    } else {
      var ids := Completion(params, INITIAL, boxes, []);
      DistinctIffApart(params, 1, boxes, ids);
    }
  }

  lemma {:induction false} NoTiesUnique(params: Params, s: State, boxes: seq<Rect>,
                                        ids: seq<int>, other: seq<int>, k: nat)
    requires WellFormed(s) && |ids| == |other| == |boxes| && k <= |boxes|
    requires IsGreedy(params, Start(s), boxes, ids) && IsGreedy(params, Start(s), boxes, other)
    requires NoTies(params, s, boxes, ids)
    ensures ids[..k] == other[..k]
  {
    if k > 0 {
      var i := k - 1;
      NoTiesUnique(params, s, boxes, ids, other, i);
      var p := Assign(Start(s), boxes, ids[..i]);
      GreedyPrefix(params, Start(s), boxes, ids, i);
      GreedyPrefix(params, Start(s), boxes, other, i);
      assert !Tie(params, p, boxes[i], ids[i], other[i]);
      assert !Candidate(params, p, boxes[i], p.next) by {
        PassStaysWellFormed(params, s, boxes, ids[..i]);
      }
      assert ids[i] == other[i];
      assert ids[..k] == ids[..i] + [ids[i]] && other[..k] == other[..i] + [other[i]];
    }
  }

  /** A call that breaks a tie could have broken it the other way. */
  lemma TieHasRival(params: Params, s: State, boxes: seq<Rect>, ids: seq<int>, k: nat, t: int)
    returns (other: seq<int>)
    requires WellFormed(s) && |ids| == |boxes| && IsGreedy(params, Start(s), boxes, ids)
    requires k < |ids| && Tie(params, Assign(Start(s), boxes, ids[..k]), boxes[k], ids[k], t)
    ensures |other| == |boxes| && IsGreedy(params, Start(s), boxes, other) && other[k] != ids[k]
  {
    GreedyPrefix(params, Start(s), boxes, ids, k);
    PassStaysWellFormed(params, s, boxes, ids[..k]);
    GreedySnoc(params, Start(s), boxes, ids[..k], t);
    other := Completion(params, s, boxes, ids[..k] + [t]);
    assert other[k] == (ids[..k] + [t])[k];
  }

  /** The outcome of a call is independent of the map order exactly when no detection
      finds its best overlap on two unused tracks. */
  lemma OrderIrrelevantIffNoTies(params: Params, s: State, boxes: seq<Rect>, ids: seq<int>)
    requires WellFormed(s) && |ids| == |boxes| && IsGreedy(params, Start(s), boxes, ids)
    ensures OnlyOutcome(params, s, boxes, ids) <==> NoTies(params, s, boxes, ids)
  {
    if NoTies(params, s, boxes, ids) {
      forall other: seq<int> | |other| == |boxes| && IsGreedy(params, Start(s), boxes, other)
        ensures other == ids
      {
        NoTiesUnique(params, s, boxes, ids, other, |boxes|);
        assert ids[..|boxes|] == ids && other[..|boxes|] == other;
      }
    } else {
      var k, t :| 0 <= k < |ids| && Tie(params, Assign(Start(s), boxes, ids[..k]), boxes[k], ids[k], t);
      var other := TieHasRival(params, s, boxes, ids, k, t);
    }
  }

  ghost predicate IsOutcome(params: Params, s: State, boxes: seq<Rect>, ids: seq<int>) {
    |ids| == |boxes| && IsGreedy(params, Start(s), boxes, ids)
  }

  /** Before the call: its outcome is settled exactly when no outcome involves a tie. */
  lemma SettledIffNoTies(params: Params, s: State, boxes: seq<Rect>)
    requires WellFormed(s)
    ensures (exists ids :: IsOutcome(params, s, boxes, ids) && OnlyOutcome(params, s, boxes, ids)) <==>
            (forall ids :: IsOutcome(params, s, boxes, ids) ==> NoTies(params, s, boxes, ids))
  {
    forall ids | IsOutcome(params, s, boxes, ids)
      ensures OnlyOutcome(params, s, boxes, ids) <==> NoTies(params, s, boxes, ids)
    {
      OrderIrrelevantIffNoTies(params, s, boxes, ids);
    }
    var some := Completion(params, s, boxes, []);
    assert IsOutcome(params, s, boxes, some);
  }

  // ---------- a test before the call ----------

  /** Where a track can stand during a call: where it was held, or at a detection. */
  datatype Place = Held(id: int) | Seen(index: nat)

  /** The places of the tracks when detection k is served. */
  predicate IsPlace(s: State, k: nat, p: Place) {
    match p
    case Held(id) => id in s.tracks
    case Seen(j) => j < k
  }

  function BoxAt(s: State, boxes: seq<Rect>, p: Place): Rect
    requires IsPlace(s, |boxes|, p)
  {
    match p
    case Held(id) => s.tracks[id].box
    case Seen(j) => boxes[j]
  }

  /** No detection overlaps two places equally and beyond the threshold. */
  ghost predicate NoEqualOverlaps(params: Params, s: State, boxes: seq<Rect>) {
    forall k, p, q | 0 <= k < |boxes| && IsPlace(s, k, p) && IsPlace(s, k, q) && p != q ::
      Iou(boxes[k], BoxAt(s, boxes, p)) == Iou(boxes[k], BoxAt(s, boxes, q)) ==>
      Iou(boxes[k], BoxAt(s, boxes, p)) <= params.threshold
  }

  lemma {:induction false} LastIndex(boxes: seq<Rect>, ids: seq<int>, id: int) returns (j: nat)
    requires |ids| <= |boxes| && id in ids
    ensures j < |ids| && ids[j] == id && LastBox(boxes, ids, id) == boxes[j]
  {
    j := |ids| - 1;
    if ids[j] != id {
      j := LastIndex(boxes, ids[..j], id);
    }
  }

  /** The place of a track when detection k is served; it tells tracks apart. */
  lemma PlaceOf(params: Params, s: State, boxes: seq<Rect>, ids: seq<int>, k: nat, id: int) returns (p: Place)
    requires WellFormed(s) && k < |ids| == |boxes| && IsGreedy(params, Start(s), boxes, ids)
    requires id in Assign(Start(s), boxes, ids[..k]).tracks
    ensures IsPlace(s, k, p) && Assign(Start(s), boxes, ids[..k]).tracks[id].box == BoxAt(s, boxes, p)
    ensures match p { case Held(t) => t == id case Seen(j) => ids[j] == id }
  {
    GreedyPrefix(params, Start(s), boxes, ids, k);
    AssignDetermined(params, s, boxes, ids[..k], id);
    if id in ids[..k] {
      var j := LastIndex(boxes, ids[..k], id);
      p := Seen(j);
    } else {
      p := Held(id);
    }
  }

  /** A test on the tracks and the detections: if no detection overlaps two places equally
      and beyond the threshold, the outcome of the call is settled. */
  lemma NoEqualOverlapsSettles(params: Params, s: State, boxes: seq<Rect>, ids: seq<int>)
    requires WellFormed(s) && IsOutcome(params, s, boxes, ids) && NoEqualOverlaps(params, s, boxes)
    ensures OnlyOutcome(params, s, boxes, ids)
  {
    forall k: nat, t | k < |ids|
      ensures !Tie(params, Assign(Start(s), boxes, ids[..k]), boxes[k], ids[k], t)
    {
      if Tie(params, Assign(Start(s), boxes, ids[..k]), boxes[k], ids[k], t) {
        var p := PlaceOf(params, s, boxes, ids, k, ids[k]);
        var q := PlaceOf(params, s, boxes, ids, k, t);
      }
    }
    OrderIrrelevantIffNoTies(params, s, boxes, ids);
  }
}
