/** What one call of the track manager does, on values.

    A call hands every detection, in order, an identity: either that of the
    unused track it overlaps most, if the overlap exceeds the threshold, or the
    next fresh one. Afterwards every track that was not claimed ages by one and is
    dropped when it exceeds the allowance. Go iterates its map in an arbitrary
    order, so ties are open: the call is a relation, not a function. A call is
    described by the identities it handed out, which determine everything else.
 */
module Tracking {
  import opened Rectangles

  datatype Track = Track(box: Rect, lost: int)

  datatype Params = Params(threshold: real, maxLost: int)

  /** The manager between calls. */
  datatype State = State(tracks: map<int, Track>, next: int)

  /** The manager inside a call: `used` holds the tracks claimed so far. */
  datatype Pass = Pass(tracks: map<int, Track>, next: int, used: set<int>)

  const INITIAL := State(map[], 1)

  function Start(s: State): Pass {
    Pass(s.tracks, s.next, {})
  }

  /** The pass after `id` went to a detection at `box`. A track opened here is not
      marked used, so a later detection of the same call may still claim it. */
  function Give(p: Pass, box: Rect, id: int): Pass {
    if id == p.next then Pass(p.tracks[id := Track(box, 0)], p.next + 1, p.used)
    else Pass(p.tracks[id := Track(box, 0)], p.next, p.used + {id})
  }

  function Assign(p: Pass, boxes: seq<Rect>, ids: seq<int>): Pass
    requires |ids| <= |boxes|
  {
    if ids == [] then p
    else
      var k := |ids| - 1;
      Give(Assign(p, boxes, ids[..k]), boxes[k], ids[k])
  }

  function Aged(params: Params, p: Pass): State {
    State(map id | id in p.tracks && (id in p.used || p.tracks[id].lost + 1 <= params.maxLost)
            :: if id in p.used then p.tracks[id] else p.tracks[id].(lost := p.tracks[id].lost + 1),
          p.next)
  }

  predicate Candidate(params: Params, p: Pass, box: Rect, id: int) {
    id in p.tracks && id !in p.used && Iou(box, p.tracks[id].box) > params.threshold
  }

  /** `id` is an identity the selection loop may settle on, for some map order. */
  ghost predicate IsChoice(params: Params, p: Pass, box: Rect, id: int) {
    if id == p.next then forall t :: !Candidate(params, p, box, t)
    else
      Candidate(params, p, box, id) &&
      forall t :: Candidate(params, p, box, t) ==> Iou(box, p.tracks[t].box) <= Iou(box, p.tracks[id].box)
  }

  ghost predicate IsGreedy(params: Params, p: Pass, boxes: seq<Rect>, ids: seq<int>)
    requires |ids| <= |boxes|
  {
    ids == [] ||
    var k := |ids| - 1;
    IsGreedy(params, p, boxes, ids[..k]) &&
    IsChoice(params, Assign(p, boxes, ids[..k]), boxes[k], ids[k])
  }

  predicate WellFormed(s: State) {
    1 <= s.next && forall id :: id in s.tracks ==> 1 <= id < s.next
  }

  // ---------- prefixes of a call ----------

  lemma {:induction false} GreedyPrefix(params: Params, p: Pass, boxes: seq<Rect>, ids: seq<int>, k: nat)
    requires k <= |ids| <= |boxes| && IsGreedy(params, p, boxes, ids)
    ensures IsGreedy(params, p, boxes, ids[..k])
    ensures k < |ids| ==> IsChoice(params, Assign(p, boxes, ids[..k]), boxes[k], ids[k])
  {
    if k < |ids| - 1 {
      var init := ids[..|ids| - 1];
      GreedyPrefix(params, p, boxes, init, k);
      assert init[..k] == ids[..k];
    } else if k == |ids| {
      assert ids[..k] == ids;
    }
  }

  lemma GreedySnoc(params: Params, p: Pass, boxes: seq<Rect>, ids: seq<int>, id: int)
    requires |ids| < |boxes| && IsGreedy(params, p, boxes, ids)
    requires IsChoice(params, Assign(p, boxes, ids), boxes[|ids|], id)
    ensures IsGreedy(params, p, boxes, ids + [id])
    ensures Assign(p, boxes, ids + [id]) == Give(Assign(p, boxes, ids), boxes[|ids|], id)
  {
    assert (ids + [id])[..|ids|] == ids;
  }

  // ---------- what the handed-out identities determine ----------

  /** How often an identity was handed out. */
  function Count(ids: seq<int>, id: int): nat {
    multiset(ids)[id]
  }

  lemma CountSnoc(ids: seq<int>, id: int)
    requires ids != []
    ensures Count(ids, id) == Count(ids[..|ids| - 1], id) + (if ids[|ids| - 1] == id then 1 else 0)
    ensures id in ids <==> Count(ids, id) > 0
  {
    assert ids == ids[..|ids| - 1] + [ids[|ids| - 1]];
  }

  /** The box of the last detection that got `id`. */
  function LastBox(boxes: seq<Rect>, ids: seq<int>, id: int): Rect
    requires |ids| <= |boxes| && id in ids
  {
    var k := |ids| - 1;
    if ids[k] == id then boxes[k] else LastBox(boxes, ids[..k], id)
  }

  /** How often an identity can be handed out in one call that starts at `next`:
      a track that existed before serves one detection, a track opened by the call
      serves its opener and at most one claimer. */
  function Quota(next: int, id: int): nat {
    if id < next then 1 else 2
  }

  /** Everything about one track after the detections so far, from the old state
      and the handed-out identities alone. */
  lemma {:induction false} AssignDetermined(params: Params, s: State, boxes: seq<Rect>, ids: seq<int>, id: int)
    requires WellFormed(s) && |ids| <= |boxes| && IsGreedy(params, Start(s), boxes, ids)
    ensures var p := Assign(Start(s), boxes, ids);
      && s.next <= p.next
      && (id in p.tracks <==> id in s.tracks || s.next <= id < p.next)
      && (id in p.tracks <==> id in s.tracks || id in ids)
      && Count(ids, id) <= Quota(s.next, id)
      && (id in p.used <==> Count(ids, id) == Quota(s.next, id))
      && (id in p.tracks ==> p.tracks[id] == if id in ids then Track(LastBox(boxes, ids, id), 0) else s.tracks[id])
  {
    if ids != [] {
      var k := |ids| - 1;
      var before := Assign(Start(s), boxes, ids[..k]);
      AssignDetermined(params, s, boxes, ids[..k], id);
      AssignDetermined(params, s, boxes, ids[..k], ids[k]);
      CountSnoc(ids, id);
      assert id in ids <==> id in ids[..k] || id == ids[k];
    }
  }

  lemma AssignWellFormed(params: Params, s: State, boxes: seq<Rect>, ids: seq<int>)
    requires WellFormed(s) && |ids| <= |boxes| && IsGreedy(params, Start(s), boxes, ids)
    ensures WellFormed(Aged(params, Assign(Start(s), boxes, ids)))
    ensures forall id :: id in ids ==> 1 <= id < Assign(Start(s), boxes, ids).next
  {
    forall id ensures
      var p := Assign(Start(s), boxes, ids);
      1 <= p.next && (id in p.tracks ==> 1 <= id < p.next) && (id in ids ==> id in p.tracks) {
      AssignDetermined(params, s, boxes, ids, id);
    }
  }

  /** Sharing inside one call: two detections get one identity only if the earlier
      one opened it and the two overlap by more than the threshold. */
  lemma SharedIdentity(params: Params, s: State, boxes: seq<Rect>, ids: seq<int>, i: nat, j: nat)
    requires WellFormed(s) && |ids| <= |boxes| && IsGreedy(params, Start(s), boxes, ids)
    requires i < j < |ids| && ids[i] == ids[j]
    ensures s.next <= ids[i] && ids[i] == Assign(Start(s), boxes, ids[..i]).next
    ensures Iou(boxes[j], boxes[i]) > params.threshold
    ensures forall k :: 0 <= k < |ids| && ids[k] == ids[i] ==> k == i || k == j
  {
    var id := ids[i];
    var p := Assign(Start(s), boxes, ids[..j]);
    GreedyPrefix(params, Start(s), boxes, ids, j);
    GreedyPrefix(params, Start(s), boxes, ids, i);
    AssignDetermined(params, s, boxes, ids[..j], id);
    AssignDetermined(params, s, boxes, ids[..i], id);
    AssignDetermined(params, s, boxes, ids, id);
    assert ids[..j][i] == id;
    assert id in ids[..j];
    CountSnoc(ids[..j], id);
    assert p.next > id;
    assert Candidate(params, p, boxes[j], id);
    OnlyOccurrence(boxes, ids[..j], id, i);
    forall k | 0 <= k < |ids| && ids[k] == id && k != i && k != j
      ensures false
    {
      if k < i {
        ThreeOccurrences(ids, k, i, j);
      } else if k < j {
        ThreeOccurrences(ids, i, k, j);
      } else {
        ThreeOccurrences(ids, i, j, k);
      }
    }
  }

  lemma CountSplit(ids: seq<int>, id: int, j: nat)
    requires j < |ids|
    ensures Count(ids, id) == Count(ids[..j], id) + (if ids[j] == id then 1 else 0) + Count(ids[j + 1..], id)
  {
    assert ids == ids[..j] + [ids[j]] + ids[j + 1..];
  }

  lemma ThreeOccurrences(ids: seq<int>, i: nat, j: nat, k: nat)
    requires i < j < k < |ids| && ids[i] == ids[j] == ids[k]
    ensures Count(ids, ids[i]) >= 3
  {
    CountSplit(ids, ids[i], j);
    assert ids[..j][i] == ids[i] && ids[j + 1..][k - (j + 1)] == ids[i];
  }

  lemma {:induction false} OnlyOccurrence(boxes: seq<Rect>, ids: seq<int>, id: int, i: nat)
    requires i < |ids| <= |boxes| && ids[i] == id && Count(ids, id) == 1
    ensures LastBox(boxes, ids, id) == boxes[i]
  {
    var k := |ids| - 1;
    CountSnoc(ids, id);
    if i < k {
      assert ids[..k][i] == id;
      CountSnoc(ids[..k], id);
      OnlyOccurrence(boxes, ids[..k], id, i);
    }
  }

  // ---------- distinct identities ----------

  ghost predicate Distinct(ids: seq<int>) {
    forall i, j :: 0 <= i < j < |ids| ==> ids[i] != ids[j]
  }

  /** The detections overlap pairwise by at most the threshold. */
  ghost predicate Apart(params: Params, boxes: seq<Rect>) {
    forall i, j :: 0 <= i < j < |boxes| ==> Iou(boxes[i], boxes[j]) <= params.threshold
  }

  /** Detections that pairwise stay at or below the threshold get distinct
      identities, whatever the manager holds. */
  lemma DistinctIdentities(params: Params, s: State, boxes: seq<Rect>, ids: seq<int>)
    requires WellFormed(s) && |ids| == |boxes| && IsGreedy(params, Start(s), boxes, ids)
    requires Apart(params, boxes)
    ensures Distinct(ids)
  {
    forall i, j | 0 <= i < j < |ids|
      ensures ids[i] != ids[j]
    {
      if ids[i] == ids[j] {
        SharedIdentity(params, s, boxes, ids, i, j);
        IouSymmetric(boxes[i], boxes[j]);
      }
    }
  }

  /** A track that was opened in this call and not claimed yet stands where it was
      opened, for every later detection to claim. */
  lemma OpenedStaysOnOffer(params: Params, s: State, boxes: seq<Rect>, ids: seq<int>, i: nat)
    requires WellFormed(s) && i < |ids| <= |boxes| && IsGreedy(params, Start(s), boxes, ids)
    requires s.next <= ids[i] && Count(ids, ids[i]) == 1
    ensures var p := Assign(Start(s), boxes, ids);
      ids[i] in p.tracks && ids[i] !in p.used && p.tracks[ids[i]].box == boxes[i]
  {
    AssignDetermined(params, s, boxes, ids, ids[i]);
    OnlyOccurrence(boxes, ids, ids[i], i);
  }

  lemma CountDistinct(ids: seq<int>, i: nat)
    requires i < |ids| && Distinct(ids)
    ensures Count(ids, ids[i]) == 1
  {
    CountSplit(ids, ids[i], i);
    assert ids[i] !in ids[..i] && ids[i] !in ids[i + 1..];
  }

  /** On a manager without tracks, the identities of a call are distinct exactly when
      its detections are apart. */
  lemma DistinctIffApart(params: Params, next: int, boxes: seq<Rect>, ids: seq<int>)
    requires 1 <= next && |ids| == |boxes| && IsGreedy(params, Start(State(map[], next)), boxes, ids)
    ensures Distinct(ids) <==> Apart(params, boxes)
  {
    var s := State(map[], next);
    if Distinct(ids) {
      forall i, j | 0 <= i < j < |boxes|
        ensures Iou(boxes[i], boxes[j]) <= params.threshold
      {
        NoOverlapBehind(params, s, boxes, ids, i, j);
      }
    } else if Apart(params, boxes) {
      DistinctIdentities(params, s, boxes, ids);
    }
  }

  /** Without old tracks, a detection that overlaps an earlier one beyond the threshold
      has something to claim, and all it can claim has been handed out already. */
  lemma NoOverlapBehind(params: Params, s: State, boxes: seq<Rect>, ids: seq<int>, i: nat, j: nat)
    requires WellFormed(s) && s.tracks == map[]
    requires i < j < |ids| == |boxes| && IsGreedy(params, Start(s), boxes, ids) && Distinct(ids)
    ensures Iou(boxes[i], boxes[j]) <= params.threshold
  {
    var before := ids[..j];
    var p := Assign(Start(s), boxes, before);
    GreedyPrefix(params, Start(s), boxes, ids, j);
    AssignDetermined(params, s, boxes, before, ids[j]);
    AssignDetermined(params, s, boxes, before, before[i]);
    CountDistinct(before, i);
    OpenedStaysOnOffer(params, s, boxes, before, i);
    IouSymmetric(boxes[i], boxes[j]);
    assert ids[j] !in before;
    assert !Candidate(params, p, boxes[j], before[i]);
  }
}
