/** Whole runs of the track manager.

    A run is the sequence of calls made on one manager. The main theorem reads the
    complete state of the manager off the history of handed-out identities: which
    tracks live, where they were last seen and how long they have been quiet.
 */
module TrackHistory {
  import opened Rectangles
  import opened Sets
  import opened Tracking

  datatype CallRecord = CallRecord(boxes: seq<Rect>, ids: seq<int>)

  /** One call: a box and an identity for each detection. */
  type Call = c: CallRecord | |c.boxes| == |c.ids| witness CallRecord([], [])

  function After(params: Params, calls: seq<Call>): State {
    if calls == [] then INITIAL
    else
      var c := calls[|calls| - 1];
      Aged(params, Assign(Start(After(params, calls[..|calls| - 1])), c.boxes, c.ids))
  }

  /** Every call of the run hands out identities the code may hand out. */
  ghost predicate IsRun(params: Params, calls: seq<Call>) {
    calls == [] ||
    var init, c := calls[..|calls| - 1], calls[|calls| - 1];
    IsRun(params, init) && IsGreedy(params, Start(After(params, init)), c.boxes, c.ids)
  }

  lemma {:induction false} RunPrefix(params: Params, calls: seq<Call>, k: nat)
    requires IsRun(params, calls) && k <= |calls|
    ensures IsRun(params, calls[..k])
    ensures k < |calls| ==> IsGreedy(params, Start(After(params, calls[..k])), calls[k].boxes, calls[k].ids)
  {
    var n := |calls|;
    if k == n {
      assert calls[..k] == calls;
    } else if k < n - 1 {
      RunPrefix(params, calls[..n - 1], k);
      assert calls[..n - 1][..k] == calls[..k];
    }
  }

  lemma RunSnoc(params: Params, calls: seq<Call>, boxes: seq<Rect>, ids: seq<int>)
    requires IsRun(params, calls) && |ids| == |boxes|
    requires IsGreedy(params, Start(After(params, calls)), boxes, ids)
    ensures IsRun(params, calls + [CallRecord(boxes, ids)])
    ensures After(params, calls + [CallRecord(boxes, ids)]) ==
            Aged(params, Assign(Start(After(params, calls)), boxes, ids))
  {
    assert (calls + [CallRecord(boxes, ids)])[..|calls|] == calls;
  }

  // ---------- the history specification ----------

  function IdSet(ids: seq<int>): set<int> {
    set id | id in ids
  }

  /** The identities handed out by the calls. */
  function Returned(calls: seq<Call>): set<int> {
    if calls == [] then {}
    else Returned(calls[..|calls| - 1]) + IdSet(calls[|calls| - 1].ids)
  }

  /** Calls since `id` was last handed out, plus one if that was also the only time:
      a track nobody claims ages already in the call that opens it. */
  function Quiet(calls: seq<Call>, id: int): nat
    requires id in Returned(calls)
  {
    var init, c := calls[..|calls| - 1], calls[|calls| - 1];
    if id !in c.ids then Quiet(init, id) + 1
    else if id !in Returned(init) && Count(c.ids, id) == 1 then 1
    else 0
  }

  function LatestBox(calls: seq<Call>, id: int): Rect
    requires id in Returned(calls)
  {
    var init, c := calls[..|calls| - 1], calls[|calls| - 1];
    if id in c.ids then LastBox(c.boxes, c.ids, id) else LatestBox(init, id)
  }

  function Allowance(params: Params): nat {
    if params.maxLost < 0 then 0 else params.maxLost
  }

  /** The tracks a manager should hold after the given calls. */
  function LiveTracks(params: Params, calls: seq<Call>): map<int, Track> {
    map id | id in Returned(calls) && Quiet(calls, id) <= Allowance(params)
      :: Track(LatestBox(calls, id), Quiet(calls, id))
  }

  /** Main theorem: after every run the manager holds exactly the tracks the history
      prescribes, and the identities handed out so far are 1 .. next - 1. */
  lemma {:induction false} HistoryDeterminesState(params: Params, calls: seq<Call>)
    requires IsRun(params, calls)
    ensures WellFormed(After(params, calls))
    ensures After(params, calls).tracks == LiveTracks(params, calls)
    ensures forall id :: id in Returned(calls) <==> 1 <= id < After(params, calls).next
  {
    if calls != [] {
      var init, c := calls[..|calls| - 1], calls[|calls| - 1];
      HistoryDeterminesState(params, init);
      AssignWellFormed(params, After(params, init), c.boxes, c.ids);
      forall id
        ensures id in Returned(calls) <==> 1 <= id < After(params, calls).next
        ensures id in After(params, calls).tracks <==> id in LiveTracks(params, calls)
        ensures id in LiveTracks(params, calls) ==>
          After(params, calls).tracks[id] == LiveTracks(params, calls)[id]
      {
        OneTrackStep(params, calls, id);
      }
    }
  }

  ghost predicate Agrees(params: Params, calls: seq<Call>, s: State, id: int) {
    && (id in Returned(calls) <==> 1 <= id < s.next)
    && (id in s.tracks <==> id in Returned(calls) && Quiet(calls, id) <= Allowance(params))
    && (id in s.tracks ==> s.tracks[id] == Track(LatestBox(calls, id), Quiet(calls, id)))
  }

  /** One call seen from one identity. */
  lemma OneTrackStep(params: Params, calls: seq<Call>, id: int)
    requires calls != [] && IsRun(params, calls)
    requires WellFormed(After(params, calls[..|calls| - 1]))
    requires Agrees(params, calls[..|calls| - 1], After(params, calls[..|calls| - 1]), id)
    ensures Agrees(params, calls, After(params, calls), id)
  {
    var init, c := calls[..|calls| - 1], calls[|calls| - 1];
    AssignDetermined(params, After(params, init), c.boxes, c.ids, id);
  }

  lemma HistoryOfOne(params: Params, calls: seq<Call>, id: int)
    requires IsRun(params, calls)
    ensures WellFormed(After(params, calls)) && Agrees(params, calls, After(params, calls), id)
  {
    HistoryDeterminesState(params, calls);
  }

  lemma {:induction false} LastBoxIs(boxes: seq<Rect>, ids: seq<int>, k: nat)
    requires k < |ids| <= |boxes| && forall j :: k < j < |ids| ==> ids[j] != ids[k]
    ensures LastBox(boxes, ids, ids[k]) == boxes[k]
  {
    var n := |ids| - 1;
    if k < n {
      LastBoxIs(boxes, ids[..n], k);
    }
  }

  /** After a call, a live identity handed out in it stands where the last detection that
      got it was. */
  lemma StandsAtLastDetection(params: Params, calls: seq<Call>, k: nat)
    requires IsRun(params, calls) && calls != []
    requires var ids := calls[|calls| - 1].ids; k < |ids| && forall j :: k < j < |ids| ==> ids[j] != ids[k]
    requires calls[|calls| - 1].ids[k] in After(params, calls).tracks
    ensures var c := calls[|calls| - 1]; After(params, calls).tracks[c.ids[k]].box == c.boxes[k]
  {
    var c := calls[|calls| - 1];
    HistoryOfOne(params, calls, c.ids[k]);
    LastBoxIs(c.boxes, c.ids, k);
  }

  // ---------- consequences ----------

  lemma {:induction false} ReturnedIff(calls: seq<Call>, id: int)
    ensures id in Returned(calls) <==> exists k :: 0 <= k < |calls| && id in calls[k].ids
  {
    if calls != [] {
      ReturnedIff(calls[..|calls| - 1], id);
    }
  }

  /** The identities handed out by the last `m` calls. */
  function Recent(calls: seq<Call>, m: nat): set<int> {
    if calls == [] || m == 0 then {}
    else IdSet(calls[|calls| - 1].ids) + Recent(calls[..|calls| - 1], m - 1)
  }

  lemma {:induction false} RecentIff(calls: seq<Call>, m: nat, id: int)
    ensures id in Recent(calls, m) <==> exists k :: 0 <= k < |calls| && |calls| - m <= k && id in calls[k].ids
  {
    if calls != [] && m != 0 {
      RecentIff(calls[..|calls| - 1], m - 1, id);
    }
  }

  /** Quiet is the distance to the last call that handed out the identity, give or
      take the birth call. */
  lemma {:induction false} QuietDistance(calls: seq<Call>, id: int, m: nat)
    requires id in Returned(calls)
    ensures id in Recent(calls, m) ==> Quiet(calls, id) <= m
    ensures Quiet(calls, id) <= m ==> id in Recent(calls, m + 1)
  {
    if id !in calls[|calls| - 1].ids && m != 0 {
      QuietDistance(calls[..|calls| - 1], id, m - 1);
    }
  }

  lemma {:induction false} RecentIsReturned(calls: seq<Call>, m: nat)
    ensures Recent(calls, m) <= Returned(calls)
  {
    if calls != [] && m != 0 {
      RecentIsReturned(calls[..|calls| - 1], m - 1);
    }
  }

  /** Lifetime window: identities of the last maxLost calls are live, and live
      identities stem from the last maxLost + 1 calls. */
  lemma LifetimeWindow(params: Params, calls: seq<Call>)
    requires IsRun(params, calls) && 0 <= params.maxLost
    ensures Recent(calls, params.maxLost) <= After(params, calls).tracks.Keys
    ensures After(params, calls).tracks.Keys <= Recent(calls, params.maxLost + 1)
  {
    HistoryDeterminesState(params, calls);
    RecentIsReturned(calls, params.maxLost);
    forall id | id in Returned(calls)
      ensures id in Recent(calls, params.maxLost) ==> id in After(params, calls).tracks
      ensures id in After(params, calls).tracks ==> id in Recent(calls, params.maxLost + 1)
    {
      QuietDistance(calls, id, params.maxLost);
    }
  }

  /** A track that is opened and not claimed again ages in the very call that opens it:
      it outlives that call exactly if at least one lost frame is allowed. */
  lemma BirthNeedsAllowance(params: Params, calls: seq<Call>, id: int)
    requires calls != [] && IsRun(params, calls)
    requires var c := calls[|calls| - 1]; id !in Returned(calls[..|calls| - 1]) && Count(c.ids, id) == 1
    ensures id in After(params, calls).tracks <==> 1 <= params.maxLost
  {
    HistoryOfOne(params, calls, id);
  }

  /** The number of detections in the last `m` calls. */
  function Detections(calls: seq<Call>, m: nat): nat {
    if calls == [] || m == 0 then 0
    else |calls[|calls| - 1].ids| + Detections(calls[..|calls| - 1], m - 1)
  }

  lemma {:induction false} DistinctAtMostLength(ids: seq<int>)
    ensures |IdSet(ids)| <= |ids|
  {
    if ids == [] {
      assert IdSet(ids) == {};
    } else {
      var k := |ids| - 1;
      DistinctAtMostLength(ids[..k]);
      assert IdSet(ids) == IdSet(ids[..k]) + {ids[k]};
    }
  }

  lemma {:induction false} RecentAtMostDetections(calls: seq<Call>, m: nat)
    ensures |Recent(calls, m)| <= Detections(calls, m)
  {
    if calls != [] && m != 0 {
      var init, c := calls[..|calls| - 1], calls[|calls| - 1];
      RecentAtMostDetections(init, m - 1);
      DistinctAtMostLength(c.ids);
      UnionSize(IdSet(c.ids), Recent(init, m - 1));
    }
  }

  /** Memory: the manager never holds more tracks than the last maxLost + 1 calls
      had detections. */
  lemma MemoryBound(params: Params, calls: seq<Call>)
    requires IsRun(params, calls) && 0 <= params.maxLost
    ensures |After(params, calls).tracks| <= Detections(calls, params.maxLost + 1)
  {
    LifetimeWindow(params, calls);
    SubsetSize(After(params, calls).tracks.Keys, Recent(calls, params.maxLost + 1));
    RecentAtMostDetections(calls, params.maxLost + 1);
  }

  /** An identity handed out earlier can be handed out again only while its track
      lives. */
  lemma ReturnsOnlyWhileLive(params: Params, calls: seq<Call>, k: nat, id: int)
    requires IsRun(params, calls) && k < |calls|
    requires id in Returned(calls[..k]) && id in calls[k].ids
    ensures id in After(params, calls[..k]).tracks
  {
    RunPrefix(params, calls, k);
    HistoryOfOne(params, calls[..k], id);
    AssignDetermined(params, After(params, calls[..k]), calls[k].boxes, calls[k].ids, id);
  }

  lemma LiveIsRecent(params: Params, calls: seq<Call>, id: int)
    requires IsRun(params, calls) && id in After(params, calls).tracks
    ensures id in Recent(calls, Allowance(params) + 1)
  {
    HistoryOfOne(params, calls, id);
    QuietDistance(calls, id, Allowance(params));
  }

  lemma RecentGap(calls: seq<Call>, j: nat, m: nat, id: int)
    requires id in Recent(calls, m)
    requires j < |calls| && forall i :: j < i < |calls| ==> id !in calls[i].ids
    ensures |calls| - j <= m
  {
    RecentIff(calls, m, id);
  }

  /** Consecutive appearances of one identity are at most maxLost + 1 calls apart. */
  lemma ReappearanceGap(params: Params, calls: seq<Call>, j: nat, k: nat, id: int)
    requires IsRun(params, calls)
    requires j < k < |calls| && id in calls[j].ids && id in calls[k].ids
    requires forall i :: j < i < k ==> id !in calls[i].ids
    ensures k - j <= Allowance(params) + 1
  {
    var before := calls[..k];
    assert before[j] == calls[j];
    assert id in Returned(before) by {
      ReturnedIff(before, id);
    }
    ReturnsOnlyWhileLive(params, calls, k, id);
    assert IsRun(params, before) by {
      RunPrefix(params, calls, k);
    }
    LiveIsRecent(params, before, id);
    RecentGap(before, j, Allowance(params) + 1, id);
  }

  lemma GoneStep(params: Params, calls: seq<Call>, id: int)
    requires calls != [] && IsRun(params, calls)
    requires var s := After(params, calls[..|calls| - 1]); 1 <= id < s.next && id !in s.tracks
    ensures id !in calls[|calls| - 1].ids
    ensures id !in After(params, calls).tracks && id < After(params, calls).next
  {
    var init, c := calls[..|calls| - 1], calls[|calls| - 1];
    HistoryOfOne(params, init, id);
    AssignDetermined(params, After(params, init), c.boxes, c.ids, id);
  }

  /** Once an issued identity is no longer live it stays gone. */
  lemma {:induction false} DeletedStaysDeleted(params: Params, calls: seq<Call>, k: nat, id: int)
    requires IsRun(params, calls) && k <= |calls|
    requires 1 <= id < After(params, calls[..k]).next && id !in After(params, calls[..k]).tracks
    ensures id !in After(params, calls).tracks && id < After(params, calls).next
    ensures forall j :: k <= j < |calls| ==> id !in calls[j].ids
  {
    var n := |calls|;
    if k == n {
      assert calls[..k] == calls;
    } else {
      assert calls[..n - 1][..k] == calls[..k];
      DeletedStaysDeleted(params, calls[..n - 1], k, id);
      GoneStep(params, calls, id);
    }
  }

  /** Identities are first handed out in increasing order: whenever one appears,
      every smaller one has appeared already. */
  lemma IncreasingBirths(params: Params, calls: seq<Call>, k: nat, i: nat, id: int)
    requires IsRun(params, calls) && k < |calls| && i < |calls[k].ids|
    requires 1 <= id <= calls[k].ids[i]
    ensures id in Returned(calls[..k]) || id in calls[k].ids[..i + 1]
  {
    var s, c := After(params, calls[..k]), calls[k];
    RunPrefix(params, calls, k);
    HistoryOfOne(params, calls[..k], id);
    GreedyPrefix(params, Start(s), c.boxes, c.ids, i + 1);
    AssignDetermined(params, s, c.boxes, c.ids[..i + 1], id);
    AssignDetermined(params, s, c.boxes, c.ids[..i + 1], c.ids[i]);
    assert c.ids[..i + 1][i] == c.ids[i];
  }

  /** The tracks the closing loop of one call deletes. */
  function DeletedBy(params: Params, p: Pass): set<int> {
    p.tracks.Keys - Aged(params, p).tracks.Keys
  }

  /** The number of tracks deleted by the calls of a run. */
  function Deletions(params: Params, calls: seq<Call>): nat {
    if calls == [] then 0
    else
      var init, c := calls[..|calls| - 1], calls[|calls| - 1];
      Deletions(params, init) + |DeletedBy(params, Assign(Start(After(params, init)), c.boxes, c.ids))|
  }

  /** Handing out identities adds a track for each one opened and removes none. */
  lemma {:induction false} AssignCounts(params: Params, s: State, boxes: seq<Rect>, ids: seq<int>)
    requires WellFormed(s) && |ids| <= |boxes| && IsGreedy(params, Start(s), boxes, ids)
    ensures var p := Assign(Start(s), boxes, ids);
      |p.tracks| - p.next == |s.tracks| - s.next
  {
    if ids != [] {
      var k := |ids| - 1;
      AssignCounts(params, s, boxes, ids[..k]);
      AssignDetermined(params, s, boxes, ids[..k], ids[k]);
      GiveCounts(Assign(Start(s), boxes, ids[..k]), boxes[k], ids[k]);
    }
  }

  lemma GiveCounts(p: Pass, box: Rect, id: int)
    requires id in p.tracks <==> id != p.next
    ensures |Give(p, box, id).tracks| - Give(p, box, id).next == |p.tracks| - p.next
  {
    assert Give(p, box, id).tracks.Keys == p.tracks.Keys + {id};
  }

  /** The closing loop only deletes. */
  lemma AgeingCounts(params: Params, p: Pass)
    ensures |p.tracks| == |Aged(params, p).tracks| + |DeletedBy(params, p)|
  {
    assert p.tracks.Keys == Aged(params, p).tracks.Keys + DeletedBy(params, p);
  }

  /** Conservation: the tracks opened in a run are the live ones and those its calls
      deleted; none is deleted twice or lost otherwise. */
  lemma {:induction false} CreatedIsLivePlusDeleted(params: Params, calls: seq<Call>)
    requires IsRun(params, calls)
    ensures After(params, calls).next - 1 == |After(params, calls).tracks| + Deletions(params, calls)
  {
    if calls != [] {
      var init, c := calls[..|calls| - 1], calls[|calls| - 1];
      CreatedIsLivePlusDeleted(params, init);
      HistoryOfOne(params, init, 0);
      AssignCounts(params, After(params, init), c.boxes, c.ids);
      AgeingCounts(params, Assign(Start(After(params, init)), c.boxes, c.ids));
    }
  }
}
