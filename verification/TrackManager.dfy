/** The track manager object: a map from identities to mutable track records. */
module TrackManagers {
  import opened Rectangles
  import opened Sets
  import opened Tracking
  import opened TrackOptimality
  import opened TrackHistory

  datatype Detection = Detection(kind: string, box: Rect, confidence: real, trackID: int)

  function Boxes(dets: seq<Detection>): (boxes: seq<Rect>)
    ensures |boxes| == |dets|
  {
    seq(|dets|, k requires 0 <= k < |dets| => dets[k].box)
  }

  /** The detections with their identities filled in. */
  function WithIds(dets: seq<Detection>, ids: seq<int>): (labelled: seq<Detection>)
    requires |dets| == |ids|
    ensures |labelled| == |dets|
  {
    seq(|dets|, k requires 0 <= k < |dets| => dets[k].(trackID := ids[k]))
  }

  /** The first |ids| detections are labelled, the others untouched. */
  ghost predicate Labelled(now: seq<Detection>, was: seq<Detection>, ids: seq<int>) {
    && |ids| <= |now| == |was|
    && (forall k :: 0 <= k < |ids| ==> now[k] == was[k].(trackID := ids[k]))
    && (forall k :: |ids| <= k < |was| ==> now[k] == was[k])
  }

  lemma LabelledSnoc(now: seq<Detection>, was: seq<Detection>, ids: seq<int>, id: int)
    requires Labelled(now, was, ids) && |ids| < |now|
    ensures Labelled(now[|ids| := now[|ids|].(trackID := id)], was, ids + [id])
  {
  }

  class TrackState {
    const id: int
    var lastBBox: Rect
    var lostFrames: int

    constructor (id: int, box: Rect)
      ensures this.id == id && lastBBox == box && lostFrames == 0
    {
      this.id := id;
      lastBBox := box;
      lostFrames := 0;
    }
  }

  lemma SameMap<K, V>(m: map<K, V>, n: map<K, V>)
    requires forall k :: k in m <==> k in n
    requires forall k :: k in m ==> m[k] == n[k]
    ensures m == n
  {
  }

  lemma SubmapValues<K, V>(m: map<K, V>, n: map<K, V>)
    requires forall k :: k in m ==> k in n && m[k] == n[k]
    ensures m.Values <= n.Values
  {
  }

  /** One unclaimed track grows older or disappears. */
  function AgeTrack(params: Params, s: State, id: int): State
    requires id in s.tracks
  {
    var lost := s.tracks[id].lost + 1;
    if lost > params.maxLost then s.(tracks := s.tracks - {id})
    else s.(tracks := s.tracks[id := s.tracks[id].(lost := lost)])
  }

  /** The closing loop before the tracks in `remaining` are visited. */
  function Ageing(params: Params, p: Pass, remaining: set<int>): State {
    State(map id | id in p.tracks && (id in remaining || id in p.used || p.tracks[id].lost + 1 <= params.maxLost)
            :: if id in remaining || id in p.used then p.tracks[id]
               else p.tracks[id].(lost := p.tracks[id].lost + 1),
          p.next)
  }

  lemma AgeingStep(params: Params, p: Pass, remaining: set<int>, id: int)
    requires id in remaining && remaining <= p.tracks.Keys
    ensures id in Ageing(params, p, remaining).tracks
    ensures id in p.used ==> Ageing(params, p, remaining - {id}) == Ageing(params, p, remaining)
    ensures id !in p.used ==>
      Ageing(params, p, remaining - {id}) == AgeTrack(params, Ageing(params, p, remaining), id)
  {
    var now, next := Ageing(params, p, remaining), Ageing(params, p, remaining - {id});
    var after := if id in p.used then now else AgeTrack(params, now, id);
    forall t
      ensures t in next.tracks <==> t in after.tracks
      ensures t in next.tracks ==> next.tracks[t] == after.tracks[t]
    {
    }
    SameMap(next.tracks, after.tracks);
  }

  lemma AgeingEnds(params: Params, p: Pass)
    ensures Ageing(params, p, p.tracks.Keys) == State(p.tracks, p.next)
    ensures Ageing(params, p, {}) == Aged(params, p)
  {
    var first, last := Ageing(params, p, p.tracks.Keys).tracks, Ageing(params, p, {}).tracks;
    forall t
      ensures (t in first <==> t in p.tracks) && (t in first ==> first[t] == p.tracks[t])
      ensures (t in last <==> t in Aged(params, p).tracks) && (t in last ==> last[t] == Aged(params, p).tracks[t])
    {
    }
    SameMap(first, p.tracks);
    SameMap(last, Aged(params, p).tracks);
  }

  class TrackManager {
    const params: Params
    var tracks: map<int, TrackState>
    var nextID: int
    ghost var calls: seq<Call>  // the calls made so far

    constructor (iouThreshold: real, maxLost: int)
      ensures Valid() && calls == [] && tracks == map[]
      ensures params == Params(iouThreshold, maxLost)
    {
      params := Params(iouThreshold, maxLost);
      tracks := map[];
      nextID := 1;
      calls := [];
    }

    /** Every record carries the identity it is filed under, so records are not shared. */
    ghost predicate WellFiled()
      reads this`tracks, this`nextID, tracks.Values
      ensures WellFiled() ==> WellFormed(View())
    {
      1 <= nextID && forall id :: id in tracks ==> 1 <= id < nextID && tracks[id].id == id
    }

    /** The state is the one that the calls made so far lead to. */
    ghost predicate Valid()
      reads this, tracks.Values
    {
      WellFiled() && IsRun(params, calls) && View() == After(params, calls)
    }

    ghost function View(): State
      reads this`tracks, this`nextID, tracks.Values
    {
      State(map id | id in tracks :: Track(tracks[id].lastBBox, tracks[id].lostFrames), nextID)
    }

    /** The fields hold what the history of the calls prescribes. */
    lemma HoldsHistory()
      requires Valid()
      ensures View().tracks == LiveTracks(params, calls)
      ensures forall id :: id in Returned(calls) <==> 1 <= id < nextID
    {
      HistoryDeterminesState(params, calls);
    }

    ghost function Midway(used: set<int>): Pass
      reads this`tracks, this`nextID, tracks.Values
    {
      Pass(View().tracks, nextID, used)
    }

    /** The selection loop. Go's arbitrary map order is an arbitrary pick from the
        identities still to be visited; -1 means that no track qualifies. */
    method SelectBest(box: Rect, used: set<int>) returns (bestTrack: int)
      requires WellFiled()
      ensures IsChoice(params, Midway(used), box, if bestTrack >= 0 then bestTrack else nextID)
      ensures bestTrack >= 0 ==> bestTrack in tracks && bestTrack !in used
    {
      var bestIOU := params.threshold;
      bestTrack := -1;
      var remaining := tracks.Keys;
      ghost var order: seq<int> := [];
      ghost var p := Midway(used);
      while remaining != {}
        invariant remaining <= tracks.Keys
        invariant forall t :: t in order <==> t in tracks && t !in remaining
        invariant forall i, j :: 0 <= i < j < |order| ==> order[i] != order[j]
        invariant Scan(params, p, box, order) == Best(bestIOU, bestTrack)
        invariant bestTrack >= 0 ==> bestTrack in tracks && bestTrack !in used
        decreases remaining
      {
        var id := PickAny(remaining);
        remaining := remaining - {id};
        ScanSnoc(params, p, box, order, id);
        order := order + [id];
        if id !in used {
          var i := Iou(box, tracks[id].lastBBox);
          if i > bestIOU {
            bestIOU := i;
            bestTrack := id;
          }
        }
      }
      assert OrdersTracks(p, order);
      EveryOrderChooses(params, p, box, order);
    }

    /** File a detection under an existing or a new track. */
    method Record(bestTrack: int, box: Rect, used: set<int>) returns (id: int, used': set<int>)
      requires WellFiled()
      requires bestTrack >= 0 ==> bestTrack in tracks
      modifies this`tracks, this`nextID, tracks.Values
      ensures WellFiled()
      ensures id == if bestTrack >= 0 then bestTrack else old(nextID)
      ensures Midway(used') == Give(old(Midway(used)), box, id)
      ensures fresh(tracks.Values - old(tracks.Values))
    {
      used' := used;
      if bestTrack >= 0 {
        id := bestTrack;
        tracks[bestTrack].lastBBox := box;
        tracks[bestTrack].lostFrames := 0;
        used' := used' + {bestTrack};
      } else {
        id := nextID;
        var track := new TrackState(nextID, box);
        tracks := tracks[nextID := track];
        nextID := nextID + 1;
      }
      forall t
        ensures t in View().tracks <==> t in old(View()).tracks[id := Track(box, 0)]
        ensures t in View().tracks ==> View().tracks[t] == old(View()).tracks[id := Track(box, 0)][t]
      {
      }
      SameMap(View().tracks, old(View()).tracks[id := Track(box, 0)]);
    }

    /** The body of the detection loop. */
    method MatchOne(box: Rect, used: set<int>) returns (id: int, used': set<int>)
      requires WellFiled()
      modifies this`tracks, this`nextID, tracks.Values
      ensures WellFiled()
      ensures IsChoice(params, old(Midway(used)), box, id)
      ensures Midway(used') == Give(old(Midway(used)), box, id)
      ensures fresh(tracks.Values - old(tracks.Values))
    {
      var bestTrack := SelectBest(box, used);
      id, used' := Record(bestTrack, box, used);
    }

    /** One round of the closing loop on an unclaimed track. */
    method AgeOne(id: int)
      requires WellFiled() && id in tracks
      modifies this`tracks, tracks[id]
      ensures WellFiled() && tracks.Values <= old(tracks.Values)
      ensures View() == AgeTrack(params, old(View()), id)
    {
      ghost var was := tracks;
      tracks[id].lostFrames := tracks[id].lostFrames + 1;
      if tracks[id].lostFrames > params.maxLost {
        tracks := tracks - {id};
      }
      forall t
        ensures t in View().tracks <==> t in AgeTrack(params, old(View()), id).tracks
        ensures t in View().tracks ==> View().tracks[t] == AgeTrack(params, old(View()), id).tracks[t]
        ensures t in tracks ==> t in was && tracks[t] == was[t]
      {
      }
      SameMap(View().tracks, AgeTrack(params, old(View()), id).tracks);
      SubmapValues(tracks, was);
    }

    /** The closing loop: unclaimed tracks age, stale ones are deleted. */
    method AgeUnclaimed(used: set<int>)
      requires WellFiled()
      modifies this`tracks, tracks.Values
      ensures WellFiled() && tracks.Values <= old(tracks.Values)
      ensures View() == Aged(params, old(Midway(used)))
    {
      ghost var p := Midway(used);
      var remaining := tracks.Keys;
      AgeingEnds(params, p);
      while remaining != {}
        invariant WellFiled() && tracks.Values <= old(tracks.Values)
        invariant remaining <= p.tracks.Keys
        invariant View() == Ageing(params, p, remaining)
        decreases remaining
      {
        var id := PickAny(remaining);
        AgeingStep(params, p, remaining, id);
        assert id in View().tracks;
        remaining := remaining - {id};
        if id !in used {
          AgeOne(id);
        }
      }
    }

    /** The call has handed out `ids` so far, from the state `start`. */
    ghost predicate Reached(start: Pass, boxes: seq<Rect>, ids: seq<int>, used: set<int>)
      requires |ids| <= |boxes|
      reads this`tracks, this`nextID, tracks.Values
    {
      WellFiled() && IsGreedy(params, start, boxes, ids) && Midway(used) == Assign(start, boxes, ids)
    }

    /** One round of the detection loop. */
    method LabelOne(box: Rect, used: set<int>, ghost start: Pass, ghost boxes: seq<Rect>, ghost ids: seq<int>)
      returns (id: int, used': set<int>)
      requires |ids| < |boxes| && box == boxes[|ids|] && Reached(start, boxes, ids, used)
      modifies this`tracks, this`nextID, tracks.Values
      ensures Reached(start, boxes, ids + [id], used')
      ensures fresh(tracks.Values - old(tracks.Values))
    {
      id, used' := MatchOne(box, used);
      GreedySnoc(params, start, boxes, ids, id);
    }

    /** The detection loop. */
    method Label(detections: array<Detection>) returns (ghost ids: seq<int>, used: set<int>)
      requires WellFiled()
      modifies this`tracks, this`nextID, tracks.Values, detections
      ensures |ids| == detections.Length
      ensures detections[..] == WithIds(old(detections[..]), ids)
      ensures Reached(Start(old(View())), Boxes(old(detections[..])), ids, used)
      ensures fresh(tracks.Values - old(tracks.Values))
    {
      used := {};
      ids := [];
      ghost var start, was := Start(View()), detections[..];
      for di := 0 to detections.Length
        invariant |ids| == di && Reached(start, Boxes(was), ids, used)
        invariant Labelled(detections[..], was, ids)
        invariant fresh(tracks.Values - old(tracks.Values))
      {
        ghost var now := detections[..];
        var id;
        id, used := LabelOne(detections[di].box, used, start, Boxes(was), ids);
        LabelledSnoc(now, was, ids, id);
        detections[di] := detections[di].(trackID := id);
        assert detections[..] == now[di := now[di].(trackID := id)];
        ids := ids + [id];
      }
    }

    /** Label the detections and age the tracks, extending the run by one call. */
    method Call(detections: array<Detection>) returns (ghost ids: seq<int>)
      requires Valid()
      modifies this, tracks.Values, detections
      ensures Valid() && fresh(tracks.Values - old(tracks.Values))
      ensures |ids| == detections.Length
      ensures detections[..] == WithIds(old(detections[..]), ids)
      ensures calls == old(calls) + [CallRecord(Boxes(old(detections[..])), ids)]
    {
      ghost var boxes := Boxes(detections[..]);
      var used;
      ids, used := Label(detections);
      AgeUnclaimed(used);
      RunSnoc(params, calls, boxes, ids);
      calls := calls + [CallRecord(boxes, ids)];
    }

    /** The tracks stand at the detections of the latest call. */
    lemma StandsAt(dets: seq<Detection>, k: nat)
      requires Valid() && calls != [] && |dets| == |calls[|calls| - 1].ids|
      requires forall i :: 0 <= i < |dets| ==> dets[i].trackID == calls[|calls| - 1].ids[i]
      requires forall i :: 0 <= i < |dets| ==> dets[i].box == calls[|calls| - 1].boxes[i]
      requires k < |dets| && (forall j :: k < j < |dets| ==> dets[j].trackID != dets[k].trackID)
      requires dets[k].trackID in tracks
      ensures tracks[dets[k].trackID].lastBBox == dets[k].box
    {
      assert dets[k].trackID in View().tracks;
      var ids := calls[|calls| - 1].ids;
      forall j | k < j < |ids|
        ensures ids[j] != ids[k]
      {
        assert dets[j].trackID != dets[k].trackID;
      }
      StandsAtLastDetection(params, calls, k);
    }

    /** Match labels the detections in place and changes nothing else about them. The new
        call of the run has their boxes and labels, and afterwards each live track
        handed out stands at the last detection that carries its identity. */
    method Match(detections: array<Detection>) returns (ghost ids: seq<int>)
      requires Valid()
      modifies this, tracks.Values, detections
      ensures Valid() && fresh(tracks.Values - old(tracks.Values))
      ensures |ids| == detections.Length
      ensures forall k :: 0 <= k < detections.Length ==> detections[k] == old(detections[k]).(trackID := ids[k])
      ensures |calls| == |old(calls)| + 1 && old(calls) <= calls
      ensures calls[|old(calls)|].ids == ids && |calls[|old(calls)|].boxes| == detections.Length
      ensures forall k :: 0 <= k < detections.Length ==> calls[|old(calls)|].boxes[k] == old(detections[k]).box
      ensures forall k :: 0 <= k < detections.Length && detections[k].trackID in tracks &&
                          (forall j :: k < j < detections.Length ==> detections[j].trackID != detections[k].trackID) ==>
                tracks[detections[k].trackID].lastBBox == detections[k].box
      ensures detections[..] == WithIds(old(detections[..]), ids)
      ensures calls == old(calls) + [CallRecord(Boxes(old(detections[..])), ids)]
    {
      ids := Call(detections);
      forall k | 0 <= k < detections.Length && detections[k].trackID in tracks &&
                 (forall j :: k < j < detections.Length ==> detections[j].trackID != detections[k].trackID)
        ensures tracks[detections[k].trackID].lastBBox == detections[k].box
      {
        StandsAt(detections[..], k);
      }
    }
  }
}
