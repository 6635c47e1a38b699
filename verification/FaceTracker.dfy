/** The face tracker: a motion gate and frame subsampling in front of the classifier,
    and a cache of the last detections behind it.

    The specification speaks only about the sequence of frames seen so far: which of
    them are detection frames, and what the track manager makes of their faces.
 */
module FaceTrackers {
  import opened Rectangles
  import opened Images
  import opened MotionGate
  import opened Options
  import opened Tracking
  import opened TrackHistory
  import opened TrackManagers

  datatype FaceTrackerConfig = FaceTrackerConfig(
    minConfidence: real, minSize: int, maxSize: int, detectEvery: int, trackMaxLost: int, iouThreshold: real)
  {
    /** Positive settings are kept, each other one is replaced by its default. */
    function WithDefaults(): (c: FaceTrackerConfig)
      ensures c.Complete()
      ensures c == this <==> Complete()
      ensures c.minConfidence == minConfidence <==> 0.0 < minConfidence
      ensures c.minSize == minSize <==> 0 < minSize
      ensures c.maxSize == maxSize <==> 0 < maxSize
      ensures c.detectEvery == detectEvery <==> 0 < detectEvery
      ensures c.trackMaxLost == trackMaxLost <==> 0 < trackMaxLost
      ensures c.iouThreshold == iouThreshold <==> 0.0 < iouThreshold
      ensures c.minConfidence == minConfidence || c.minConfidence == DEFAULTS.minConfidence
      ensures c.minSize == minSize || c.minSize == DEFAULTS.minSize
      ensures c.maxSize == maxSize || c.maxSize == DEFAULTS.maxSize
      ensures c.detectEvery == detectEvery || c.detectEvery == DEFAULTS.detectEvery
      ensures c.trackMaxLost == trackMaxLost || c.trackMaxLost == DEFAULTS.trackMaxLost
      ensures c.iouThreshold == iouThreshold || c.iouThreshold == DEFAULTS.iouThreshold
    {
      FaceTrackerConfig(
        if minConfidence <= 0.0 then DEFAULTS.minConfidence else minConfidence,
        if minSize <= 0 then DEFAULTS.minSize else minSize,
        if maxSize <= 0 then DEFAULTS.maxSize else maxSize,
        if detectEvery <= 0 then DEFAULTS.detectEvery else detectEvery,
        if trackMaxLost <= 0 then DEFAULTS.trackMaxLost else trackMaxLost,
        if iouThreshold <= 0.0 then DEFAULTS.iouThreshold else iouThreshold)
    }

    predicate Complete() {
      minConfidence > 0.0 && minSize > 0 && maxSize > 0 && detectEvery > 0 && trackMaxLost > 0 && iouThreshold > 0.0
    }

    function TrackParams(): (p: Params)
      ensures p.threshold == iouThreshold && p.maxLost == trackMaxLost
    {
      Params(iouThreshold, trackMaxLost)
    }
  }

  const DEFAULTS := FaceTrackerConfig(0.5, 80, 1000, 4, 5, 0.3)

  datatype Face = Face(box: Rect, quality: real)

  /** The foreign code: gray conversion and the cascade classifier, the latter with
      its results scaled back to frame coordinates. */
  datatype Vision = Vision(gray: Image -> GrayImage, cascade: Image -> seq<Face>)

  // ---------- the history specification ----------

  /** The faces worth tracking, in classifier order. */
  function Confident(minConfidence: real, faces: seq<Face>): seq<Detection> {
    if faces == [] then []
    else
      var face := faces[|faces| - 1];
      Confident(minConfidence, faces[..|faces| - 1]) +
      if face.quality > minConfidence then [Detection("face", face.box, face.quality, 0)] else []
  }

  /** The positions of the faces whose quality exceeds the minimum, in order. */
  ghost predicate Selects(kept: seq<nat>, faces: seq<Face>, minConfidence: real) {
    && (forall a, b :: 0 <= a < b < |kept| ==> kept[a] < kept[b])
    && (forall a :: 0 <= a < |kept| ==> kept[a] < |faces| && faces[kept[a]].quality > minConfidence)
    && (forall i: nat :: i < |faces| && faces[i].quality > minConfidence ==> i in kept)
  }

  /** The detections are the selected faces: kind, box and confidence, one by one. */
  ghost predicate Shows(dets: seq<Detection>, faces: seq<Face>, kept: seq<nat>) {
    |dets| == |kept| && forall a :: 0 <= a < |kept| ==>
      && kept[a] < |faces| && dets[a].kind == "face"
      && dets[a].box == faces[kept[a]].box && dets[a].confidence == faces[kept[a]].quality
  }

  /** One more face. */
  lemma SelectsSnoc(kept: seq<nat>, faces: seq<Face>, face: Face, minConfidence: real)
    requires Selects(kept, faces, minConfidence)
    ensures face.quality > minConfidence ==> Selects(kept + [|faces|], faces + [face], minConfidence)
    ensures face.quality <= minConfidence ==> Selects(kept, faces + [face], minConfidence)
  {
    var more := kept + [|faces|];
    assert more[|kept|] == |faces|;
    forall i: nat | i < |faces| && faces[i].quality > minConfidence
      ensures i in kept && i in more
    {
    }
  }

  lemma ShowsSnoc(dets: seq<Detection>, kept: seq<nat>, faces: seq<Face>, face: Face)
    requires Shows(dets, faces, kept)
    ensures Shows(dets, faces + [face], kept)
    ensures Shows(dets + [Detection("face", face.box, face.quality, 0)], faces + [face], kept + [|faces|])
  {
  }

  lemma {:induction false} ConfidentSelects(minConfidence: real, faces: seq<Face>) returns (kept: seq<nat>)
    ensures Selects(kept, faces, minConfidence) && Shows(Confident(minConfidence, faces), faces, kept)
  {
    kept := [];
    if faces != [] {
      var n := |faces| - 1;
      kept := ConfidentSelects(minConfidence, faces[..n]);
      SelectsSnoc(kept, faces[..n], faces[n], minConfidence);
      ShowsSnoc(Confident(minConfidence, faces[..n]), kept, faces[..n], faces[n]);
      assert faces[..n] + [faces[n]] == faces;
      if faces[n].quality > minConfidence {
        kept := kept + [n];
      }
    }
  }

  /** The report shows exactly the faces whose quality exceeds the minimum, in order. */
  ghost predicate Reports(dets: seq<Detection>, faces: seq<Face>, minConfidence: real) {
    exists kept :: Selects(kept, faces, minConfidence) && Shows(dets, faces, kept)
  }

  /** What a report means for each detection and each face. */
  lemma ReportsExactly(dets: seq<Detection>, faces: seq<Face>, minConfidence: real)
    requires Reports(dets, faces, minConfidence)
    ensures forall d :: d in dets ==> d.confidence > minConfidence
    ensures forall f :: f in faces && f.quality > minConfidence ==>
              exists d :: d in dets && d.kind == "face" && d.box == f.box && d.confidence == f.quality
  {
    var kept :| Selects(kept, faces, minConfidence) && Shows(dets, faces, kept);
    forall f | f in faces && f.quality > minConfidence
      ensures exists d :: d in dets && d.kind == "face" && d.box == f.box && d.confidence == f.quality
    {
      var i: nat :| i < |faces| && faces[i] == f;
      var a :| 0 <= a < |kept| && kept[a] == i;
      assert dets[a] in dets;
    }
  }

  /** One run of the classifier: the number of the frame, counted from 1, and the faces
      that reach the track manager. */
  datatype Detecting = Detecting(frame: nat, found: seq<Detection>)

  /** The classifier runs on the frame that follows `frames`: the frame number is a
      multiple of the sampling interval, and either something moved since the frame
      before or there is no earlier detection to reuse. */
  ghost predicate Due(cfg: FaceTrackerConfig, vision: Vision, frames: seq<Image>, frame: Image, earlier: seq<Detecting>)
    requires cfg.Complete()
  {
    var n := |frames|;
    (n + 1) % cfg.detectEvery == 0 &&
    (earlier == [] || n == 0 || Changed(vision.gray(frames[n - 1]), vision.gray(frame)))
  }

  /** All runs of the classifier on the given frames. */
  ghost function Detectings(cfg: FaceTrackerConfig, vision: Vision, frames: seq<Image>): seq<Detecting>
    requires cfg.Complete()
  {
    if frames == [] then []
    else
      var n := |frames|;
      var init, frame := frames[..n - 1], frames[n - 1];
      var earlier := Detectings(cfg, vision, init);
      if Due(cfg, vision, init, frame, earlier)
      then earlier + [Detecting(n, Confident(cfg.minConfidence, vision.cascade(frame)))]
      else earlier
  }

  /** The calls pass the faces found, run by run, to the track manager. */
  ghost predicate Tracks(runs: seq<Detecting>, calls: seq<Call>) {
    |calls| == |runs| &&
    forall i :: 0 <= i < |runs| ==> calls[i].boxes == Boxes(runs[i].found)
  }

  /** The faces of the last run with their identities; nothing before the first run. */
  ghost function Expected(runs: seq<Detecting>, calls: seq<Call>): Option<seq<Detection>> {
    var n := |runs|;
    if n == 0 || |calls| != n || |calls[n - 1].ids| != |runs[n - 1].found| then None
    else Some(WithIds(runs[n - 1].found, calls[n - 1].ids))
  }

  // ---------- consequences of the specification ----------

  lemma NextFrame(cfg: FaceTrackerConfig, vision: Vision, frames: seq<Image>, frame: Image)
    requires cfg.Complete()
    ensures var earlier := Detectings(cfg, vision, frames);
      Detectings(cfg, vision, frames + [frame]) ==
      if Due(cfg, vision, frames, frame, earlier)
      then earlier + [Detecting(|frames| + 1, Confident(cfg.minConfidence, vision.cascade(frame)))]
      else earlier
  {
    assert (frames + [frame])[..|frames|] == frames;
  }

  lemma {:induction false} DetectingAt(cfg: FaceTrackerConfig, vision: Vision, frames: seq<Image>, i: nat)
    requires cfg.Complete() && i < |Detectings(cfg, vision, frames)|
    ensures var run := Detectings(cfg, vision, frames)[i];
      1 <= run.frame <= |frames| && run.frame % cfg.detectEvery == 0
  {
    var init := frames[..|frames| - 1];
    if i < |Detectings(cfg, vision, init)| {
      DetectingAt(cfg, vision, init, i);
    }
  }

  lemma {:induction false} DetectingsAscend(cfg: FaceTrackerConfig, vision: Vision, frames: seq<Image>, i: nat, j: nat)
    requires cfg.Complete() && i < j < |Detectings(cfg, vision, frames)|
    ensures Detectings(cfg, vision, frames)[i].frame < Detectings(cfg, vision, frames)[j].frame
  {
    var init := frames[..|frames| - 1];
    if j < |Detectings(cfg, vision, init)| {
      DetectingsAscend(cfg, vision, init, i, j);
    } else {
      DetectingAt(cfg, vision, init, i);
    }
  }

  /** The frames the classifier runs on, and the faces it hands on there. */
  lemma {:induction false} DetectingFound(cfg: FaceTrackerConfig, vision: Vision, frames: seq<Image>, i: nat)
    requires cfg.Complete() && i < |Detectings(cfg, vision, frames)|
    ensures var run := Detectings(cfg, vision, frames)[i];
      1 <= run.frame <= |frames| && run.found == Confident(cfg.minConfidence, vision.cascade(frames[run.frame - 1]))
  {
    var init := frames[..|frames| - 1];
    if i < |Detectings(cfg, vision, init)| {
      DetectingFound(cfg, vision, init, i);
    }
  }

  ghost predicate RunsOn(cfg: FaceTrackerConfig, vision: Vision, frames: seq<Image>, n: nat)
    requires cfg.Complete()
  {
    exists i :: 0 <= i < |Detectings(cfg, vision, frames)| && Detectings(cfg, vision, frames)[i].frame == n
  }

  lemma RunsOnLast(cfg: FaceTrackerConfig, vision: Vision, frames: seq<Image>, n: nat)
    requires cfg.Complete() && frames != []
    ensures var init, frame := frames[..|frames| - 1], frames[|frames| - 1];
      RunsOn(cfg, vision, frames, n) <==>
      RunsOn(cfg, vision, init, n) ||
      (n == |frames| && Due(cfg, vision, init, frame, Detectings(cfg, vision, init)))
  {
    var init, frame := frames[..|frames| - 1], frames[|frames| - 1];
    var earlier, runs := Detectings(cfg, vision, init), Detectings(cfg, vision, frames);
    assert forall i :: 0 <= i < |earlier| ==> runs[i] == earlier[i];
    if n == |frames| && Due(cfg, vision, init, frame, earlier) {
      assert runs[|earlier|].frame == n;
    }
  }

  lemma RunsInside(cfg: FaceTrackerConfig, vision: Vision, frames: seq<Image>, n: nat)
    requires cfg.Complete() && RunsOn(cfg, vision, frames, n)
    ensures 1 <= n <= |frames|
  {
    var i :| 0 <= i < |Detectings(cfg, vision, frames)| && Detectings(cfg, vision, frames)[i].frame == n;
    DetectingAt(cfg, vision, frames, i);
  }

  /** Exactly when the classifier runs: on the multiples of the sampling interval where the
      frame differs from the one before it or nothing was detected so far. */
  lemma {:induction false} RunsExactlyWhenDue(cfg: FaceTrackerConfig, vision: Vision, frames: seq<Image>, n: nat)
    requires cfg.Complete() && 1 <= n <= |frames|
    ensures RunsOn(cfg, vision, frames, n) <==>
            n % cfg.detectEvery == 0 &&
            ((forall m: nat :: m < n ==> !RunsOn(cfg, vision, frames, m)) ||
             (n >= 2 && Changed(vision.gray(frames[n - 2]), vision.gray(frames[n - 1]))))
  {
    var init := frames[..|frames| - 1];
    forall m: nat | m < |frames|
      ensures RunsOn(cfg, vision, frames, m) <==> RunsOn(cfg, vision, init, m)
    {
      RunsOnLast(cfg, vision, frames, m);
    }
    if n < |frames| {
      RunsExactlyWhenDue(cfg, vision, init, n);
    } else {
      RunsOnLast(cfg, vision, frames, n);
      NoneSoFar(cfg, vision, init);
      if RunsOn(cfg, vision, init, n) {
        RunsInside(cfg, vision, init, n);
      }
    }
  }

  lemma NoneSoFar(cfg: FaceTrackerConfig, vision: Vision, frames: seq<Image>)
    requires cfg.Complete()
    ensures Detectings(cfg, vision, frames) == [] <==>
            forall m: nat :: m <= |frames| ==> !RunsOn(cfg, vision, frames, m)
  {
    if Detectings(cfg, vision, frames) != [] {
      DetectingAt(cfg, vision, frames, 0);
      assert RunsOn(cfg, vision, frames, Detectings(cfg, vision, frames)[0].frame);
    }
  }

  lemma MultiplesApart(a: nat, b: nat, d: nat)
    requires d > 0 && a < b && a % d == 0 && b % d == 0
    ensures b - a >= d
  {
    var p, q := a / d, b / d;
    assert a == p * d && b == q * d;
    if q <= p {
      ProductMonotone(q, p, d);
    } else {
      ProductMonotone(1, q - p, d);
      assert (q - p) * d == q * d - p * d;
    }
  }

  /** Classifier runs are at least detectEvery frames apart. */
  lemma DetectionsAreSpaced(cfg: FaceTrackerConfig, vision: Vision, frames: seq<Image>, i: nat, j: nat)
    requires cfg.Complete() && i < j < |Detectings(cfg, vision, frames)|
    ensures var runs := Detectings(cfg, vision, frames);
      runs[j].frame - runs[i].frame >= cfg.detectEvery
  {
    var runs := Detectings(cfg, vision, frames);
    DetectingAt(cfg, vision, frames, i);
    DetectingAt(cfg, vision, frames, j);
    DetectingsAscend(cfg, vision, frames, i, j);
    MultiplesApart(runs[i].frame, runs[j].frame, cfg.detectEvery);
  }

  /** Each of the frames `still` shows no motion against the frame before it. */
  ghost predicate IsStill(vision: Vision, seen: seq<Image>, still: seq<Image>) {
    still == [] ||
    var n := |still| - 1;
    var before := seen + still[..n];
    before != [] && IsStill(vision, seen, still[..n]) &&
    !Changed(vision.gray(before[|before| - 1]), vision.gray(still[n]))
  }

  /** A static stretch after a first detection triggers no classifier run. */
  lemma {:induction false} NoRunWhileStill(cfg: FaceTrackerConfig, vision: Vision, seen: seq<Image>, still: seq<Image>)
    requires cfg.Complete() && Detectings(cfg, vision, seen) != []
    requires IsStill(vision, seen, still)
    ensures Detectings(cfg, vision, seen + still) == Detectings(cfg, vision, seen)
  {
    if still == [] {
      assert seen + still == seen;
    } else {
      var n := |still| - 1;
      NoRunWhileStill(cfg, vision, seen, still[..n]);
      NextFrame(cfg, vision, seen + still[..n], still[n]);
      assert seen + still == seen + still[..n] + [still[n]];
    }
  }

  /** A history a tracker can have: the faces found reach the track manager run by run,
      and the track manager does what it may do. */
  ghost predicate Permitted(cfg: FaceTrackerConfig, vision: Vision, frames: seq<Image>, calls: seq<Call>) {
    cfg.Complete() && Tracks(Detectings(cfg, vision, frames), calls) && IsRun(cfg.TrackParams(), calls)
  }

  /** The call was about the boxes of the detections and gave them their identities. */
  ghost predicate Labels(dets: seq<Detection>, call: Call) {
    |call.ids| == |dets| &&
    forall a :: 0 <= a < |dets| ==> call.boxes[a] == dets[a].box && call.ids[a] == dets[a].trackID
  }

  lemma LabellingKeepsFaces(dets: seq<Detection>, ids: seq<int>, faces: seq<Face>, kept: seq<nat>)
    requires |ids| == |dets| && Shows(dets, faces, kept)
    ensures Shows(WithIds(dets, ids), faces, kept)
  {
  }

  lemma LabellingLabels(dets: seq<Detection>, call: Call)
    requires |call.ids| == |dets| && call.boxes == Boxes(dets)
    ensures Labels(WithIds(dets, call.ids), call)
  {
  }

  lemma ConfidentIsReported(minConfidence: real, faces: seq<Face>, ids: seq<int>)
    requires |ids| == |Confident(minConfidence, faces)|
    ensures Reports(WithIds(Confident(minConfidence, faces), ids), faces, minConfidence)
  {
    var kept := ConfidentSelects(minConfidence, faces);
    LabellingKeepsFaces(Confident(minConfidence, faces), ids, faces, kept);
  }

  /** The current result shows the faces of the latest detection frame, labelled with the
      identities of the latest call, which was about their boxes. */
  lemma LatestReport(cfg: FaceTrackerConfig, vision: Vision, frames: seq<Image>, calls: seq<Call>)
    returns (run: Detecting, dets: seq<Detection>)
    requires cfg.Complete() && Tracks(Detectings(cfg, vision, frames), calls)
    requires Detectings(cfg, vision, frames) != []
    ensures var runs := Detectings(cfg, vision, frames); run == runs[|runs| - 1] && Expected(runs, calls) == Some(dets)
    ensures 1 <= run.frame <= |frames| && Reports(dets, vision.cascade(frames[run.frame - 1]), cfg.minConfidence)
    ensures Labels(dets, calls[|calls| - 1])
  {
    var runs := Detectings(cfg, vision, frames);
    var call := calls[|calls| - 1];
    run := runs[|runs| - 1];
    dets := WithIds(run.found, call.ids);
    DetectingFound(cfg, vision, frames, |runs| - 1);
    ConfidentIsReported(cfg.minConfidence, vision.cascade(frames[run.frame - 1]), call.ids);
    LabellingLabels(run.found, call);
  }

  /** During a static stretch after a first detection the result stays the same, and so
      does the track manager: no call is made, so no track ages. */
  lemma StaticStretch(cfg: FaceTrackerConfig, vision: Vision, seen: seq<Image>, still: seq<Image>,
                      calls: seq<Call>, calls': seq<Call>)
    requires Permitted(cfg, vision, seen, calls) && Permitted(cfg, vision, seen + still, calls') && calls <= calls'
    requires Detectings(cfg, vision, seen) != [] && IsStill(vision, seen, still)
    ensures calls' == calls
    ensures Expected(Detectings(cfg, vision, seen + still), calls') == Expected(Detectings(cfg, vision, seen), calls)
  {
    NoRunWhileStill(cfg, vision, seen, still);
  }

  /** Every identity reported belongs to a track the manager holds at that moment. */
  lemma ExpectedIdentitiesLive(cfg: FaceTrackerConfig, vision: Vision, frames: seq<Image>, calls: seq<Call>, k: nat)
    requires Permitted(cfg, vision, frames, calls)
    requires var dets := Expected(Detectings(cfg, vision, frames), calls); dets.Some? && k < |dets.value|
    ensures Expected(Detectings(cfg, vision, frames), calls).value[k].trackID in After(cfg.TrackParams(), calls).tracks
  {
    LifetimeWindow(cfg.TrackParams(), calls);
    var id := calls[|calls| - 1].ids[k];
    assert id in IdSet(calls[|calls| - 1].ids);
    assert id in Recent(calls, cfg.trackMaxLost);
  }

  /** The cached fields of a tracker are what the history prescribes. */
  ghost predicate Caches(cfg: FaceTrackerConfig, vision: Vision, frames: seq<Image>, calls: seq<Call>,
                         frameCount: int, lastGray: Option<GrayImage>, lastDetections: Option<seq<Detection>>)
    requires cfg.Complete()
  {
    var runs := Detectings(cfg, vision, frames);
    && frameCount == |frames|
    && lastGray == (if frames == [] then None else Some(vision.gray(frames[|frames| - 1])))
    && Tracks(runs, calls)
    && lastDetections == Expected(runs, calls)
  }

  lemma ReuseStep(cfg: FaceTrackerConfig, vision: Vision, frames: seq<Image>, calls: seq<Call>,
                  lastGray: Option<GrayImage>, lastDetections: Option<seq<Detection>>, frame: Image)
    requires cfg.Complete() && Caches(cfg, vision, frames, calls, |frames|, lastGray, lastDetections)
    requires !Due(cfg, vision, frames, frame, Detectings(cfg, vision, frames))
    ensures Caches(cfg, vision, frames + [frame], calls, |frames| + 1, Some(vision.gray(frame)), lastDetections)
  {
    NextFrame(cfg, vision, frames, frame);
  }

  lemma DetectStep(cfg: FaceTrackerConfig, vision: Vision, frames: seq<Image>, calls: seq<Call>,
                   lastGray: Option<GrayImage>, lastDetections: Option<seq<Detection>>, frame: Image, ids: seq<int>)
    requires cfg.Complete() && Caches(cfg, vision, frames, calls, |frames|, lastGray, lastDetections)
    requires Due(cfg, vision, frames, frame, Detectings(cfg, vision, frames))
    requires |ids| == |Confident(cfg.minConfidence, vision.cascade(frame))|
    ensures var found := Confident(cfg.minConfidence, vision.cascade(frame));
      Caches(cfg, vision, frames + [frame], calls + [CallRecord(Boxes(found), ids)], |frames| + 1,
             Some(vision.gray(frame)), Some(WithIds(found, ids)))
  {
    NextFrame(cfg, vision, frames, frame);
  }

  // ---------- the tracker object ----------

  class FaceTracker {
    const cfg: FaceTrackerConfig
    const vision: Vision
    const trackMgr: TrackManager
    var lastGray: Option<GrayImage>
    var frameCount: int
    var lastDetections: Option<seq<Detection>>
    ghost var frames: seq<Image>

    constructor (config: FaceTrackerConfig, vision: Vision)
      ensures Valid() && fresh(Repr())
      ensures frames == [] && trackMgr.calls == [] && this.vision == vision && cfg == config.WithDefaults()
      ensures trackMgr.params.threshold == cfg.iouThreshold && trackMgr.params.maxLost == cfg.trackMaxLost
    {
      cfg := config.WithDefaults();
      this.vision := vision;
      trackMgr := new TrackManager(config.WithDefaults().iouThreshold, config.WithDefaults().trackMaxLost);
      lastGray := None;
      frameCount := 0;
      lastDetections := None;
      frames := [];
    }

    ghost function Repr(): set<object>
      reads this, trackMgr
    {
      {this, trackMgr} + trackMgr.tracks.Values
    }

    /** The fields are exactly what the history of frames prescribes. */
    ghost predicate Valid()
      reads this, trackMgr, trackMgr.tracks.Values
    {
      && cfg.Complete()
      && trackMgr.Valid() && trackMgr.params == cfg.TrackParams()
      && Caches(cfg, vision, frames, trackMgr.calls, frameCount, lastGray, lastDetections)
    }

    /** Every identity the tracker reports belongs to a track it still holds. */
    lemma ReportedIdentitiesLive(k: nat)
      requires Valid() && lastDetections.Some? && k < |lastDetections.value|
      ensures lastDetections.value[k].trackID in trackMgr.tracks
    {
      ExpectedIdentitiesLive(cfg, vision, frames, trackMgr.calls, k);
      assert lastDetections.value[k].trackID in trackMgr.View().tracks;
    }

    /** What the tracker shows at any moment. */
    lemma Showing()
      requires Valid()
      ensures lastDetections.Some? <==> Detectings(cfg, vision, frames) != []
      ensures lastDetections.Some? ==> forall d :: d in lastDetections.value ==> d.confidence > cfg.minConfidence
    {
      if Detectings(cfg, vision, frames) != [] {
        var run, dets := LatestReport(cfg, vision, frames, trackMgr.calls);
        ReportsExactly(dets, vision.cascade(frames[run.frame - 1]), cfg.minConfidence);
      }
    }

    method Filter(faces: seq<Face>) returns (dets: seq<Detection>)
      ensures dets == Confident(cfg.minConfidence, faces)
    {
      dets := [];
      for i := 0 to |faces|
        invariant dets == Confident(cfg.minConfidence, faces[..i])
      {
        assert faces[..i + 1][..i] == faces[..i];
        if faces[i].quality > cfg.minConfidence {
          dets := dets + [Detection("face", faces[i].box, faces[i].quality, 0)];
        }
      }
      assert faces[..|faces|] == faces;
    }

    /** The motion gate and the subsampling. */
    method Gate(frame: Image) returns (due: bool)
      requires Valid()
      ensures due == Due(cfg, vision, frames, frame, Detectings(cfg, vision, frames))
    {
      var gray := vision.gray(frame);
      if lastGray.Some? {
        var moved := FrameChanged(lastGray.value, gray);
        if !moved && lastDetections.Some? {
          return false;
        }
      }
      return (frameCount + 1) % cfg.detectEvery == 0;
    }

    /** The rest of `Track` once the gate lets the frame through. */
    method Detect(frame: Image) returns (dets: seq<Detection>, ghost ids: seq<int>)
      requires trackMgr.Valid()
      modifies trackMgr, trackMgr.tracks.Values
      ensures trackMgr.Valid() && fresh(trackMgr.tracks.Values - old(trackMgr.tracks.Values))
      ensures var found := Confident(cfg.minConfidence, vision.cascade(frame));
        && |ids| == |found| && dets == WithIds(found, ids)
        && trackMgr.calls == old(trackMgr.calls) + [CallRecord(Boxes(found), ids)]
    {
      var found := Filter(vision.cascade(frame));
      var buffer := new Detection[|found|](i requires 0 <= i < |found| => found[i]);
      assert buffer[..] == found;
      ids := trackMgr.Match(buffer);
      dets := buffer[..];
    }

    /** The bookkeeping of one frame; the track manager is not concerned. */
    method Remember(frame: Image, dets: Option<seq<Detection>>)
      requires trackMgr.Valid()
      modifies this
      ensures trackMgr.Valid() && Repr() == old(Repr())
      ensures frameCount == old(frameCount) + 1 && lastGray == Some(vision.gray(frame))
      ensures lastDetections == dets && frames == old(frames) + [frame]
    {
      frameCount := frameCount + 1;
      lastGray := Some(vision.gray(frame));
      lastDetections := dets;
      frames := frames + [frame];
    }

    /** A frame the gate holds back. */
    method Reuse(frame: Image)
      requires Valid() && !Due(cfg, vision, frames, frame, Detectings(cfg, vision, frames))
      modifies this
      ensures Valid() && Repr() == old(Repr())
      ensures frames == old(frames) + [frame] && lastDetections == old(lastDetections)
    {
      ReuseStep(cfg, vision, frames, trackMgr.calls, lastGray, lastDetections, frame);
      Remember(frame, lastDetections);
    }

    /** A frame the classifier runs on. */
    method Refresh(frame: Image)
      requires Valid() && Due(cfg, vision, frames, frame, Detectings(cfg, vision, frames))
      modifies Repr()
      ensures Valid() && fresh(Repr() - old(Repr()))
      ensures frames == old(frames) + [frame] && old(trackMgr.calls) <= trackMgr.calls
      ensures |trackMgr.calls| == |old(trackMgr.calls)| + 1
    {
      var dets;
      ghost var ids;
      dets, ids := Detect(frame);
      DetectStep(cfg, vision, frames, old(trackMgr.calls), lastGray, lastDetections, frame, ids);
      Remember(frame, Some(dets));
    }

    /** One frame in, the current detections out. `Valid` before and after makes this
        a refinement of the history specification. */
    method Track(frame: Image) returns (dets: Option<seq<Detection>>)
      requires Valid()
      modifies Repr()
      ensures Valid() && fresh(Repr() - old(Repr()))
      ensures frames == old(frames) + [frame] && old(trackMgr.calls) <= trackMgr.calls
      ensures dets == lastDetections
      ensures old(!Due(cfg, vision, frames, frame, Detectings(cfg, vision, frames))) ==>
                dets == old(lastDetections) && trackMgr.calls == old(trackMgr.calls) &&
                trackMgr.View() == old(trackMgr.View())
      ensures old(Due(cfg, vision, frames, frame, Detectings(cfg, vision, frames))) ==>
                dets.Some? && Reports(dets.value, vision.cascade(frame), cfg.minConfidence) &&
                |trackMgr.calls| == |old(trackMgr.calls)| + 1 &&
                Labels(dets.value, trackMgr.calls[|old(trackMgr.calls)|])
      ensures dets.Some? ==> forall d :: d in dets.value ==> d.confidence > cfg.minConfidence
    {
      var due := Gate(frame);
      if due {
        NextFrame(cfg, vision, frames, frame);
        Refresh(frame);
        ghost var run, dets' := LatestReport(cfg, vision, frames, trackMgr.calls);
      } else {
        Reuse(frame);
      }
      Showing();
      return lastDetections;
    }
  }
}
