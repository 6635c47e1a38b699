/** The repository's filters as stages of a chain: the state of a filter is the history
    of what it has seen, and its verdict on a frame is read off the state after it. */
module PipelineSpec {
  import opened Images
  import opened Options
  import opened Bits
  import opened Chains
  import opened Filters
  import opened BlurFilters
  import opened DuplicateRuns
  import opened DuplicateFilters
  import opened TrackHistory
  import opened TrackManagers
  import opened FaceTrackers

  datatype FilterState =
    | NoopState
    | BlurState(blurThreshold: real)
    | DuplicateState(threshold: int, seen: seq<Uint64>)
    | FaceState(minDetections: int, cfg: FaceTrackerConfig, vision: Vision, frames: seq<Image>, calls: seq<Call>)
    | ObjectState(minimum: int)

  /** What a face tracker reports in a given state. */
  ghost function Reported(cfg: FaceTrackerConfig, vision: Vision, frames: seq<Image>, calls: seq<Call>)
    : seq<Detection>
  {
    if !cfg.Complete() then []
    else
      match Expected(Detectings(cfg, vision, frames), calls)
      case None => []
      case Some(dets) => dets
  }

  /** The filter was shown one more image. A face tracker may have passed the faces found
      in it to its track manager, in a call that manager may make. */
  ghost predicate Advances(f: FilterState, x: FilteredFrame, f': FilterState) {
    match f
    case DuplicateState(threshold, seen) => f' == DuplicateState(threshold, seen + [Hash(x.image)])
    case FaceState(min, cfg, vision, frames, calls) =>
      f'.FaceState? && f' == FaceState(min, cfg, vision, frames + [x.image], f'.calls) &&
      calls <= f'.calls && Permitted(cfg, vision, f'.frames, f'.calls)
    case _ => f' == f
  }

  /** The verdict on a frame, read off the state after it. */
  ghost function VerdictOn(f': FilterState, x: FilteredFrame): Option<FilteredFrame> {
    match f'
    case NoopState => Some(x.(score := Exactly(0.0)))
    case BlurState(threshold) =>
      if !Measurable(x.image.bounds) || Below(Measure(x.image), threshold) then None
      else Some(x.(score := Measure(x.image)))
    case DuplicateState(threshold, seen) =>
      if |seen| == 0 || Dropped(Near(threshold), seen, |seen| - 1) then None else Some(x.(score := Exactly(1.0)))
    case FaceState(min, cfg, vision, frames, calls) =>
      if |Reported(cfg, vision, frames, calls)| < min then None else Some(x.(score := Exactly(1.0)))
    case ObjectState(min) =>
      if 0 < min then None else Some(x.(score := Exactly(1.0)))
  }

  ghost function Emitted(after: seq<FilterState>, x: FilteredFrame): Option<FilteredFrame> {
    Output(VerdictOn, after, x)
  }

  ghost predicate Processes(before: seq<FilterState>, x: FilteredFrame, after: seq<FilterState>) {
    Runs(VerdictOn, Advances, before, x, after)
  }

  // ---------- theorems ----------

  /** Filters never touch the image or the metadata. */
  lemma {:induction false} EmitsInput(after: seq<FilterState>, x: FilteredFrame)
    requires Emitted(after, x).Some?
    ensures Emitted(after, x).value.image == x.image && Emitted(after, x).value.meta == x.meta
  {
    if |after| > 0 {
      EmitsInput(after[..|after| - 1], x);
    }
  }

  /** Every filter of an emitted frame saw its image and let it pass. */
  lemma EmittedSeenByAll(before: seq<FilterState>, x: FilteredFrame, after: seq<FilterState>, i: nat)
    requires Processes(before, x, after) && Emitted(after, x).Some? && i < |before|
    ensures exists y: FilteredFrame ::
      y.image == x.image && y.meta == x.meta && Advances(before[i], y, after[i]) && VerdictOn(after[i], y).Some?
  {
    var y := EmittedPassesAll(VerdictOn, Advances, before, x, after, i);
    EmitsInput(after[..i], x);
  }

  /** Nothing leaves a pipeline with an object tracker. */
  lemma ObjectTrackerBlocks(before: seq<FilterState>, x: FilteredFrame, after: seq<FilterState>, i: nat)
    requires Processes(before, x, after) && i < |before| && before[i].ObjectState? && before[i].minimum >= 1
    ensures Emitted(after, x) == None
  {
    if Emitted(after, x).Some? {
      EmittedSeenByAll(before, x, after, i);
    }
  }

  /** What a filter that has seen a frame asks for: nothing, a score of at least the
      threshold, a hash that was kept, enough detections. An object tracker, which never
      detects anything, lets a frame through only if no detection is asked for. */
  ghost predicate Lets(f': FilterState, img: Image) {
    match f'
    case NoopState => true
    case BlurState(threshold) => Measurable(img.bounds) && !Below(Measure(img), threshold)
    case DuplicateState(threshold, seen) =>
      |seen| > 0 && |Passed(Near(threshold), seen)| > |Passed(Near(threshold), seen[..|seen| - 1])|
    case FaceState(min, _, _, _, _) => |ReportOf(f')| >= min
    case ObjectState(min) => min <= 0
  }

  /** The score a filter gives. */
  ghost function ScoreOf(f': FilterState, img: Image): Score {
    match f'
    case NoopState => Exactly(0.0)
    case BlurState(_) => if Measurable(img.bounds) then Measure(img) else NotANumber
    case _ => Exactly(1.0)
  }

  lemma VerdictMeans(f': FilterState, x: FilteredFrame)
    ensures VerdictOn(f', x) == if Lets(f', x.image) then Some(x.(score := ScoreOf(f', x.image))) else None
  {
    if f'.DuplicateState? && |f'.seen| > 0 {
      var n := |f'.seen| - 1;
      assert f'.seen[..n] + [f'.seen[n]] == f'.seen;
      PassedSnoc(Near(f'.threshold), f'.seen[..n], f'.seen[n]);
    }
  }

  /** A frame is emitted exactly if every filter lets it through, with the score of the
      last one. */
  lemma {:induction false} EmittedIffAllLet(after: seq<FilterState>, x: FilteredFrame)
    ensures Emitted(after, x).Some? <==> forall i :: 0 <= i < |after| ==> Lets(after[i], x.image)
    ensures Emitted(after, x).Some? && |after| > 0 ==>
              Emitted(after, x).value.score == ScoreOf(after[|after| - 1], x.image)
  {
    if |after| > 0 {
      var n := |after| - 1;
      EmittedIffAllLet(after[..n], x);
      if Emitted(after[..n], x).Some? {
        EmitsInput(after[..n], x);
        VerdictMeans(after[n], Emitted(after[..n], x).value);
      }
    }
  }

  lemma OnlyStage(f': FilterState, x: FilteredFrame)
    ensures Emitted([f'], x) == VerdictOn(f', x)
  {
    OutputOfOne(VerdictOn, f', x);
  }

  /** Each kind of filter on its own. */
  lemma NoopAlone(x: FilteredFrame)
    ensures Emitted([NoopState], x) == Some(x.(score := Exactly(0.0)))
  {
    OnlyStage(NoopState, x);
  }

  lemma BlurAlone(threshold: real, score: real, x: FilteredFrame)
    requires Measurable(x.image.bounds) && Measure(x.image) == RootOf(score * score)
    requires 0.0 <= score && 0.0 < threshold
    ensures Emitted([BlurState(threshold)], x) ==
            if score < threshold then None else Some(x.(score := RootOf(score * score)))
  {
    OnlyStage(BlurState(threshold), x);
    BelowComparesScores(x.image, score, threshold);
  }

  lemma DuplicateAlone(threshold: int, seen: seq<Uint64>, hash: Uint64, x: FilteredFrame)
    ensures var kept := Passed(Near(threshold), seen);
      Emitted([DuplicateState(threshold, seen + [hash])], x) ==
      if |kept| > 0 && HammingDistance(hash, kept[|kept| - 1]) <= threshold then None
      else Some(x.(score := Exactly(1.0)))
  {
    OnlyStage(DuplicateState(threshold, seen + [hash]), x);
    assert (seen + [hash])[..|seen|] == seen;
  }

  lemma TrackersAlone(f': FilterState, minimum: int, x: FilteredFrame)
    requires f'.FaceState?
    ensures Emitted([f'], x) ==
            if |ReportOf(f')| >= f'.minDetections then Some(x.(score := Exactly(1.0))) else None
    ensures 1 <= minimum ==> Emitted([ObjectState(minimum)], x) == None
  {
    OnlyStage(f', x);
    OnlyStage(ObjectState(minimum), x);
  }

  /** What the search over the filters finds: the first non-empty report. */
  ghost function Found(fs: seq<FilterState>): seq<Detection> {
    if |fs| == 0 then []
    else
      var dets := ReportOf(fs[0]);
      if |dets| > 0 then dets else Found(fs[1..])
  }

  /** Only face trackers have anything to report. */
  ghost function ReportOf(f: FilterState): seq<Detection> {
    match f
    case FaceState(_, cfg, vision, frames, calls) => Reported(cfg, vision, frames, calls)
    case _ => []
  }

  lemma {:induction false} FoundIsFirst(fs: seq<FilterState>, i: nat)
    requires i < |fs| && |ReportOf(fs[i])| > 0
    requires forall j :: 0 <= j < i ==> |ReportOf(fs[j])| == 0
    ensures Found(fs) == ReportOf(fs[i])
  {
    if i > 0 {
      FoundIsFirst(fs[1..], i - 1);
    }
  }

  /** An emitted frame carries what its first face tracker reports after seeing it,
      and that is never empty. */
  lemma EmittedCarriesDetections(before: seq<FilterState>, x: FilteredFrame, after: seq<FilterState>, i: nat)
    requires Processes(before, x, after) && Emitted(after, x).Some?
    requires i < |before| && before[i].FaceState? && before[i].minDetections >= 1
    requires forall j :: 0 <= j < i ==> !before[j].FaceState?
    ensures after[i].FaceState? && after[i].frames == before[i].frames + [x.image]
    ensures Found(after) == ReportOf(after[i]) && |Found(after)| >= before[i].minDetections
    ensures forall d :: d in Found(after) ==> d.trackID in LiveIn(after[i])
  {
    EmittedSeenByAll(before, x, after, i);
    forall j | 0 <= j < i
      ensures |ReportOf(after[j])| == 0
    {
      EmittedSeenByAll(before, x, after, j);
    }
    FoundIsFirst(after, i);
    ReportedIsLive(after[i]);
  }

  /** The tracks a face tracker holds. */
  ghost function LiveIn(f: FilterState): set<int>
    requires f.FaceState?
  {
    After(f.cfg.TrackParams(), f.calls).tracks.Keys
  }

  lemma ReportedIsLive(f: FilterState)
    requires f.FaceState? && Permitted(f.cfg, f.vision, f.frames, f.calls)
    ensures forall d :: d in ReportOf(f) ==> d.trackID in LiveIn(f)
  {
    forall d | d in ReportOf(f)
      ensures d.trackID in LiveIn(f)
    {
      var k :| 0 <= k < |ReportOf(f)| && ReportOf(f)[k] == d;
      ExpectedIdentitiesLive(f.cfg, f.vision, f.frames, f.calls, k);
    }
  }

  // ---------- whole streams ----------

  /** The states a pipeline goes through on a stream of frames. */
  ghost predicate Stream(start: seq<FilterState>, xs: seq<FilteredFrame>, states: seq<seq<FilterState>>) {
    |states| == |xs| + 1 && states[0] == start &&
    forall k :: 0 <= k < |xs| ==> Processes(states[k], xs[k], states[k + 1])
  }

  lemma StreamSnoc(start: seq<FilterState>, xs: seq<FilteredFrame>, states: seq<seq<FilterState>>,
                   x: FilteredFrame, after: seq<FilterState>)
    requires Stream(start, xs, states) && Processes(states[|xs|], x, after)
    ensures Stream(start, xs + [x], states + [after])
  {
  }

  /** The same filter at another time. */
  ghost predicate SameFilter(f: FilterState, g: FilterState) {
    match f
    case FaceState(min, cfg, vision, _, _) =>
      g.FaceState? && g.minDetections == min && g.cfg == cfg && g.vision == vision
    case DuplicateState(threshold, _) => g.DuplicateState? && g.threshold == threshold
    case _ => g == f
  }

  lemma AdvancingKeepsFilter(f: FilterState, x: FilteredFrame, f': FilterState)
    requires Advances(f, x, f')
    ensures SameFilter(f, f')
  {
  }

  lemma {:induction false} ProcessingKeepsFilters(before: seq<FilterState>, x: FilteredFrame,
                                                  after: seq<FilterState>, i: nat)
    requires Processes(before, x, after) && i < |before|
    ensures |after| == |before| && SameFilter(before[i], after[i])
  {
    var n := |before| - 1;
    if i < n {
      ProcessingKeepsFilters(before[..n], x, after[..n], i);
    } else if Emitted(after[..n], x).Some? {
      AdvancingKeepsFilter(before[n], Emitted(after[..n], x).value, after[n]);
    }
  }

  lemma {:induction false} StreamKeepsFilters(start: seq<FilterState>, xs: seq<FilteredFrame>,
                                              states: seq<seq<FilterState>>, k: nat, i: nat)
    requires Stream(start, xs, states) && k <= |xs| && i < |start|
    ensures |states[k]| == |start| && SameFilter(start[i], states[k][i])
  {
    if k > 0 {
      StreamKeepsFilters(start, xs, states, k - 1, i);
      ProcessingKeepsFilters(states[k - 1], xs[k - 1], states[k], i);
    }
  }
}
