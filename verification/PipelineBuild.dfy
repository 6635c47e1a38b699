/** Pipelines as the stream manager builds them from configuration, and what holds for
    them over whole streams. */
module PipelineBuild {
  import opened Options
  import opened Filters
  import opened FaceTrackers
  import opened PipelineSpec

  /** A parameter value as the configuration parser types it. */
  datatype Value = Int(n: int) | Float(x: real) | Text(s: string) | Other

  datatype FilterSpec = FilterSpec(kind: string, params: map<string, Value>)

  function FloatParam(params: map<string, Value>, key: string, default: real): real {
    if key in params && params[key].Float? then params[key].x else default
  }

  function IntParam(params: map<string, Value>, key: string, default: int): int {
    if key in params && params[key].Int? then params[key].n else default
  }

  function TextParam(params: map<string, Value>, key: string, default: string): string {
    if key in params && params[key].Text? then params[key].s else default
  }

  /** The settings as written; what is missing is zero. */
  function FaceParams(params: map<string, Value>): FaceTrackerConfig {
    FaceTrackerConfig(
      FloatParam(params, "min_confidence", 0.0),
      IntParam(params, "min_size", 0),
      IntParam(params, "max_size", 0),
      IntParam(params, "detect_every", 0),
      IntParam(params, "track_max_lost", 0),
      FloatParam(params, "iou_threshold", 0.0))
  }

  function FaceConfig(params: map<string, Value>): FaceTrackerConfig {
    FaceParams(params).WithDefaults()
  }

  /** The filter of one entry; none for an unknown kind, or for a face tracker whose
      classifier cannot be loaded. */
  function BuildOne(spec: FilterSpec, vision: Vision, cascadeLoads: bool): seq<FilterState> {
    if spec.kind == "blur" then
      var threshold := FloatParam(spec.params, "threshold", 100.0);
      [BlurState(if threshold <= 0.0 then 100.0 else threshold)]
    else if spec.kind == "duplicate" then [DuplicateState(IntParam(spec.params, "threshold", 10), [])]
    else if spec.kind == "tracker" then
      if TextParam(spec.params, "tracker_type", "face") == "face" then
        if cascadeLoads then [FaceState(1, FaceConfig(spec.params), vision, [], [])] else []
      else [ObjectState(1)]
    else if spec.kind == "noop" then [NoopState]
    else []
  }

  function BuildAll(specs: seq<FilterSpec>, vision: Vision, cascadeLoads: bool): seq<FilterState> {
    if specs == [] then []
    else BuildAll(specs[..|specs| - 1], vision, cascadeLoads) + BuildOne(specs[|specs| - 1], vision, cascadeLoads)
  }

  /** The initial states of the filters of a built pipeline. */
  function Built(specs: seq<FilterSpec>, vision: Vision, cascadeLoads: bool): seq<FilterState> {
    var filters := BuildAll(specs, vision, cascadeLoads);
    if |filters| == 0 then [NoopState] else filters
  }

  // ---------- which filters are built ----------

  lemma BuildAllSnoc(specs: seq<FilterSpec>, spec: FilterSpec, vision: Vision, loads: bool)
    ensures BuildAll(specs + [spec], vision, loads) == BuildAll(specs, vision, loads) + BuildOne(spec, vision, loads)
  {
    assert (specs + [spec])[..|specs|] == specs;
  }

  lemma OrderStep(first: seq<FilterSpec>, init: seq<FilterSpec>, last: FilterSpec, vision: Vision, loads: bool)
    requires BuildAll(first + init, vision, loads) == BuildAll(first, vision, loads) + BuildAll(init, vision, loads)
    ensures BuildAll(first + init + [last], vision, loads) ==
            BuildAll(first, vision, loads) + BuildAll(init + [last], vision, loads)
  {
    BuildAllSnoc(first + init, last, vision, loads);
    BuildAllSnoc(init, last, vision, loads);
    Regrouped(BuildAll(first, vision, loads), BuildAll(init, vision, loads), BuildOne(last, vision, loads));
  }

  lemma Regrouped<T>(a: seq<T>, b: seq<T>, c: seq<T>)
    ensures a + b + c == a + (b + c)
  {
  }

  /** The filters stand in the order of the configuration. */
  lemma {:induction false} BuiltInOrder(first: seq<FilterSpec>, second: seq<FilterSpec>, vision: Vision, loads: bool)
    ensures BuildAll(first + second, vision, loads) == BuildAll(first, vision, loads) + BuildAll(second, vision, loads)
  {
    if second == [] {
      assert first + second == first;
    } else {
      var init, last := second[..|second| - 1], second[|second| - 1];
      assert second == init + [last] && first + second == first + init + [last];
      BuiltInOrder(first, init, vision, loads);
      OrderStep(first, init, last, vision, loads);
    }
  }

  /** One entry gives one filter of its kind; a tracker is a face tracker unless another type
      is written, and then tracks objects. */
  lemma BuiltByKind(spec: FilterSpec, vision: Vision, loads: bool)
    ensures BuildAll([spec], vision, loads) == BuildOne(spec, vision, loads)
    ensures var fs := BuildOne(spec, vision, loads);
      && (spec.kind == "blur" ==> |fs| == 1 && fs[0].BlurState?)
      && (spec.kind == "duplicate" ==> |fs| == 1 && fs[0].DuplicateState? && fs[0].seen == [])
      && (spec.kind == "noop" ==> fs == [NoopState])
      && (spec.kind !in {"blur", "duplicate", "noop", "tracker"} ==> fs == [])
  {
    assert [spec][..0] == [];
  }

  lemma TrackerType(params: map<string, Value>, vision: Vision, loads: bool)
    ensures var fs := BuildOne(FilterSpec("tracker", params), vision, loads);
      if "tracker_type" in params && params["tracker_type"].Text? && params["tracker_type"].s != "face"
      then fs == [ObjectState(1)]
      else if loads
      then |fs| == 1 && fs[0].FaceState? && fs[0].minDetections == 1 && fs[0].cfg == FaceConfig(params) &&
           fs[0].vision == vision && fs[0].frames == [] && fs[0].calls == []
      else fs == []
  {
  }

  /** A pipeline is never empty: without any filter it passes everything on. */
  lemma EmptyPassesEverything(specs: seq<FilterSpec>, vision: Vision, loads: bool, x: FilteredFrame)
    requires BuildAll(specs, vision, loads) == []
    ensures Emitted(Built(specs, vision, loads), x) == Some(x.(score := Exactly(0.0)))
  {
    EmittedIffAllLet(Built(specs, vision, loads), x);
    EmitsInput(Built(specs, vision, loads), x);
  }

  // ---------- which configured numbers reach a filter ----------

  /** The number written in the configuration under a key. */
  function Written(params: map<string, Value>, key: string): Option<real> {
    if key !in params then None
    else
      match params[key]
      case Int(n) => Some(n as real)
      case Float(x) => Some(x)
      case _ => None
  }

  /** How a floating-point setting comes about: the written number is in force exactly if
      it is written as a floating-point number and positive, or happens to be the default;
      otherwise the default is in force. */
  predicate FloatSetting(params: map<string, Value>, key: string, setting: real, default: real) {
    match Written(params, key)
    case None => setting == default
    case Some(x) =>
      && (setting == x <==> (params[key].Float? && 0.0 < x) || x == default)
      && (setting != x ==> setting == default)
  }

  /** The same for whole-number settings: floating-point numbers do not count. */
  predicate IntSetting(params: map<string, Value>, key: string, setting: int, default: int) {
    match Written(params, key)
    case None => setting == default
    case Some(x) =>
      && (setting as real == x <==> (params[key].Int? && 0.0 < x) || x == default as real)
      && (setting as real != x ==> setting == default)
  }

  /** The threshold of a built blur filter. */
  lemma BlurSetting(params: map<string, Value>, vision: Vision, loads: bool)
    ensures var fs := BuildOne(FilterSpec("blur", params), vision, loads);
      |fs| == 1 && fs[0].BlurState? && FloatSetting(params, "threshold", fs[0].blurThreshold, 100.0)
  {
  }

  /** A written number becomes the blur threshold exactly if it is a positive
      floating-point number or 100: a whole number is ignored. */
  lemma BlurThresholdHonoured(params: map<string, Value>, vision: Vision, loads: bool, x: real)
    requires Written(params, "threshold") == Some(x)
    ensures BuildOne(FilterSpec("blur", params), vision, loads) == [BlurState(x)] <==>
            (params["threshold"].Float? && 0.0 < x) || x == 100.0
  {
    BlurSetting(params, vision, loads);
    var fs := BuildOne(FilterSpec("blur", params), vision, loads);
    assert fs == [BlurState(x)] <==> fs[0].blurThreshold == x;
  }

  /** The threshold of a built duplicate filter may have any sign: a written number is in
      force exactly if it is a whole number or the default. */
  lemma DuplicateThresholdHonoured(params: map<string, Value>, vision: Vision, loads: bool, x: real)
    requires Written(params, "threshold") == Some(x)
    ensures var fs := BuildOne(FilterSpec("duplicate", params), vision, loads);
      |fs| == 1 && fs[0].DuplicateState? && (fs[0].threshold as real == x <==> params["threshold"].Int? || x == 10.0)
  {
  }

  /** The settings of a built face tracker. */
  lemma FaceSettings(params: map<string, Value>)
    ensures var c := FaceConfig(params);
      && FloatSetting(params, "min_confidence", c.minConfidence, 0.5)
      && IntSetting(params, "min_size", c.minSize, 80)
      && IntSetting(params, "max_size", c.maxSize, 1000)
      && IntSetting(params, "detect_every", c.detectEvery, 4)
      && IntSetting(params, "track_max_lost", c.trackMaxLost, 5)
      && FloatSetting(params, "iou_threshold", c.iouThreshold, 0.3)
  {
  }

  // ---------- whole streams ----------

  /** Trackers demand at least one detection and have complete settings. */
  predicate Proper(f: FilterState) {
    match f
    case FaceState(min, cfg, _, _, _) => min >= 1 && cfg.Complete()
    case ObjectState(min) => min >= 1
    case _ => true
  }

  lemma {:induction false} BuiltIsProper(specs: seq<FilterSpec>, vision: Vision, loads: bool, i: nat)
    requires i < |BuildAll(specs, vision, loads)|
    ensures Proper(BuildAll(specs, vision, loads)[i])
  {
    var n := |specs| - 1;
    if i < |BuildAll(specs[..n], vision, loads)| {
      BuiltIsProper(specs[..n], vision, loads, i);
    }
  }

  /** A built pipeline with an object tracker emits nothing, on any stream. */
  lemma BuiltObjectTrackerBlocks(specs: seq<FilterSpec>, vision: Vision, loads: bool,
                                 xs: seq<FilteredFrame>, states: seq<seq<FilterState>>, k: nat, i: nat)
    requires Stream(Built(specs, vision, loads), xs, states) && k < |xs|
    requires i < |Built(specs, vision, loads)| && Built(specs, vision, loads)[i].ObjectState?
    ensures Emitted(states[k + 1], xs[k]) == None
  {
    StreamKeepsFilters(Built(specs, vision, loads), xs, states, k, i);
    BuiltIsProper(specs, vision, loads, i);
    ObjectTrackerBlocks(states[k], xs[k], states[k + 1], i);
  }

  /** Every frame a built pipeline with a face tracker emits, on any stream, carries the
      non-empty report of the first such tracker, made with that frame, and every
      identity in it belongs to a track that tracker then holds. */
  lemma BuiltFaceTrackerReports(specs: seq<FilterSpec>, vision: Vision, loads: bool,
                                xs: seq<FilteredFrame>, states: seq<seq<FilterState>>, k: nat, i: nat)
    requires Stream(Built(specs, vision, loads), xs, states) && k < |xs|
    requires i < |Built(specs, vision, loads)| && Built(specs, vision, loads)[i].FaceState?
    requires forall j :: 0 <= j < i ==> !Built(specs, vision, loads)[j].FaceState?
    requires Emitted(states[k + 1], xs[k]).Some?
    ensures i < |states[k]| && states[k][i].FaceState? && i < |states[k + 1]| && states[k + 1][i].FaceState?
    ensures states[k + 1][i].frames == states[k][i].frames + [xs[k].image]
    ensures forall d :: d in Found(states[k + 1]) ==> d.trackID in LiveIn(states[k + 1][i])
    ensures Found(states[k + 1]) == ReportOf(states[k + 1][i]) && |Found(states[k + 1])| >= 1
    ensures Emitted(states[k + 1], xs[k]).value.image == xs[k].image
    ensures Emitted(states[k + 1], xs[k]).value.meta == xs[k].meta
  {
    var start := Built(specs, vision, loads);
    forall j | 0 <= j <= i
      ensures j < |states[k]| && SameFilter(start[j], states[k][j])
    {
      StreamKeepsFilters(start, xs, states, k, j);
    }
    BuiltIsProper(specs, vision, loads, i);
    EmittedCarriesDetections(states[k], xs[k], states[k + 1], i);
    EmitsInput(states[k + 1], xs[k]);
  }
}
