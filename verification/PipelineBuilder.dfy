/** Building the filter objects of a pipeline. */
module PipelineBuilders {
  import opened BlurFilters
  import opened DuplicateFilters
  import opened FaceTrackers
  import opened PipelineSpec
  import opened FilterPipelines
  import opened PipelineBuild

  /** The filter object of one entry, if it has one. */
  method BuildFilter(spec: FilterSpec, vision: Vision, cascadeLoads: bool) returns (built: seq<FrameFilter>)
    ensures |built| == |BuildOne(spec, vision, cascadeLoads)| <= 1
    ensures |built| == 1 ==>
              built[0].Valid() && fresh(built[0].Repr()) && built[0].State() == BuildOne(spec, vision, cascadeLoads)[0]
  {
    if spec.kind == "blur" {
      var blur := new BlurFilter(FloatParam(spec.params, "threshold", 100.0));
      return [Blur(blur)];
    } else if spec.kind == "duplicate" {
      var duplicate := new DuplicateFilter(IntParam(spec.params, "threshold", 10));
      return [Duplicate(duplicate)];
    } else if spec.kind == "tracker" {
      if TextParam(spec.params, "tracker_type", "face") == "face" {
        if !cascadeLoads {
          return [];
        }
        var face := new FaceTracker(FaceParams(spec.params), vision);
        var filter := new TrackerFilter(FaceTracking(face), 1);
        return [Tracking(filter)];
      }
      var filter := new TrackerFilter(ObjectTracking, 1);
      return [Tracking(filter)];
    } else if spec.kind == "noop" {
      return [Noop];
    }
    return [];
  }

  /** New filters behind others share no object with them. */
  twostate lemma NewAreSeparate(filters: seq<FrameFilter>, new built: seq<FrameFilter>)
    requires |built| <= 1 && forall i :: 0 <= i < |built| ==> fresh(built[i].Repr())
    requires forall i, j :: 0 <= i < j < |filters| ==> old(filters[i].Repr() !! filters[j].Repr())
    requires forall i :: 0 <= i < |filters| ==> filters[i].Repr() == old(filters[i].Repr())
    ensures var more := filters + built;
      forall i, j :: 0 <= i < j < |more| ==> more[i].Repr() !! more[j].Repr()
  {
    var more := filters + built;
    forall i, j | 0 <= i < j < |more|
      ensures more[i].Repr() !! more[j].Repr()
    {
      if j < |filters| {
        assert old(filters[i].Repr() !! filters[j].Repr());
      }
    }
  }

  /** One round of the manager's loop over the configured filters. */
  method AddFilter(filters: seq<FrameFilter>, spec: FilterSpec, vision: Vision, cascadeLoads: bool,
                   ghost states: seq<FilterState>) returns (more: seq<FrameFilter>)
    requires |filters| == |states|
    requires forall i :: 0 <= i < |filters| ==> filters[i].Valid() && filters[i].State() == states[i]
    requires forall i, j :: 0 <= i < j < |filters| ==> filters[i].Repr() !! filters[j].Repr()
    ensures filters <= more && |more| == |states + BuildOne(spec, vision, cascadeLoads)|
    ensures forall i :: 0 <= i < |more| ==>
              more[i].Valid() && more[i].State() == (states + BuildOne(spec, vision, cascadeLoads))[i]
    ensures forall i, j :: 0 <= i < j < |more| ==> more[i].Repr() !! more[j].Repr()
    ensures forall i :: 0 <= i < |filters| ==> filters[i].Repr() == old(filters[i].Repr())
    ensures forall i :: |filters| <= i < |more| ==> fresh(more[i].Repr())
  {
    ghost var added := BuildOne(spec, vision, cascadeLoads);
    var built := BuildFilter(spec, vision, cascadeLoads);
    AllUntouched(filters);
    NewAreSeparate(filters, built);
    more := filters + built;
    forall i | 0 <= i < |more|
      ensures more[i].Valid() && more[i].State() == (states + added)[i]
    {
      if i < |filters| {
        assert more[i] == filters[i];
      } else {
        assert more[i] == built[0];
      }
    }
  }

  /** The manager's loop over the configured filters. */
  method BuildFilters(specs: seq<FilterSpec>, vision: Vision, cascadeLoads: bool) returns (filters: seq<FrameFilter>)
    ensures |filters| == |BuildAll(specs, vision, cascadeLoads)|
    ensures forall i :: 0 <= i < |filters| ==>
              filters[i].Valid() && filters[i].State() == BuildAll(specs, vision, cascadeLoads)[i]
    ensures forall i, j :: 0 <= i < j < |filters| ==> filters[i].Repr() !! filters[j].Repr()
    ensures forall i :: 0 <= i < |filters| ==> fresh(filters[i].Repr())
  {
    filters := [];
    for k := 0 to |specs|
      invariant |filters| == |BuildAll(specs[..k], vision, cascadeLoads)|
      invariant forall i :: 0 <= i < |filters| ==>
                  filters[i].Valid() && filters[i].State() == BuildAll(specs[..k], vision, cascadeLoads)[i]
      invariant forall i, j :: 0 <= i < j < |filters| ==> filters[i].Repr() !! filters[j].Repr()
      invariant forall i :: 0 <= i < |filters| ==> fresh(filters[i].Repr())
    {
      assert specs[..k + 1][..k] == specs[..k];
      filters := AddFilter(filters, specs[k], vision, cascadeLoads, BuildAll(specs[..k], vision, cascadeLoads));
    }
    assert specs[..|specs|] == specs;
  }

  /** Building the pipeline: its objects are new and in the states prescribed for the
      configuration. */
  method BuildPipeline(specs: seq<FilterSpec>, vision: Vision, cascadeLoads: bool) returns (pipeline: FilterPipeline)
    ensures fresh(pipeline) && fresh(pipeline.Repr) && pipeline.Valid()
    ensures pipeline.State() == Built(specs, vision, cascadeLoads)
  {
    var filters := BuildFilters(specs, vision, cascadeLoads);
    if |filters| == 0 {
      filters := [Noop];
    }
    pipeline := new FilterPipeline(filters);
  }
}
