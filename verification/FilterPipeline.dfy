/** The filter objects in a pipeline. */
module FilterPipelines {
  import opened Images
  import opened Options
  import opened Chains
  import opened Filters
  import opened BlurFilters
  import opened DuplicateFilters
  import opened TrackManagers
  import opened FaceTrackers
  import opened PipelineSpec

  datatype Tracker = FaceTracking(face: FaceTracker) | ObjectTracking

  /** Show a frame to a face tracker and count what it reports. */
  method CountFaces(face: FaceTracker, frame: Image) returns (count: nat)
    requires face.Valid()
    modifies face.Repr()
    ensures face.Valid() && fresh(face.Repr() - old(face.Repr()))
    ensures face.frames == old(face.frames) + [frame] && old(face.trackMgr.calls) <= face.trackMgr.calls
    ensures Permitted(face.cfg, face.vision, face.frames, face.trackMgr.calls)
    ensures count == |Reported(face.cfg, face.vision, face.frames, face.trackMgr.calls)|
  {
    var dets := face.Track(frame);
    count := if dets.Some? then |dets.value| else 0;
  }

  class TrackerFilter {
    const tracker: Tracker
    const minDetections: int

    constructor (tracker: Tracker, minDetections: int)
      ensures this.tracker == tracker
      ensures this.minDetections == if minDetections <= 0 then 1 else minDetections
    {
      this.tracker := tracker;
      this.minDetections := if minDetections <= 0 then 1 else minDetections;
    }

    ghost function Repr(): set<object>
      reads if tracker.FaceTracking? then {tracker.face, tracker.face.trackMgr} else {}
    {
      if tracker.FaceTracking? then tracker.face.Repr() else {}
    }

    ghost predicate Valid()
      reads if tracker.FaceTracking? then {tracker.face, tracker.face.trackMgr} else {}
      reads if tracker.FaceTracking? then tracker.face.trackMgr.tracks.Values else {}
    {
      1 <= minDetections && (tracker.FaceTracking? ==> tracker.face.Valid())
    }

    ghost function State(): FilterState
      reads if tracker.FaceTracking? then {tracker.face, tracker.face.trackMgr} else {}
    {
      match tracker
      case FaceTracking(face) => FaceState(minDetections, face.cfg, face.vision, face.frames, face.trackMgr.calls)
      case ObjectTracking => ObjectState(minDetections)
    }

    /** The number of detections the tracker reports for the frame. */
    method Observe(frame: Image) returns (count: nat)
      requires Valid()
      modifies Repr()
      ensures Valid() && fresh(Repr() - old(Repr()))
      ensures Advances(old(State()), FilteredFrame(frame, FrameMeta("", 0, 0, 0), Exactly(0.0)), State())
      ensures count == |ReportOf(State())|
    {
      count := 0;
      if tracker.FaceTracking? {
        count := CountFaces(tracker.face, frame);
      }
    }

    method Apply(frame: Image, meta: FrameMeta) returns (v: Verdict)
      requires Valid()
      modifies Repr()
      ensures Valid() && fresh(Repr() - old(Repr()))
      ensures Advances(old(State()), FilteredFrame(frame, meta, Exactly(0.0)), State())
      ensures v == if |ReportOf(State())| < minDetections then Drop else Pass(FilteredFrame(frame, meta, Exactly(1.0)))
    {
      var count := Observe(frame);
      if count < minDetections {
        return Drop;
      }
      return Pass(FilteredFrame(frame, meta, Exactly(1.0)));
    }

    function Detections(): seq<Detection>
      reads if tracker.FaceTracking? then {tracker.face} else {}
    {
      if tracker.FaceTracking? && tracker.face.lastDetections.Some? then tracker.face.lastDetections.value else []
    }

    lemma DetectionsAreReport()
      requires Valid()
      ensures Detections() == ReportOf(State())
    {
    }
  }

  /** The filters a pipeline can hold. */
  datatype FrameFilter =
    | Noop
    | Blur(blur: BlurFilter)
    | Duplicate(duplicate: DuplicateFilter)
    | Tracking(tracking: TrackerFilter)
  {
    /** The objects that say which objects belong to the filter. */
    ghost function Anchors(): set<object> {
      match this
      case Duplicate(d) => {d}
      case Tracking(t) => if t.tracker.FaceTracking? then {t.tracker.face, t.tracker.face.trackMgr} else {}
      case _ => {}
    }

    ghost function Repr(): set<object>
      reads Anchors()
      ensures Anchors() <= Repr()
    {
      match this
      case Duplicate(d) => {d}
      case Tracking(t) => t.Repr()
      case _ => {}
    }

    ghost predicate Valid()
      reads Anchors(), Repr()
    {
      match this
      case Duplicate(d) => d.Valid()
      case Tracking(t) => t.Valid()
      case _ => true
    }

    ghost function State(): FilterState
      reads Anchors()
    {
      match this
      case Noop => NoopState
      case Blur(b) => BlurState(b.threshold)
      case Duplicate(d) => DuplicateState(d.threshold, d.seen)
      case Tracking(t) => t.State()
    }

    /** The blur filter fails on sizes it cannot measure. */
    predicate Accepts(image: Image) {
      Blur? ==> Measurable(image.bounds)
    }

    method Apply(x: FilteredFrame) returns (v: Verdict)
      requires Valid() && Accepts(x.image)
      modifies Repr()
      ensures Valid() && fresh(Repr() - old(Repr()))
      ensures Advances(old(State()), x, State())
      ensures v == match VerdictOn(State(), x) { case None => Drop case Some(y) => Pass(y) }
    {
      match this {
        case Noop => v := Pass(FilteredFrame(x.image, x.meta, Exactly(0.0)));
        case Blur(b) => v := b.Apply(x.image, x.meta);
        case Duplicate(d) =>
          ghost var seen := d.seen;
          v := d.Apply(x.image, x.meta);
          assert d.seen[..|seen|] == seen;
        case Tracking(t) => v := t.Apply(x.image, x.meta);
      }
    }
  }

  class FilterPipeline {
    const filters: seq<FrameFilter>
    ghost var Repr: set<object>  // the objects of all filters

    constructor (filters: seq<FrameFilter>)
      requires forall i :: 0 <= i < |filters| ==> filters[i].Valid()
      requires forall i, j :: 0 <= i < j < |filters| ==> filters[i].Repr() !! filters[j].Repr()
      ensures Valid() && this.filters == filters
      ensures forall o :: o in Repr ==> exists i :: 0 <= i < |filters| && o in old(filters[i].Repr())
      ensures forall i :: 0 <= i < |filters| ==> filters[i].State() == old(filters[i].State())
    {
      this.filters := filters;
      Repr := set i, o | 0 <= i < |filters| && o in filters[i].Repr() :: o;
      new;
      AllUntouched(filters);
    }

    ghost function Anchors(): set<object> {
      set i, o | 0 <= i < |filters| && o in filters[i].Anchors() :: o
    }

    ghost predicate Owns()
      reads this, Anchors()
    {
      forall i :: 0 <= i < |filters| ==> filters[i].Repr() <= Repr && this !in filters[i].Repr()
    }

    ghost predicate Separate()
      reads Anchors()
    {
      forall i, j :: 0 <= i < j < |filters| ==> filters[i].Repr() !! filters[j].Repr()
    }

    ghost predicate AllValid()
      reads this, Anchors(), Repr
    {
      Owns() && forall i :: 0 <= i < |filters| ==> filters[i].Valid()
    }

    /** Every filter is sound and no object belongs to two of them. */
    ghost predicate Valid()
      reads this, Anchors(), Repr
    {
      AllValid() && Separate()
    }

    ghost function State(): (fs: seq<FilterState>)
      reads Anchors()
      ensures |fs| == |filters|
      ensures forall i :: 0 <= i < |fs| ==> fs[i] == filters[i].State()
    {
      seq(|filters|, i requires 0 <= i < |filters| reads Anchors() => filters[i].State())
    }

    predicate Accepts(image: Image) {
      forall i :: 0 <= i < |filters| ==> filters[i].Accepts(image)
    }

    lemma AnchorsOwned()
      requires Valid()
      ensures Anchors() <= Repr
    {
    }

    /** Filter i may have moved, the others have not. */
    twostate predicate OnlyMoved(i: nat)
      requires i < |filters|
      reads Anchors()
    {
      && fresh(filters[i].Repr() - old(filters[i].Repr()))
      && (forall j :: 0 <= j < |filters| && j != i ==>
            filters[j].Repr() == old(filters[j].Repr()) && filters[j].State() == old(filters[j].State()))
    }

    twostate lemma StaysSeparate(i: nat)
      requires i < |filters| && OnlyMoved(i) && old(Separate())
      ensures Separate()
    {
      forall j, k | 0 <= j < k < |filters|
        ensures filters[j].Repr() !! filters[k].Repr()
      {
      }
    }

    twostate lemma StateMoves(i: nat)
      requires i < |filters| && OnlyMoved(i)
      ensures State() == old(State())[i := filters[i].State()]
    {
    }

    twostate lemma OthersKeepState(i: nat)
      requires i < |filters| && old(Separate())
      requires old(Owns())
      requires forall o: object | old(allocated(o)) && o !in old(filters[i].Repr()) && o != this :: unchanged(o)
      requires fresh(filters[i].Repr() - old(filters[i].Repr()))
      ensures OnlyMoved(i)
    {
      forall j | 0 <= j < |filters| && j != i
        ensures filters[j].Repr() == old(filters[j].Repr()) && filters[j].State() == old(filters[j].State())
      {
        Untouched(filters[j]);
      }
    }

    twostate lemma OthersStayValid(i: nat)
      requires i < |filters| && old(Separate()) && old(AllValid()) && filters[i].Valid()
      requires forall o: object | old(allocated(o)) && o !in old(filters[i].Repr()) && o != this :: unchanged(o)
      requires fresh(filters[i].Repr() - old(filters[i].Repr())) && Repr == old(Repr) + filters[i].Repr()
      ensures AllValid()
    {
      forall j | 0 <= j < |filters|
        ensures filters[j].Valid() && filters[j].Repr() <= Repr && this !in filters[j].Repr()
      {
        if j != i {
          Untouched(filters[j]);
        }
      }
    }

    /** One round of the loop. */
    method Step(i: nat, x: FilteredFrame) returns (v: Verdict)
      requires i < |filters| && Valid() && filters[i].Accepts(x.image)
      modifies this`Repr, filters[i].Repr()
      ensures Valid() && fresh(Repr - old(Repr))
      ensures State() == old(State())[i := filters[i].State()]
      ensures Advances(old(filters[i].State()), x, filters[i].State())
      ensures v == match VerdictOn(filters[i].State(), x) { case None => Drop case Some(y) => Pass(y) }
    {
      v := filters[i].Apply(x);
      Repr := Repr + filters[i].Repr();
      OthersKeepState(i);
      OthersStayValid(i);
      StaysSeparate(i);
      StateMoves(i);
    }

    lemma PassedOne(before: seq<FilterState>, now: seq<FilterState>, x: FilteredFrame, current: FilteredFrame,
                    i: nat, s: FilterState)
      requires i < |before| == |now| && now[i..] == before[i..]
      requires Processes(before[..i], x, now[..i]) && Emitted(now[..i], x) == Some(current)
      requires Advances(before[i], current, s)
      ensures var after := now[i := s];
        && after[i + 1..] == before[i + 1..]
        && Processes(before[..i + 1], x, after[..i + 1])
        && Emitted(after[..i + 1], x) == VerdictOn(s, current)
    {
      var after := now[i := s];
      RunsSnoc(VerdictOn, Advances, before[..i], x, now[..i], current, before[i], s);
      assert before[..i + 1] == before[..i] + [before[i]] && after[..i + 1] == now[..i] + [s];
      assert after[i + 1..] == now[i..][1..] && before[i + 1..] == before[i..][1..];
    }

    /** The first i filters have passed the frame on as `current`, the others wait. */
    ghost predicate At(before: seq<FilterState>, x: FilteredFrame, i: nat, current: FilteredFrame)
      requires i <= |filters|
      reads Anchors()
    {
      |before| == |filters| && State()[i..] == before[i..] &&
      Processes(before[..i], x, State()[..i]) && Emitted(State()[..i], x) == Some(current)
    }

    /** One round of the loop, seen from the whole pipeline. */
    method Round(i: nat, ghost before: seq<FilterState>, ghost x: FilteredFrame, current: FilteredFrame)
      returns (next: Option<FilteredFrame>)
      requires i < |filters| && Valid() && At(before, x, i, current) && filters[i].Accepts(current.image)
      modifies this`Repr, filters[i].Repr()
      ensures Valid() && fresh(Repr - old(Repr))
      ensures next.Some? ==> At(before, x, i + 1, next.value) && next.value.image == current.image
      ensures next == None ==> Processes(before, x, State()) && Emitted(State(), x) == None
    {
      ghost var now := State();
      assert now[i] == now[i..][0] == before[i];
      var verdict := Step(i, current);
      PassedOne(before, now, x, current, i, filters[i].State());
      if verdict.Pass? {
        next := Some(verdict.frame);
      } else {
        DropStopsRun(VerdictOn, Advances, before, x, State(), i + 1);
        next := None;
      }
    }

    /** Process shows the frame to one filter after the other until one drops it. */
    method Process(frame: Image, meta: FrameMeta) returns (out: Option<FilteredFrame>)
      requires Valid() && Accepts(frame)
      modifies this`Repr, Repr
      ensures Valid() && fresh(Repr - old(Repr))
      ensures Processes(old(State()), FilteredFrame(frame, meta, Exactly(0.0)), State())
      ensures out == Emitted(State(), FilteredFrame(frame, meta, Exactly(0.0)))
    {
      var current := FilteredFrame(frame, meta, Exactly(0.0));
      ghost var x, before := current, State();
      for i := 0 to |filters|
        invariant Valid() && fresh(Repr - old(Repr))
        invariant At(before, x, i, current) && current.image == frame
      {
        out := Round(i, before, x, current);
        if out == None {
          return;
        }
        current := out.value;
      }
      assert before[..|filters|] == before && State()[..|filters|] == State();
      return Some(current);
    }

    lemma Report(i: nat)
      requires i < |filters| && Valid()
      ensures ReportOf(State()[i]) == if filters[i].Tracking? then filters[i].tracking.Detections() else []
    {
      if filters[i].Tracking? {
        filters[i].tracking.DetectionsAreReport();
      }
    }

    /** The search for detections to report. */
    method Detections() returns (dets: seq<Detection>)
      requires Valid()
      ensures dets == Found(State()) && Valid() && State() == old(State())
    {
      ghost var fs := State();
      for i := 0 to |filters|
        invariant Valid() && State() == fs
        invariant Found(fs) == Found(fs[i..])
      {
        FoundStep(fs, i);
        Report(i);
        if filters[i].Tracking? {
          dets := filters[i].tracking.Detections();
          if |dets| > 0 {
            return;
          }
        }
      }
      return [];
    }
  }

  lemma FoundStep(fs: seq<FilterState>, i: nat)
    requires i < |fs|
    ensures Found(fs[i..]) == if |ReportOf(fs[i])| > 0 then ReportOf(fs[i]) else Found(fs[i + 1..])
  {
    assert fs[i..][1..] == fs[i + 1..];
  }

  twostate lemma AllUntouched(filters: seq<FrameFilter>)
    requires forall i :: 0 <= i < |filters| ==> old(filters[i].Valid())
    requires forall i, o :: 0 <= i < |filters| && o in old(filters[i].Repr()) ==> unchanged(o)
    ensures forall i :: 0 <= i < |filters| ==> filters[i].Valid() && filters[i].Repr() == old(filters[i].Repr())
    ensures forall i :: 0 <= i < |filters| ==> filters[i].State() == old(filters[i].State())
  {
    forall i | 0 <= i < |filters|
      ensures filters[i].Valid() && filters[i].Repr() == old(filters[i].Repr())
      ensures filters[i].State() == old(filters[i].State())
    {
      Untouched(filters[i]);
    }
  }

  twostate lemma Untouched(f: FrameFilter)
    requires forall o :: o in old(f.Repr()) ==> unchanged(o)
    ensures f.Repr() == old(f.Repr()) && f.State() == old(f.State()) && f.Valid() == old(f.Valid())
  {
  }
}
