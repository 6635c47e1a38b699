/** One ffmpeg session of a configured stream, from the configuration and the bytes in the
    pipe to the messages written. */
module StreamSessions {
  import opened Rectangles
  import opened Filters
  import opened FaceTrackers
  import opened PipelineSpec
  import opened FilterPipelines
  import B = PipelineBuild
  import PipelineBuilders
  import opened RawVideo
  import opened DecoderWorkers
  import opened ReadLoops

  lemma WrittenWasEmitted(s: Session, before: Snapshot, frames: seq<RawFrame>, states: seq<seq<FilterState>>,
                          outcomes: seq<Outcome>, now: Snapshot, i: nat)
    requires Reached(s, before, frames, states, outcomes, now) && i < |frames| && outcomes[i].Written?
    ensures Emitted(states[i + 1], Inputs(s, before.seqNum, frames)[i]).Some?
  {
    WrittenCarriesInput(s, outcomes[i], Inputs(s, before.seqNum, frames)[i], states[i + 1]);
  }

  /** Every message of a stream configured with a face tracker carries at least one
      detection, and every identity in it belongs to a track its first face tracker holds
      after that frame. */
  lemma MessagesCarryLiveDetections(specs: seq<B.FilterSpec>, vision: Vision, loads: bool, s: Session,
                                    before: Snapshot, frames: seq<RawFrame>, states: seq<seq<FilterState>>,
                                    outcomes: seq<Outcome>, now: Snapshot, i: nat, q: nat)
    requires before.pipeline == B.Built(specs, vision, loads)
    requires Reached(s, before, frames, states, outcomes, now) && i < |frames| && outcomes[i].Written?
    requires q < |before.pipeline| && before.pipeline[q].FaceState?
    requires forall j :: 0 <= j < q ==> !before.pipeline[j].FaceState?
    ensures q < |states[i + 1]| && states[i + 1][q].FaceState?
    ensures var dets := outcomes[i].frame.detections;
      dets.Some? && |dets.value| >= 1 && forall d :: d in dets.value ==> d.trackID in LiveIn(states[i + 1][q])
  {
    WrittenWasEmitted(s, before, frames, states, outcomes, now, i);
    B.BuiltFaceTrackerReports(specs, vision, loads, Inputs(s, before.seqNum, frames), states, i, q);
    WrittenCarriesFrame(s, before, frames, states, outcomes, now, i);
  }

  /** A stream configured with an object tracker never writes a message. */
  lemma ObjectTrackerSilences(specs: seq<B.FilterSpec>, vision: Vision, loads: bool, s: Session,
                              before: Snapshot, frames: seq<RawFrame>, states: seq<seq<FilterState>>,
                              outcomes: seq<Outcome>, now: Snapshot, i: nat, q: nat)
    requires before.pipeline == B.Built(specs, vision, loads)
    requires Reached(s, before, frames, states, outcomes, now) && i < |frames|
    requires q < |before.pipeline| && before.pipeline[q].ObjectState?
    ensures outcomes[i] == Filtered
  {
    var xs := Inputs(s, before.seqNum, frames);
    B.BuiltObjectTrackerBlocks(specs, vision, loads, xs, states, i, q);
    assert Fate(s, outcomes[i], xs[i], states[i + 1]);
  }

  /** A blur filter has to be able to measure the frames. */
  predicate SizeFits(states: seq<FilterState>, width: nat, height: nat) {
    (exists i :: 0 <= i < |states| && states[i].BlurState?) ==> Measurable(Rect(0, 0, width, height))
  }

  lemma AcceptsFittingSize(pipeline: FilterPipeline, width: nat, height: nat)
    requires SizeFits(pipeline.State(), width, height)
    ensures pipeline.Accepts(AsImage(RawFrame(width, height, [])))
  {
    forall i | 0 <= i < |pipeline.filters|
      ensures pipeline.filters[i].Accepts(AsImage(RawFrame(width, height, [])))
    {
      assert pipeline.State()[i] == pipeline.filters[i].State();
    }
  }

  /** Build the pipeline, the worker and the reader of a stream. */
  method Prepare(specs: seq<B.FilterSpec>, vision: Vision, cascadeLoads: bool, width: nat, height: nat,
                 ghost pipe: Pipe, streamID: string) returns (worker: DecoderWorker, reader: RawVideoReader)
    requires 0 < width * height && SizeFits(B.Built(specs, vision, cascadeLoads), width, height)
    ensures fresh(worker) && fresh(worker.pipeline) && fresh(worker.pipeline.Repr) && Ready(worker, reader, pipe)
    ensures worker.streamID == streamID && Now(worker) == Snapshot(0, [], B.Built(specs, vision, cascadeLoads))
    ensures reader.width == width && reader.height == height
  {
    var pipeline := PipelineBuilders.BuildPipeline(specs, vision, cascadeLoads);
    AcceptsFittingSize(pipeline, width, height);
    reader := new RawVideoReader(width, height);
    worker := new DecoderWorker(streamID, pipeline);
  }

  /** Start a stream and run its read loop once. */
  method RunSession(specs: seq<B.FilterSpec>, vision: Vision, cascadeLoads: bool, width: nat, height: nat,
                    pipe: Pipe, cancelled: nat -> bool, s: Session)
    returns (worker: DecoderWorker, ghost n: nat, ghost states: seq<seq<FilterState>>, ghost outcomes: seq<Outcome>)
    requires 0 < width * height && SizeFits(B.Built(specs, vision, cascadeLoads), width, height)
    modifies pipe
    ensures var all := Frames(width, height, 3 * (width * height), old(pipe.unread));
      && n <= |all| && (forall i: nat :: i < n ==> !cancelled(i)) && (cancelled(n) || n == |all|)
      && Reached(s, Snapshot(0, [], B.Built(specs, vision, cascadeLoads)), all[..n], states, outcomes, Now(worker))
  {
    var reader;
    worker, reader := Prepare(specs, vision, cascadeLoads, width, height, pipe, s.streamID);
    n, states, outcomes := ReadLoop(worker, reader, pipe, cancelled, s);
  }
}
