/** The decoder worker: what it does with one frame, and its restart loop as a step
    machine with cancellation arriving at any moment. */
module DecoderWorkers {
  import opened Images
  import opened Options
  import opened Filters
  import opened TrackManagers
  import opened PipelineSpec
  import opened FilterPipelines

  /** A message for the output writer. `detections` stands for the two metadata entries
      that are set together. */
  datatype OutputFrame = OutputFrame(
    streamID: string, seqNum: int, timestamp: int, quality: Score, imageData: seq<Byte>,
    detections: Option<seq<Detection>>)

  /** What became of one frame. */
  datatype Outcome = Filtered | SerializeFailed | WriteFailed(frame: OutputFrame) | Written(frame: OutputFrame)

  // ---------- the log of outcomes ----------

  /** An outcome that processing the frame with this number can have. */
  predicate Possible(outcome: Outcome, seqNum: int) {
    outcome.Written? ==> outcome.frame.seqNum == seqNum
  }

  /** The k-th frame processed carries sequence number k. */
  ghost predicate Numbered(log: seq<Outcome>) {
    forall i :: 0 <= i < |log| ==> Possible(log[i], i + 1)
  }

  function WrittenNumbers(log: seq<Outcome>): seq<int> {
    if log == [] then []
    else
      var n := |log| - 1;
      WrittenNumbers(log[..n]) + if log[n].Written? then [log[n].frame.seqNum] else []
  }

  /** The emitted sequence numbers are strictly increasing. */
  lemma {:induction false} NumbersIncrease(log: seq<Outcome>)
    requires Numbered(log)
    ensures forall i :: 0 <= i < |WrittenNumbers(log)| ==> 1 <= WrittenNumbers(log)[i] <= |log|
    ensures forall i, j :: 0 <= i < j < |WrittenNumbers(log)| ==> WrittenNumbers(log)[i] < WrittenNumbers(log)[j]
  {
    if log != [] {
      NumbersIncrease(log[..|log| - 1]);
    }
  }

  datatype Tally = Tally(emitted: nat, filtered: nat, failed: nat)

  function Count(log: seq<Outcome>): Tally {
    if log == [] then Tally(0, 0, 0)
    else
      var t := Count(log[..|log| - 1]);
      match log[|log| - 1]
      case Written(_) => t.(emitted := t.emitted + 1)
      case Filtered => t.(filtered := t.filtered + 1)
      case _ => t.(failed := t.failed + 1)
  }

  /** Every frame is accounted for exactly once. */
  lemma {:induction false} EveryFrameCounted(log: seq<Outcome>)
    ensures var t := Count(log); |log| == t.emitted + t.filtered + t.failed
    ensures |WrittenNumbers(log)| == Count(log).emitted
  {
    if log != [] {
      EveryFrameCounted(log[..|log| - 1]);
    }
  }

  // ---------- one frame ----------

  /** What becomes of a frame that left the pipeline, given the encoder's result and the
      writer's answer: nothing is lost silently and the message repeats the frame's
      metadata, image and detections. */
  predicate Delivered(outcome: Outcome, f: FilteredFrame, dets: seq<Detection>,
                      encode: FilteredFrame -> Option<seq<Byte>>, accept: OutputFrame -> bool) {
    match outcome
    case Filtered => false
    case SerializeFailed => encode(f) == None
    case Written(frame) => accept(frame) && Carries(frame, f, dets, encode)
    case WriteFailed(frame) => !accept(frame) && Carries(frame, f, dets, encode)
  }

  /** The fate of a frame x, of which the pipeline lets through `out`. */
  predicate Handled(outcome: Outcome, x: FilteredFrame, out: Option<FilteredFrame>, dets: seq<Detection>,
                    encode: FilteredFrame -> Option<seq<Byte>>, accept: OutputFrame -> bool) {
    match out
    case None => outcome == Filtered
    case Some(f) => f.meta == x.meta && Delivered(outcome, f, dets, encode, accept)
  }

  predicate Carries(frame: OutputFrame, f: FilteredFrame, dets: seq<Detection>,
                    encode: FilteredFrame -> Option<seq<Byte>>) {
    && frame.streamID == f.meta.streamID && frame.seqNum == f.meta.seqNum && frame.timestamp == f.meta.timestamp
    && frame.quality == f.score
    && Some(frame.imageData) == encode(f)
    && frame.detections == if |dets| > 0 then Some(dets) else None
  }

  lemma HandledIsPossible(outcome: Outcome, x: FilteredFrame, out: Option<FilteredFrame>, dets: seq<Detection>,
                          encode: FilteredFrame -> Option<seq<Byte>>, accept: OutputFrame -> bool)
    requires Handled(outcome, x, out, dets, encode, accept)
    ensures Possible(outcome, x.meta.seqNum)
  {
  }

  class DecoderWorker {
    const streamID: string
    const pipeline: FilterPipeline
    var seqNum: int
    ghost var log: seq<Outcome>

    constructor (streamID: string, pipeline: FilterPipeline)
      ensures this.streamID == streamID && this.pipeline == pipeline && Numbers() && log == []
    {
      this.streamID := streamID;
      this.pipeline := pipeline;
      seqNum := 0;
      log := [];
    }

    ghost predicate Numbers()
      reads this
    {
      seqNum == |log| && Numbered(log)
    }

    /** Serialize and write a frame that left the pipeline. */
    method Deliver(f: FilteredFrame, encode: FilteredFrame -> Option<seq<Byte>>, accept: OutputFrame -> bool)
      returns (outcome: Outcome)
      requires pipeline.Valid()
      ensures pipeline.Valid() && pipeline.State() == old(pipeline.State())
      ensures Delivered(outcome, f, Found(pipeline.State()), encode, accept)
    {
      var data := encode(f);
      if data == None {
        return SerializeFailed;
      }
      var dets := pipeline.Detections();
      var frame := OutputFrame(f.meta.streamID, f.meta.seqNum, f.meta.timestamp, f.score, data.value,
                               if |dets| > 0 then Some(dets) else None);
      return if accept(frame) then Written(frame) else WriteFailed(frame);
    }

    /** The next sequence number; the pipeline is not concerned. */
    method NextNumber() returns (n: int)
      requires pipeline.Valid() && this !in pipeline.Repr
      modifies this`seqNum
      ensures n == seqNum == old(seqNum) + 1
      ensures pipeline.Valid() && pipeline.State() == old(pipeline.State())
    {
      pipeline.AnchorsOwned();
      seqNum := seqNum + 1;
      n := seqNum;
    }

    /** Remember the outcome; the pipeline is not concerned. */
    ghost method Log(outcome: Outcome)
      requires pipeline.Valid() && this !in pipeline.Repr
      modifies this`log
      ensures log == old(log) + [outcome]
      ensures pipeline.Valid() && pipeline.State() == old(pipeline.State())
    {
      pipeline.AnchorsOwned();
      log := log + [outcome];
    }

    /** Pipeline, serializer and writer on one frame with its metadata. */
    method Handle(img: Image, meta: FrameMeta, encode: FilteredFrame -> Option<seq<Byte>>, accept: OutputFrame -> bool)
      returns (outcome: Outcome)
      requires pipeline.Valid() && pipeline.Accepts(img)
      modifies pipeline`Repr, pipeline.Repr
      ensures pipeline.Valid() && fresh(pipeline.Repr - old(pipeline.Repr))
      ensures var x := FilteredFrame(img, meta, Exactly(0.0));
        && Processes(old(pipeline.State()), x, pipeline.State())
        && Handled(outcome, x, Emitted(pipeline.State(), x), Found(pipeline.State()), encode, accept)
    {
      var result := pipeline.Process(img, meta);
      if result == None {
        outcome := Filtered;
      } else {
        EmitsInput(pipeline.State(), FilteredFrame(img, meta, Exactly(0.0)));
        outcome := Deliver(result.value, encode, accept);
      }
    }

    /** One frame: numbered, handled, logged. */
    method ProcessFrame(img: Image, ts: int, encode: FilteredFrame -> Option<seq<Byte>>, accept: OutputFrame -> bool)
      returns (outcome: Outcome)
      requires Numbers() && pipeline.Valid() && pipeline.Accepts(img) && this !in pipeline.Repr
      modifies this, pipeline`Repr, pipeline.Repr
      ensures Numbers() && pipeline.Valid() && fresh(pipeline.Repr - old(pipeline.Repr))
      ensures seqNum == old(seqNum) + 1 && log == old(log) + [outcome]
      ensures var x := FilteredFrame(img, FrameMeta(streamID, seqNum, ts, 0), Exactly(0.0));
        && Processes(old(pipeline.State()), x, pipeline.State())
        && Handled(outcome, x, Emitted(pipeline.State(), x), Found(pipeline.State()), encode, accept)
    {
      var n := NextNumber();
      outcome := Handle(img, FrameMeta(streamID, n, ts, 0), encode, accept);
      Log(outcome);
    }
  }
}
