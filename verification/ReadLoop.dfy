/** The read loop from the bytes in ffmpeg's pipe to the messages written. */
module ReadLoops {
  import opened Images
  import opened Options
  import opened Filters
  import opened PipelineSpec
  import opened RawVideo
  import opened DecoderWorkers
  import opened WorkerLoop

  // ---------- the specification ----------

  /** What surrounds a read loop: the identity of the stream, the clock, the encoder and
      the writer. */
  datatype Session = Session(streamID: string, clock: nat -> int,
                             encode: FilteredFrame -> Option<seq<Byte>>, accept: OutputFrame -> bool)

  /** A worker at one moment. */
  datatype Snapshot = Snapshot(seqNum: int, log: seq<Outcome>, pipeline: seq<FilterState>)

  /** A frame as it enters the pipeline: decoded, numbered and stamped. */
  function Input(streamID: string, n: int, ts: int, frame: RawFrame): FilteredFrame {
    FilteredFrame(AsImage(frame), FrameMeta(streamID, n, ts, 0), Exactly(0.0))
  }

  /** The frames of one session enter with consecutive numbers from `first` + 1. */
  function Inputs(s: Session, first: int, frames: seq<RawFrame>): (xs: seq<FilteredFrame>)
    ensures |xs| == |frames|
  {
    seq(|frames|, i requires 0 <= i < |frames| => Input(s.streamID, first + 1 + i, s.clock(i), frames[i]))
  }

  lemma InputsSnoc(s: Session, first: int, frames: seq<RawFrame>, frame: RawFrame)
    ensures Inputs(s, first, frames + [frame]) ==
            Inputs(s, first, frames) + [Input(s.streamID, first + |frames| + 1, s.clock(|frames|), frame)]
  {
  }

  /** The fate that the pipeline, the encoder and the writer give a frame. */
  ghost predicate Fate(s: Session, outcome: Outcome, x: FilteredFrame, after: seq<FilterState>) {
    Handled(outcome, x, Emitted(after, x), Found(after), s.encode, s.accept)
  }

  /** The pipeline goes through `states` on the frames, and each frame meets its fate. */
  ghost predicate Serves(s: Session, start: seq<FilterState>, xs: seq<FilteredFrame>, states: seq<seq<FilterState>>,
                         outcomes: seq<Outcome>) {
    && Stream(start, xs, states) && |outcomes| == |xs|
    && forall i :: 0 <= i < |xs| ==> Fate(s, outcomes[i], xs[i], states[i + 1])
  }

  /** One frame takes the worker from one moment to another. */
  ghost predicate ServesOne(s: Session, before: Snapshot, frame: RawFrame, ts: int, outcome: Outcome, after: Snapshot) {
    var x := Input(s.streamID, after.seqNum, ts, frame);
    && after.seqNum == before.seqNum + 1 && after.log == before.log + [outcome]
    && Processes(before.pipeline, x, after.pipeline) && Fate(s, outcome, x, after.pipeline)
  }

  /** The frames `done` take the worker from one moment to another. */
  ghost predicate Reached(s: Session, before: Snapshot, done: seq<RawFrame>, states: seq<seq<FilterState>>,
                          outcomes: seq<Outcome>, now: Snapshot) {
    && now.seqNum == before.seqNum + |done| && now.log == before.log + outcomes
    && Serves(s, before.pipeline, Inputs(s, before.seqNum, done), states, outcomes)
    && states[|done|] == now.pipeline
  }

  lemma ReachedSnoc(s: Session, before: Snapshot, done: seq<RawFrame>, states: seq<seq<FilterState>>,
                    outcomes: seq<Outcome>, now: Snapshot, frame: RawFrame, outcome: Outcome, next: Snapshot)
    requires Reached(s, before, done, states, outcomes, now)
    requires ServesOne(s, now, frame, s.clock(|done|), outcome, next)
    ensures Reached(s, before, done + [frame], states + [next.pipeline], outcomes + [outcome], next)
  {
    var x := Input(s.streamID, next.seqNum, s.clock(|done|), frame);
    InputsSnoc(s, before.seqNum, done, frame);
    StreamSnoc(before.pipeline, Inputs(s, before.seqNum, done), states, x, next.pipeline);
  }

  lemma WrittenCarriesInput(s: Session, outcome: Outcome, x: FilteredFrame, after: seq<FilterState>)
    requires Fate(s, outcome, x, after) && outcome.Written?
    ensures Emitted(after, x).Some?
    ensures Carries(outcome.frame, x.(score := outcome.frame.quality), Found(after), s.encode)
  {
    EmitsInput(after, x);
    assert Emitted(after, x).value == x.(score := outcome.frame.quality);
  }

  /** Every message written carries the encoding of the frame it was cut from, that
      frame's number and time, and the detections made with it. */
  lemma WrittenCarriesFrame(s: Session, before: Snapshot, frames: seq<RawFrame>, states: seq<seq<FilterState>>,
                            outcomes: seq<Outcome>, now: Snapshot, i: nat)
    requires Reached(s, before, frames, states, outcomes, now) && i < |frames| && outcomes[i].Written?
    ensures var message := outcomes[i].frame; var n := before.seqNum + 1 + i;
      && message.streamID == s.streamID && message.seqNum == n && message.timestamp == s.clock(i)
      && Some(message.imageData) ==
         s.encode(Input(s.streamID, n, s.clock(i), frames[i]).(score := message.quality))
      && message.detections == if |Found(states[i + 1])| > 0 then Some(Found(states[i + 1])) else None
  {
    var x := Input(s.streamID, before.seqNum + 1 + i, s.clock(i), frames[i]);
    assert Inputs(s, before.seqNum, frames)[i] == x;
    WrittenCarriesInput(s, outcomes[i], x, states[i + 1]);
  }

  // ---------- the loop ----------

  /** Whether the pipeline accepts an image depends on its size alone. */
  lemma AcceptsBySize(worker: DecoderWorker, reader: RawVideoReader, frame: RawFrame)
    requires worker.pipeline.Accepts(AsImage(RawFrame(reader.width, reader.height, [])))
    requires frame.width == reader.width && frame.height == reader.height
    ensures worker.pipeline.Accepts(AsImage(frame))
  {
  }

  /** What the loop owns and needs. */
  ghost predicate Ready(worker: DecoderWorker, reader: RawVideoReader, pipe: Pipe)
    reads worker, worker.pipeline, worker.pipeline.Anchors(), worker.pipeline.Repr
  {
    && reader.Valid() && 0 < reader.frameSize
    && worker.Numbers() && worker.pipeline.Valid()
    && worker !in worker.pipeline.Repr && pipe !in worker.pipeline.Repr
    && worker.pipeline.Accepts(AsImage(RawFrame(reader.width, reader.height, [])))
  }

  ghost function Now(worker: DecoderWorker): Snapshot
    reads worker, worker.pipeline.Anchors()
  {
    Snapshot(worker.seqNum, worker.log, worker.pipeline.State())
  }

  /** The frames still in the pipe. */
  ghost function Pending(reader: RawVideoReader, pipe: Pipe): seq<RawFrame>
    requires reader.Valid() && 0 < reader.frameSize
    reads pipe
  {
    Frames(reader.width, reader.height, reader.frameSize, pipe.unread)
  }

  /** Read one frame; the worker is not concerned. */
  method Fetch(worker: DecoderWorker, reader: RawVideoReader, pipe: Pipe) returns (frame: Option<RawFrame>)
    requires Ready(worker, reader, pipe)
    modifies pipe
    ensures Ready(worker, reader, pipe) && Now(worker) == old(Now(worker))
    ensures frame.Some? <==> |old(Pending(reader, pipe))| > 0
    ensures frame.Some? ==> old(Pending(reader, pipe)) == [frame.value] + Pending(reader, pipe)
    ensures frame.Some? ==> frame.value.width == reader.width && frame.value.height == reader.height
    ensures frame == None ==> pipe.unread == []
  {
    worker.pipeline.AnchorsOwned();
    frame := reader.ReadFrame(pipe);
  }

  /** Process one frame; the pipe is not concerned. */
  method Serve(worker: DecoderWorker, reader: RawVideoReader, ghost pipe: Pipe, frame: RawFrame, ts: int, s: Session)
    returns (ghost outcome: Outcome)
    requires Ready(worker, reader, pipe) && s.streamID == worker.streamID
    requires frame.width == reader.width && frame.height == reader.height
    modifies worker, worker.pipeline`Repr, worker.pipeline.Repr
    ensures Ready(worker, reader, pipe) && fresh(worker.pipeline.Repr - old(worker.pipeline.Repr))
    ensures pipe.unread == old(pipe.unread)
    ensures ServesOne(s, old(Now(worker)), frame, ts, outcome, Now(worker))
  {
    AcceptsBySize(worker, reader, frame);
    outcome := worker.ProcessFrame(AsImage(frame), ts, s.encode, s.accept);
  }

  /** One round of the loop, after the check for cancellation. */
  method Round(worker: DecoderWorker, reader: RawVideoReader, pipe: Pipe, ts: int, s: Session,
               ghost before: Snapshot, ghost done: seq<RawFrame>,
               ghost states: seq<seq<FilterState>>, ghost outcomes: seq<Outcome>)
    returns (frame: Option<RawFrame>, ghost states': seq<seq<FilterState>>, ghost outcomes': seq<Outcome>)
    requires Ready(worker, reader, pipe) && s.streamID == worker.streamID && ts == s.clock(|done|)
    requires Reached(s, before, done, states, outcomes, Now(worker))
    modifies worker, worker.pipeline`Repr, worker.pipeline.Repr, pipe
    ensures Ready(worker, reader, pipe) && fresh(worker.pipeline.Repr - old(worker.pipeline.Repr))
    ensures frame == None ==> old(Pending(reader, pipe)) == [] && pipe.unread == []
    ensures frame.Some? ==> old(Pending(reader, pipe)) == [frame.value] + Pending(reader, pipe)
    ensures Reached(s, before, if frame == None then done else done + [frame.value], states', outcomes', Now(worker))
  {
    frame := Fetch(worker, reader, pipe);
    states', outcomes' := states, outcomes;
    if frame.Some? {
      ghost var now := Now(worker);
      ghost var outcome := Serve(worker, reader, pipe, frame.value, ts, s);
      ReachedSnoc(s, before, done, states, outcomes, now, frame.value, outcome, Now(worker));
      states', outcomes' := states + [Now(worker).pipeline], outcomes + [outcome];
    }
  }

  /** The read loop; `cancelled` answers its checks for cancellation. It processes the
      frames of the stream one after the other until the first check that finds the
      worker cancelled, or to the end of the stream. */
  method ReadLoop(worker: DecoderWorker, reader: RawVideoReader, pipe: Pipe, cancelled: nat -> bool, s: Session)
    returns (ghost n: nat, ghost states: seq<seq<FilterState>>, ghost outcomes: seq<Outcome>)
    requires Ready(worker, reader, pipe) && s.streamID == worker.streamID
    modifies worker, worker.pipeline`Repr, worker.pipeline.Repr, pipe
    ensures Ready(worker, reader, pipe)
    ensures n <= |old(Pending(reader, pipe))| && forall i: nat :: i < n ==> !cancelled(i)
    ensures cancelled(n) || (n == |old(Pending(reader, pipe))| && pipe.unread == [])
    ensures Reached(s, old(Now(worker)), old(Pending(reader, pipe))[..n], states, outcomes, Now(worker))
  {
    ghost var all, before := Pending(reader, pipe), Now(worker);
    var i := 0;
    n, states, outcomes := 0, [before.pipeline], [];
    while true
      invariant i == n <= |all| && Pending(reader, pipe) == all[n..]
      invariant forall k: nat :: k < n ==> !cancelled(k)
      invariant Ready(worker, reader, pipe) && fresh(worker.pipeline.Repr - old(worker.pipeline.Repr))
      invariant Reached(s, before, all[..n], states, outcomes, Now(worker))
      decreases |all| - n
    {
      if cancelled(i) {
        return;
      }
      var frame;
      frame, states, outcomes := Round(worker, reader, pipe, s.clock(i), s, before, all[..n], states, outcomes);
      if frame == None {
        return;
      }
      assert all[..n + 1] == all[..n] + [frame.value] && all[n + 1..] == all[n..][1..];
      i, n := i + 1, n + 1;
    }
  }

  // ---------- the loop in the step machine ----------

  ghost predicate Path(ws: seq<Worker>) {
    |ws| > 0 && forall i :: 0 <= i < |ws| - 1 ==> Next(ws[i], ws[i + 1])
  }

  /** The worker after the given outcomes, at another place. */
  function Later(w: Worker, outcomes: seq<Outcome>, place: Place): Worker {
    w.(place := place, seqNum := w.seqNum + |outcomes|, log := w.log + outcomes)
  }

  /** One frame is two moves: the number is taken, then the outcome logged. */
  lemma FrameIsTwoMoves(w: Worker, outcome: Outcome)
    requires w.place == Reading && !w.cancelled && Possible(outcome, w.seqNum + 1)
    ensures Path([w, w.(place := Processing, seqNum := w.seqNum + 1), Later(w, [outcome], LoopCheck)])
  {
  }

  lemma Join(a: seq<Worker>, b: seq<Worker>)
    requires Path(a) && Path(b) && a[|a| - 1] == b[0]
    ensures Path(a + b[1..]) && (a + b[1..])[0] == a[0] && (a + b[1..])[|a + b[1..]| - 1] == b[|b| - 1]
  {
  }

  /** Processing the frames one after the other is a path of the step machine. */
  lemma {:induction false} FramesArePath(w: Worker, outcomes: seq<Outcome>) returns (ws: seq<Worker>)
    requires w.place == LoopCheck && !w.cancelled
    requires forall i :: 0 <= i < |outcomes| ==> Possible(outcomes[i], w.seqNum + 1 + i)
    ensures Path(ws) && ws[0] == w && ws[|ws| - 1] == Later(w, outcomes, LoopCheck)
  {
    if outcomes == [] {
      ws := [w];
    } else {
      var n := |outcomes| - 1;
      ws := FramesArePath(w, outcomes[..n]);
      var now := Later(w, outcomes[..n], LoopCheck);
      var reading := now.(place := Reading);
      FrameIsTwoMoves(reading, outcomes[n]);
      Join(ws, [now, reading]);
      ws := ws + [now, reading][1..];
      var frame := [reading, reading.(place := Processing, seqNum := reading.seqNum + 1),
                    Later(reading, [outcomes[n]], LoopCheck)];
      Join(ws, frame);
      ws := ws + frame[1..];
      assert outcomes == outcomes[..n] + [outcomes[n]];
    }
  }

  /** From the check at the top of the loop to waiting for ffmpeg. */
  lemma LoopEnds(w: Worker, cancelled: bool) returns (ws: seq<Worker>)
    requires w.place == LoopCheck && !w.cancelled
    ensures Path(ws) && ws[0] == w && ws[|ws| - 1] == w.(place := Waiting, cancelled := cancelled)
  {
    var between := if cancelled then w.(cancelled := true) else w.(place := Reading);
    var end := w.(place := Waiting, cancelled := cancelled);
    assert Next(w, between) && Next(between, end);
    ws := [w, between, end];
  }

  lemma FateIsPossible(s: Session, outcome: Outcome, x: FilteredFrame, after: seq<FilterState>)
    requires Fate(s, outcome, x, after)
    ensures Possible(outcome, x.meta.seqNum)
  {
    HandledIsPossible(outcome, x, Emitted(after, x), Found(after), s.encode, s.accept);
  }

  lemma InputNumber(s: Session, first: int, frames: seq<RawFrame>, i: nat)
    requires i < |frames|
    ensures Inputs(s, first, frames)[i].meta.seqNum == first + 1 + i
  {
    assert Inputs(s, first, frames)[i] == Input(s.streamID, first + 1 + i, s.clock(i), frames[i]);
  }

  lemma OutcomesPossible(s: Session, before: Snapshot, done: seq<RawFrame>, states: seq<seq<FilterState>>,
                         outcomes: seq<Outcome>, now: Snapshot, i: nat)
    requires Reached(s, before, done, states, outcomes, now) && i < |outcomes|
    ensures Possible(outcomes[i], before.seqNum + 1 + i)
  {
    InputNumber(s, before.seqNum, done, i);
    FateIsPossible(s, outcomes[i], Inputs(s, before.seqNum, done)[i], states[i + 1]);
  }

  /** What the read loop does to a worker is a path of the step machine, from the first
      check to waiting for ffmpeg, whether it ends by cancellation or by a failed read. */
  lemma ReadLoopIsPath(w: Worker, s: Session, before: Snapshot, done: seq<RawFrame>, states: seq<seq<FilterState>>,
                       outcomes: seq<Outcome>, now: Snapshot, cancelled: bool) returns (ws: seq<Worker>)
    requires w.place == LoopCheck && !w.cancelled && w.seqNum == before.seqNum && w.log == before.log
    requires Reached(s, before, done, states, outcomes, now)
    ensures now.seqNum >= 0
    ensures Path(ws) && ws[0] == w
    ensures ws[|ws| - 1] == w.(place := Waiting, cancelled := cancelled, seqNum := now.seqNum, log := now.log)
  {
    forall i | 0 <= i < |outcomes|
      ensures Possible(outcomes[i], w.seqNum + 1 + i)
    {
      OutcomesPossible(s, before, done, states, outcomes, now, i);
    }
    ws := FramesArePath(w, outcomes);
    var ending := LoopEnds(Later(w, outcomes, LoopCheck), cancelled);
    Join(ws, ending);
    ws := ws + ending[1..];
  }
}
