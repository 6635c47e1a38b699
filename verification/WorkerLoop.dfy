/** The worker's restart loop as a step machine.

    The worker alternates between starting ffmpeg, reading frames until the pipe ends
    and waiting for the process. Cancellation is asynchronous: it may arrive between any
    two steps. How each external action ends is open.
 */
module WorkerLoop {
  import opened DecoderWorkers

  /** Where the worker stands. The three checks and actions of `Run` come first, then
      those of the read loop. */
  datatype Place =
    | TopCheck      // about to look for cancellation at the top of Run
    | Launch        // creating the pipe and starting ffmpeg
    | LoopCheck     // about to look for cancellation at the top of the read loop
    | Reading       // inside ReadFrame
    | Processing    // inside processFrame
    | Waiting       // waiting for ffmpeg to exit
    | Returned

  datatype Worker = Worker(
    place: Place,
    cancelled: bool,
    seqNum: nat,
    log: seq<Outcome>,     // outcomes of the frames processed so far
    begunLate: nat,        // frames whose processing began after the cancellation
    sessions: nat,         // ffmpeg processes started
    attempt: nat)          // of the backoff: starts that failed since the last one that succeeded

  const FRESH := Worker(TopCheck, false, 0, [], 0, 0, 0)

  /** A step of the worker itself. */
  ghost predicate Moves(w: Worker, w': Worker) {
    match w.place
    case TopCheck => w' == w.(place := if w.cancelled then Returned else Launch)
    case Launch =>
      || w' == w.(place := Returned, cancelled := true)                    // no pipe
      || w' == w.(place := TopCheck, attempt := w.attempt + 1)             // start failed, slept
      || w' == w.(place := LoopCheck, sessions := w.sessions + 1, attempt := 0)
    case LoopCheck => w' == w.(place := if w.cancelled then Waiting else Reading)
    case Reading =>
      || w' == w.(place := Waiting)                                        // end of stream or error
      || w' == w.(place := Processing, seqNum := w.seqNum + 1,
                  begunLate := w.begunLate + if w.cancelled then 1 else 0)
    case Processing =>
      exists outcome :: Possible(outcome, w.seqNum) && w' == w.(place := LoopCheck, log := w.log + [outcome])
    case Waiting => w' == w.(place := TopCheck)
    case Returned => false
  }

  /** Stop, from another goroutine. */
  ghost predicate Cancels(w: Worker, w': Worker) {
    w' == w.(cancelled := true)
  }

  ghost predicate Next(w: Worker, w': Worker) {
    Moves(w, w') || Cancels(w, w')
  }

  ghost predicate Run(ws: seq<Worker>) {
    |ws| > 0 && ws[0] == FRESH && forall i :: 0 <= i < |ws| - 1 ==> Next(ws[i], ws[i + 1])
  }

  /** What holds in every reachable state. */
  ghost predicate Invariant(w: Worker) {
    && w.seqNum == |w.log| + (if w.place == Processing then 1 else 0)
    && Numbered(w.log)
    && w.begunLate <= 1
    && (!w.cancelled ==> w.begunLate == 0)
    && (w.place == Reading ==> w.begunLate == 0)
    && (w.place == Returned ==> w.cancelled)
  }

  lemma StepKeepsInvariant(w: Worker, w': Worker)
    requires Invariant(w) && Next(w, w')
    ensures Invariant(w')
  {
  }

  lemma {:induction false} AlwaysInvariant(ws: seq<Worker>, k: nat)
    requires Run(ws) && k < |ws|
    ensures Invariant(ws[k])
  {
    if k > 0 {
      AlwaysInvariant(ws, k - 1);
      StepKeepsInvariant(ws[k - 1], ws[k]);
    }
  }

  /** Across all restarts the emitted sequence numbers are strictly increasing, and
      outside processFrame the counter is the number of emitted, filtered and failed
      frames. */
  lemma NumbersAcrossRestarts(ws: seq<Worker>, k: nat)
    requires Run(ws) && k < |ws|
    ensures var w := ws[k]; var t := Count(w.log); var ns := WrittenNumbers(w.log);
      && (w.place != Processing ==> w.seqNum == t.emitted + t.filtered + t.failed)
      && |ns| == t.emitted
      && (forall i, j :: 0 <= i < j < |ns| ==> ns[i] < ns[j])
      && (forall i :: 0 <= i < |ns| ==> 1 <= ns[i] <= w.seqNum)
  {
    AlwaysInvariant(ws, k);
    EveryFrameCounted(ws[k].log);
    NumbersIncrease(ws[k].log);
  }

  /** After the cancellation at most one further frame begins to be processed. */
  lemma OneFrameAfterCancel(ws: seq<Worker>, j: nat, k: nat)
    requires Run(ws) && j <= k < |ws| && ws[j].cancelled
    ensures ws[k].cancelled && ws[k].seqNum <= ws[j].seqNum + 1
  {
    LateFramesCounted(ws, j, k);
    AlwaysInvariant(ws, j);
    AlwaysInvariant(ws, k);
  }

  lemma {:induction false} LateFramesCounted(ws: seq<Worker>, j: nat, k: nat)
    requires Run(ws) && j <= k < |ws| && ws[j].cancelled
    ensures ws[k].cancelled
    ensures ws[k].seqNum - ws[j].seqNum == ws[k].begunLate - ws[j].begunLate
  {
    if j < k {
      LateFramesCounted(ws, j, k - 1);
      assert Next(ws[k - 1], ws[k]);
    }
  }

  /** How many steps of its own a cancelled worker still has. */
  function StepsLeft(w: Worker): nat {
    match w.place
    case Returned => 0
    case TopCheck => 1
    case Waiting => 2
    case LoopCheck => 3
    case Processing => 4
    case Launch => 4
    case Reading => 5
  }

  lemma CancelledStep(w: Worker, w': Worker)
    requires w.cancelled && Next(w, w')
    ensures w'.cancelled && (w' == w || StepsLeft(w') < StepsLeft(w) <= 5)
  {
  }

  /** The steps the worker itself takes between the j-th and the k-th state; repeated
      cancellations change nothing. */
  function OwnSteps(ws: seq<Worker>, j: nat, k: nat): nat
    requires j <= k < |ws|
  {
    if j == k then 0 else OwnSteps(ws, j, k - 1) + if ws[k] == ws[k - 1] then 0 else 1
  }

  /** A cancelled worker winds down: it takes at most five more steps of its own, and
      after the last of them it has returned. */
  lemma {:induction false} CancelledWorkerWindsDown(ws: seq<Worker>, j: nat, k: nat)
    requires Run(ws) && j <= k < |ws| && ws[j].cancelled
    ensures ws[k].cancelled && OwnSteps(ws, j, k) + StepsLeft(ws[k]) <= StepsLeft(ws[j]) <= 5
    ensures OwnSteps(ws, j, k) == 5 ==> ws[k].place == Returned
  {
    if j < k {
      CancelledWorkerWindsDown(ws, j, k - 1);
      CancelledStep(ws[k - 1], ws[k]);
    }
  }

  /** Only a returned worker is stuck: restarting never ends on its own. */
  lemma OnlyReturnedStops(w: Worker)
    ensures (exists w' :: Moves(w, w')) <==> w.place != Returned
  {
    if w.place == Processing {
      assert Possible(Filtered, w.seqNum);
      assert Moves(w, w.(place := LoopCheck, log := w.log + [Filtered]));
    } else if w.place == Launch {
      assert Moves(w, w.(place := TopCheck, attempt := w.attempt + 1));
    } else if w.place == Reading {
      assert Moves(w, w.(place := Waiting));
    } else if w.place == TopCheck {
      assert Moves(w, w.(place := if w.cancelled then Returned else Launch));
    } else if w.place == LoopCheck {
      assert Moves(w, w.(place := if w.cancelled then Waiting else Reading));
    } else if w.place == Waiting {
      assert Moves(w, w.(place := TopCheck));
    }
  }

  // ---------- restarts ----------

  /** A run whose steps are all the worker's own. */
  ghost predicate OwnRun(ws: seq<Worker>) {
    |ws| > 0 && ws[0] == FRESH && forall i :: 0 <= i < |ws| - 1 ==> Moves(ws[i], ws[i + 1])
  }

  lemma OwnRunIsRun(ws: seq<Worker>)
    requires OwnRun(ws)
    ensures Run(ws)
  {
  }

  /** A worker that was not cancelled returns only where the pipe cannot be created. */
  lemma ReturnsOnlyWithoutPipe(ws: seq<Worker>, k: nat)
    requires Run(ws) && k + 1 < |ws|
    requires ws[k].place != Returned && ws[k + 1].place == Returned
    ensures ws[k].cancelled || ws[k].place == Launch
  {
    assert Next(ws[k], ws[k + 1]);
  }

  /** After ffmpeg has exited, a worker that was not cancelled is about to start it again two
      steps later, with its count of frames unchanged. */
  lemma WaitingLeadsToLaunch(ws: seq<Worker>, k: nat)
    requires OwnRun(ws) && k + 2 < |ws| && ws[k].place == Waiting && !ws[k].cancelled
    ensures ws[k + 2] == ws[k].(place := Launch)
  {
    assert Moves(ws[k], ws[k + 1]) && Moves(ws[k + 1], ws[k + 2]);
  }

  /** A session begins exactly where ffmpeg was started, and then frames are read. */
  lemma SessionsBeginAtLaunch(ws: seq<Worker>, k: nat)
    requires Run(ws) && k + 1 < |ws|
    ensures ws[k].sessions <= ws[k + 1].sessions <= ws[k].sessions + 1
    ensures ws[k + 1].sessions > ws[k].sessions ==> ws[k].place == Launch && ws[k + 1].place == LoopCheck
  {
    assert Next(ws[k], ws[k + 1]);
  }

  /** The starts of ffmpeg that failed since the last one that succeeded. */
  function FailuresInRow(ws: seq<Worker>, k: nat): nat
    requires k < |ws|
  {
    if k == 0 then 0
    else if ws[k - 1].place == Launch && ws[k].place == LoopCheck then 0
    else FailuresInRow(ws, k - 1) + if ws[k - 1].place == Launch && ws[k].place == TopCheck then 1 else 0
  }

  /** The backoff counts failed starts in a row, so the wait after a failure is the delay for
      the failures before it. */
  lemma {:induction false} AttemptCountsFailures(ws: seq<Worker>, k: nat)
    requires Run(ws) && k < |ws|
    ensures ws[k].attempt == FailuresInRow(ws, k)
  {
    if k > 0 {
      AttemptCountsFailures(ws, k - 1);
      assert Next(ws[k - 1], ws[k]);
    }
  }

  lemma OneMore(ws: seq<Worker>, w: Worker) returns (more: seq<Worker>)
    requires OwnRun(ws) && Moves(ws[|ws| - 1], w)
    ensures OwnRun(more) && more[|more| - 1] == w
  {
    more := ws + [w];
  }

  function Sum(counts: seq<nat>): nat {
    if counts == [] then 0 else Sum(counts[..|counts| - 1]) + counts[|counts| - 1]
  }

  /** A session can deliver any number of frames. */
  lemma {:induction false} FramesReach(ws: seq<Worker>, n: nat) returns (more: seq<Worker>)
    requires OwnRun(ws) && ws[|ws| - 1].place == LoopCheck && !ws[|ws| - 1].cancelled
    ensures OwnRun(more) && var w, w' := ws[|ws| - 1], more[|more| - 1];
      w' == w.(seqNum := w.seqNum + n, log := w'.log) && |w'.log| == |w.log| + n
  {
    more := ws;
    if n > 0 {
      more := FramesReach(ws, n - 1);
      var w := more[|more| - 1];
      more := OneMore(more, w.(place := Reading));
      more := OneMore(more, w.(place := Processing, seqNum := w.seqNum + 1));
      assert Possible(Filtered, w.seqNum + 1);
      more := OneMore(more, w.(place := LoopCheck, seqNum := w.seqNum + 1, log := w.log + [Filtered]));
    }
  }

  /** There is no bound on restarts: whatever numbers of frames successive ffmpeg processes
      deliver, some run of a worker nobody cancels goes through all of them, counting on. */
  lemma {:induction false} AnySessionsOccur(counts: seq<nat>) returns (ws: seq<Worker>)
    ensures OwnRun(ws) && var w := ws[|ws| - 1];
      && w.place == TopCheck && !w.cancelled && w.sessions == |counts|
      && w.seqNum == |w.log| == Sum(counts)
  {
    if counts == [] {
      ws := [FRESH];
    } else {
      ws := AnySessionsOccur(counts[..|counts| - 1]);
      var w := ws[|ws| - 1];
      ws := OneMore(ws, w.(place := Launch));
      ws := OneMore(ws, w.(place := LoopCheck, sessions := w.sessions + 1, attempt := 0));
      ws := FramesReach(ws, counts[|counts| - 1]);
      w := ws[|ws| - 1];
      ws := OneMore(ws, w.(place := Reading));
      ws := OneMore(ws, w.(place := Waiting));
      ws := OneMore(ws, w.(place := TopCheck));
    }
  }
}
