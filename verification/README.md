# Video stream capture engine: a verified model of the frame path

This project models the per-stream frame path of the capture engine and proves
what it guarantees: cutting a byte pipe into frames, filtering frames, tracking
faces across frames, numbering and emitting frames across ffmpeg restarts, and
starting and stopping many streams under a semaphore.

| files | part of the engine |
|---|---|
| `Rectangles.dfy`, `Tracking.dfy`, `TrackHistory.dfy`, `TrackOptimality.dfy`, `TrackWitnesses.dfy`, `TrackManager.dfy` | the IoU track manager |
| `MotionGate.dfy`, `FaceTracker.dfy` | the face tracker: motion gate, subsampling, detection cache |
| `RowMajor.dfy`, `BlurFilter.dfy` | the Laplacian blur filter |
| `Bits.dfy`, `DuplicateRuns.dfy`, `DuplicateFilter.dfy` | the difference-hash duplicate filter |
| `Chains.dfy`, `Filter.dfy`, `Pipeline.dfy`, `FilterPipeline.dfy`, `PipelineBuild.dfy`, `PipelineBuilder.dfy` | the filter pipeline and its construction from configuration |
| `RawVideo.dfy`, `Worker.dfy`, `WorkerLoop.dfy`, `ReadLoop.dfy`, `Backoff.dfy` | the decoder worker |
| `StreamSession.dfy` | one ffmpeg session of a configured stream, end to end |
| `StreamManager.dfy` | the stream manager |
| `Sets.dfy`, `Options.dfy`, `Images.dfy` | shared vocabulary |

Code that updates objects is modelled by classes whose methods are proved against
functions and relations on values; the theorems are lemmas about those. Go's map
iteration order is an arbitrary pick, so a call of the track manager is a relation:
its outcome is the sequence of identities it hands out, which determines the rest.
Foreign code enters as functions: the gray conversion and the cascade classifier
(`Vision`), the JPEG encoder and the output writer (arguments of `ProcessFrame` and `ReadLoop`).
Goroutines are step machines. IoU, gray levels, spreads and delays are exact.

What the proofs bring out beyond the intended behaviour:

- A track opened in a call may be claimed by a later detection of the same call, so two
  overlapping detections can share an identity (`Tracking.SharedIdentity`). On a manager
  without tracks the identities of a call are distinct exactly when its detections
  overlap pairwise by at most the threshold (`Tracking.DistinctIffApart`), and they are
  distinct whatever the manager holds under the same condition
  (`TrackOptimality.SurelyDistinctIffApart`).
- A newly opened track can lure a later detection away from an old one. Where no
  detection can be lured away from a held track, the matching is maximal, keeps at least
  half the identities any assignment could keep and is lexicographically optimal
  (`TrackOptimality.GreedyIsMaximal`, `TrackOptimality.GreedyKeepsHalf`,
  `TrackOptimality.GreedyIsLexOptimal`). For two detections half is sure to be kept
  exactly if the first cannot lure the second (`TrackWitnesses.PairKeepsHalfIffNoLure`);
  a longer call is free of lures exactly if every two of its detections keep half on
  their own (`TrackWitnesses.PairsKeepHalfIffNoLure`). In every call at most one more
  identity is lost for each lured detection (`TrackOptimality.GreedyLosesAtMost`); runs
  reach both bounds (`TrackWitnesses.HalfIsReached`, `TrackWitnesses.LossOccurs`).
- A new track ages already in the call that opens it (`TrackHistory.BirthNeedsAllowance`).
- Ties make the result of a call depend on map order, and only ties do
  (`TrackOptimality.OrderIrrelevantIffNoTies`, `TrackOptimality.SettledIffNoTies`); runs
  reach ties (`TrackWitnesses.TieOccurs`), and a test on the tracks and detections rules
  them out (`TrackOptimality.NoEqualOverlapsSettles`).
- An image with one side of exactly two pixels has no Laplacian responses; its score is
  0/0, which is not below any threshold. Such images, and no others that can be
  measured, pass the blur filter at every threshold
  (`BlurFilters.PassesAlwaysIffSideOfTwo`, `BlurFilters.BlackStripPasses`). With one side
  below two and the other above, the number of responses is negative, so the code fails
  at the allocation (`BlurFilters.UnmeasurableSizes`).
- A number in the configuration reaches a filter only if it is written in the form the
  manager looks for: a whole-number blur threshold is ignored unless it is the default
  (`PipelineBuild.BlurThresholdHonoured`), and each setting of the face tracker insists on
  one form likewise (`PipelineBuild.FaceSettings`).
- The design document describes `max_concurrent_starts` as a limit on simultaneous
  starts. In the code a slot is held until the stream's worker ends, so it limits
  running streams (`StreamManagers.LimitBoundsRunning`); all streams can run together
  exactly if the limit is no smaller than their number
  (`StreamManagers.AllRunIffLimitSuffices`). The model follows the code.
- Stop cancels the workers on file, and a worker registered under a known identity takes
  the place of the other. Stop is sure to cancel every running worker exactly if the
  configured identities are distinct or the limit lets only one stream run
  (`StreamManagers.StopCancelsRunningIff`); the configuration check enforces neither. Over
  whole runs a worker is cancelled exactly if a Stop came after its registration, with no
  registration under its identity in between (`StreamManagers.CancelledIff`); one
  registered after the last Stop escapes (`StreamManagers.LateWorkerEscapes`).
- After a failure the worker waits exactly while the unrounded delay is at least a
  nanosecond and fits 64 bits, or where the platform converts a larger one to a positive
  number (`Backoff.WaitsIffFits`). It waits after every failure exactly if the factor is
  one, or above one on such a platform (`Backoff.AlwaysWaitsIff`).

## Model

| member | source | states |
|---|---|---|
| Rectangles.AreaCountsPixels | internal/tracker/iou.go:18-23 | area is the number of pixels a rectangle covers, 0 when empty |
| Rectangles.IouIsJaccard | internal/tracker/iou.go:5-16 | IoU is the Jaccard index of the two pixel sets; the zero-union branch is dead once the intersection is non-empty |
| Rectangles.IouOneIffSame | internal/tracker/iou.go:5-16 | IoU is 1 exactly for a non-empty rectangle and itself |
| Rectangles.IouSymmetric | internal/tracker/iou.go:5-16 | IoU is symmetric |
| Rectangles.IouTriangle | internal/tracker/iou.go:5-16 | 1 - IoU satisfies the triangle inequality for all rectangles |
| Rectangles.ScoreFitsInt64 | internal/tracker/iou.go:10-11 | with coordinates below 2^30 no intermediate value leaves 64 bits |
| Tracking.AssignDetermined | internal/tracker/iou.go:50-73 | after any part of a call, the tracks, the claimed set, box and age of each track are functions of the old state and the identities handed out; an old identity goes to at most one detection, a new one to at most two |
| Tracking.SharedIdentity | internal/tracker/iou.go:63-72 | two detections of a call share an identity only if the earlier one opened it and they overlap beyond the threshold, and never a third |
| Tracking.DistinctIdentities | internal/tracker/iou.go:50-73 | detections pairwise at or below the threshold get distinct identities, whatever the manager holds |
| Tracking.DistinctIffApart | internal/tracker/iou.go:50-73 | on a manager without tracks the identities of a call are distinct exactly when the detections are pairwise at or below the threshold |
| TrackOptimality.SurelyDistinctIffApart | internal/tracker/iou.go:47-73 | the identities are distinct for every held state and map order exactly when the detections are pairwise at or below the threshold |
| TrackHistory.HistoryDeterminesState | internal/tracker/iou.go:47-86 | after every run the manager holds exactly the tracks prescribed by the history of returned identities, with their last boxes and ages; the identities ever returned are exactly 1 .. nextID-1 |
| TrackHistory.StandsAtLastDetection | internal/tracker/iou.go:63-71 | after a call, a live identity handed out in it stands at the box of the last detection that got it |
| TrackHistory.LifetimeWindow | internal/tracker/iou.go:75-83 | identities of the last maxLost calls are live, live identities stem from the last maxLost+1 calls |
| TrackHistory.MemoryBound | internal/tracker/iou.go:75-83 | live tracks never exceed the detections of the last maxLost+1 calls |
| TrackHistory.BirthNeedsAllowance | internal/tracker/iou.go:68-83 | a track opened and not claimed again survives its own call exactly if maxLost is at least 1 |
| TrackHistory.ReturnsOnlyWhileLive | internal/tracker/iou.go:53-68 | an identity is returned again only while its track is live |
| TrackHistory.ReappearanceGap | internal/tracker/iou.go:47-86 | consecutive appearances of an identity are at most maxLost+1 calls apart |
| TrackHistory.DeletedStaysDeleted | internal/tracker/iou.go:68-83 | a deleted identity is never returned or held again |
| TrackHistory.IncreasingBirths | internal/tracker/iou.go:68-72 | identities are first handed out in increasing order |
| TrackHistory.CreatedIsLivePlusDeleted | internal/tracker/iou.go:68-83 | tracks created = live tracks + tracks the closing loops of the run deleted |
| TrackOptimality.GreedyIsAssignment | internal/tracker/iou.go:50-68 | a call's result is a one-to-one above-threshold assignment to the old tracks |
| TrackOptimality.ClaimerPrefersOpened | internal/tracker/iou.go:53-68 | a detection that claims a track opened in its own call overlaps the opener at least as much as every old track it could have had |
| TrackOptimality.MaximalButForClaimers | internal/tracker/iou.go:50-68 | in every call, an untaken old track and a detection that opened its own do not overlap beyond the threshold |
| TrackOptimality.ClaimerWasLured | internal/tracker/iou.go:53-68 | a detection that claims a new track although it could have kept a free old one was lured away by the opener |
| TrackOptimality.ApartHasNoLure | internal/tracker/iou.go:50-68 | detections pairwise at or below the threshold lure nobody |
| TrackOptimality.GreedyIsMaximal | internal/tracker/iou.go:50-68 | where no detection can be lured away from a held track the matching to the old tracks is maximal |
| TrackOptimality.GreedyLosesAtMost | internal/tracker/iou.go:50-68 | in every call, no valid assignment keeps more than twice the identities greedy keeps plus the detections lured away from a track nobody took |
| TrackOptimality.GreedyKeepsHalf | internal/tracker/iou.go:50-68 | where no detection can be lured away from a held track greedy keeps at least half as many identities as any valid assignment |
| TrackOptimality.LexOptimalButForClaimers | internal/tracker/iou.go:50-68 | in every call, at the first detection where another assignment departs, greedy's overlap is at least as large unless greedy claimed a new track there |
| TrackOptimality.GreedyIsLexOptimal | internal/tracker/iou.go:50-68 | where no detection can be lured away from a held track greedy is lexicographically optimal |
| TrackWitnesses.PairKeepsHalfIffNoLure | internal/tracker/iou.go:50-73 | two detections are sure to keep half, from every state and in every run, exactly if the first cannot lure the second away from anywhere |
| TrackWitnesses.PairsKeepHalfIffNoLure | internal/tracker/iou.go:50-73 | a call is free of lures exactly if every two of its detections are sure to keep half on their own, and then the whole call is |
| TrackWitnesses.HalfIsReached | internal/tracker/iou.go:50-68 | at the default threshold a run reaches the factor two |
| TrackWitnesses.LossOccurs | internal/tracker/iou.go:68-72 | at the default threshold a run keeps nothing although the lured detection could have kept its track |
| TrackWitnesses.TieOccurs | internal/tracker/iou.go:53-62 | at the default threshold a run leaves two tracks that tie for a detection, and the call may go either way |
| TrackOptimality.EveryOrderChooses | internal/tracker/iou.go:51-62 | every map order makes the selection loop end in a permitted choice |
| TrackOptimality.EveryChoiceHasOrder | internal/tracker/iou.go:51-62 | every permitted choice is reached by some map order |
| TrackOptimality.OrderIrrelevantIffNoTies | internal/tracker/iou.go:53-62 | the outcome of a call is independent of the map order exactly when no detection's best overlap is attained by two unused tracks |
| TrackOptimality.SettledIffNoTies | internal/tracker/iou.go:53-62 | before the call: its outcome is settled exactly when no outcome involves a tie |
| TrackOptimality.NoEqualOverlapsSettles | internal/tracker/iou.go:53-62 | the outcome is settled if no detection overlaps two places a track can stand at equally and beyond the threshold |
| TrackManagers.TrackManager.constructor | internal/tracker/iou.go:38-45 | a new manager is empty, has made no calls, and starts identities at 1 |
| TrackManagers.TrackManager.SelectBest | internal/tracker/iou.go:51-62 | the selection loop returns a best unused track above the threshold, or -1 if there is none |
| TrackManagers.TrackManager.Record | internal/tracker/iou.go:63-72 | claims the track or opens the next one, in place |
| TrackManagers.TrackManager.AgeUnclaimed | internal/tracker/iou.go:75-83 | unclaimed tracks age by one and go when beyond maxLost, whatever the order |
| TrackManagers.TrackManager.Match | internal/tracker/iou.go:47-86 | labels the detections in place and changes nothing else about them; the permitted call that extends the run has exactly their boxes and labels; afterwards each live track handed out stands at the last detection with its identity |
| TrackManagers.TrackManager.HoldsHistory | internal/tracker/iou.go:25-36 | the fields hold the tracks the history of calls prescribes |
| MotionGate.FrameChanged | internal/tracker/face.go:156-177 | true exactly if 100 times the changed samples exceed all samples |
| MotionGate.ChangedExactly | internal/tracker/face.go:156-177 | the decision in terms of pixels: every fourth column of every fourth row, differences above 20, more than one per cent; pixels outside the current frame read as 0 |
| MotionGate.UniformChange | internal/tracker/face.go:161-168 | a frame that differs by d everywhere has changed exactly if d exceeds 20 |
| MotionGate.SampleCount | internal/tracker/face.go:157-172 | the samples number ceil(w/4) * ceil(h/4) |
| MotionGate.UnchangedWhenEqual | internal/tracker/face.go:156-177 | frames equal at the samples count as unchanged |
| MotionGate.ChangedIsSymmetric | internal/tracker/face.go:156-177 | with equal bounds the decision is symmetric |
| FaceTrackers.FaceTrackerConfig.WithDefaults | internal/tracker/face.go:25-45 | all settings are positive afterwards; exactly the positive ones are kept, each other one becomes its default |
| FaceTrackers.FaceTracker.Filter | internal/tracker/face.go:120-135 | keeps the faces above the confidence threshold, in order |
| FaceTrackers.ConfidentSelects | internal/tracker/face.go:120-135 | the faces kept are exactly those whose quality exceeds the minimum, in order, each with kind face, its box and its quality as confidence |
| FaceTrackers.ReportsExactly | internal/tracker/face.go:120-135 | every reported detection is above the minimum, and every face above it is reported |
| FaceTrackers.FaceTracker.Gate | internal/tracker/face.go:84-96 | the classifier is due exactly on multiples of detectEvery with motion or without an earlier detection |
| FaceTrackers.RunsExactlyWhenDue | internal/tracker/face.go:84-96 | over every history the classifier runs on frame n exactly if detectEvery divides n and the frame differs from the one before it or nothing was detected before |
| FaceTrackers.LatestReport | internal/tracker/face.go:120-139 | the current result shows the faces of the latest detection frame with the identities of the latest call |
| FaceTrackers.FaceTracker.Track | internal/tracker/face.go:84-140 | the result is the labelled batch of the latest detection frame in the history, none before the first; on a detection frame it shows exactly the faces above the confidence threshold, and the one call made is about their boxes and gives their identities; on any other frame neither the result nor the track manager changes; every detection reported is above the threshold |
| FaceTrackers.FaceTracker.ReportedIdentitiesLive | internal/tracker/face.go:137-139 | every reported identity belongs to a live track |
| FaceTrackers.DetectionsAreSpaced | internal/tracker/face.go:94-96 | classifier runs are at least detectEvery frames apart |
| FaceTrackers.ExpectedIdentitiesLive | internal/tracker/face.go:137-139 | in every permitted history the identities of the current result are live |
| FaceTrackers.StaticStretch | internal/tracker/face.go:87-91 | over a static stretch after a first detection the result stays the same and the track manager is not called, so no track ages |
| BlurFilters.LaplacianVariance | internal/filter/blur.go:29-77 | the array loops compute the spread of all (w-2)(h-2) Laplacian responses, or 0/0 when there are none |
| BlurFilters.FillGray | internal/filter/blur.go:33-39 | the gray array holds the weighted level of every pixel, row by row |
| BlurFilters.ConvolveAt | internal/filter/blur.go:52-57 | the kernel loops yield the discrete Laplacian |
| BlurFilters.Convolve | internal/filter/blur.go:47-61 | every response slot is filled, with the response of its interior point |
| BlurFilters.ResponseAt | internal/filter/blur.go:47-61 | the response filed for an interior point is its Laplacian |
| BlurFilters.LaplacianOfPixels | internal/filter/blur.go:33-57 | a Laplacian compares the gray level of a pixel with its four neighbours |
| BlurFilters.LumaWeights | internal/filter/blur.go:37 | the gray level weighs the channels 299, 587 and 114 to 1000 |
| BlurFilters.TwoPass | internal/filter/blur.go:63-74 | the two passes compute the mean squared deviation |
| BlurFilters.VarianceFormula | internal/filter/blur.go:63-74 | the two-pass spread times n^2 is n times the sum of squares minus the squared sum |
| BlurFilters.PairSpread | internal/filter/blur.go:63-76 | two responses spread by half their difference |
| BlurFilters.SpotScoresTwenty | internal/filter/blur.go:21-76 | a four by three image, black but for one pixel of level 8, scores 20: dropped at 100, passed at 20 |
| BlurFilters.AffineInvariance | internal/filter/blur.go:41-61 | adding an affine function of x and y to the gray image changes no response |
| BlurFilters.GradientScoresZero | internal/filter/blur.go:29-77 | a pure gradient scores zero |
| BlurFilters.GradientsAreDropped | internal/filter/blur.go:21-27 | an image whose gray levels are affine in x and y is dropped at every threshold |
| BlurFilters.UnscoredIffSideOfTwo | internal/filter/blur.go:47-74 | the score is 0/0 exactly when one side is two pixels |
| BlurFilters.PassesAlwaysIffSideOfTwo | internal/filter/blur.go:21-27 | an image passes at every threshold exactly when one side is two pixels |
| BlurFilters.BlackStripPasses | internal/filter/blur.go:21-27 | a black image two pixels wide passes where a larger one is dropped |
| BlurFilters.UnmeasurableSizes | internal/filter/blur.go:47-48 | the sizes with a negative number of responses have one side below two and the other above |
| BlurFilters.ScoreBound | internal/filter/blur.go:29-77 | the score never exceeds 1020 |
| BlurFilters.BlurFilter.Apply | internal/filter/blur.go:21-27 | drops exactly the frames whose score is below the threshold; 0/0 passes |
| BlurFilters.BelowComparesScores | internal/filter/blur.go:22-25 | an image whose spread is the square of its score is dropped exactly if the score is below the threshold |
| Bits.HammingCounts | internal/filter/duplicate.go:65-67 | the distance is the number of differing bit positions |
| Bits.HammingTriangle | internal/filter/duplicate.go:65-67 | the distance satisfies the triangle inequality |
| Bits.HammingZero | internal/filter/duplicate.go:65-67 | distance zero means equal hashes |
| DuplicateFilters.DHash | internal/filter/duplicate.go:38-63 | the shifting loops compute the 64 comparisons packed into one word, losing none |
| DuplicateFilters.HashBit | internal/filter/duplicate.go:43-58 | bit 63-(8y+x) is the comparison at (x, y) |
| DuplicateFilters.HashBitAt | internal/filter/duplicate.go:43-58 | each bit compares the gray levels of two pixels of one row, in the columns that split the width into ninths and the row that splits the height into eighths |
| DuplicateFilters.NineByEight | internal/filter/duplicate.go:43-58 | on a nine by eight image each bit says whether a pixel outshines its right neighbour |
| DuplicateFilters.FallingAndRising | internal/filter/duplicate.go:38-67 | on nine columns falling levels hash to all ones and rising ones to zero, at distance 64 |
| DuplicateFilters.ContrastPasses | internal/filter/duplicate.go:23-36 | a frame of opposite contrast passes behind the other exactly if the threshold is below 64 |
| DuplicateFilters.HashDetermined | internal/filter/duplicate.go:38-63 | hashes are equal exactly when all 64 comparisons agree |
| DuplicateFilters.SamplesInside | internal/filter/duplicate.go:45-47 | every sample of a non-empty image lies inside it |
| DuplicateFilters.GrayExact | internal/filter/duplicate.go:52-53 | the 32-bit gray sum never wraps |
| DuplicateFilters.HashIgnoresBrightness | internal/filter/duplicate.go:38-63 | adding one unclipped constant to all channels leaves the hash unchanged |
| DuplicateRuns.FirstPasses | internal/filter/duplicate.go:29-35 | the first frame passes |
| DuplicateFilters.PassedDistance | internal/filter/duplicate.go:29-35 | consecutive passed frames are further apart than the threshold |
| DuplicateFilters.DropsAreClose | internal/filter/duplicate.go:29-35 | frames dropped in one gap are within twice the threshold of each other |
| DuplicateFilters.EveryFrameRepresented | internal/filter/duplicate.go:29-35 | every frame is within the threshold of some passed frame |
| DuplicateRuns.PassedIsStable | internal/filter/duplicate.go:23-36 | a fresh filter passes all frames that passed once |
| DuplicateFilters.DuplicateFilter.Apply | internal/filter/duplicate.go:23-36 | drops exactly the repeats of the last passed frame and remembers the history |
| Chains.RunsCompose | internal/filter/pipeline.go:17-32 | for any filters, running fs++gs is running fs and then gs on what passes; a drop in fs leaves gs untouched |
| Chains.OutputSplits | internal/filter/pipeline.go:17-32 | the frame leaving fs++gs is what gs makes of the frame leaving fs |
| Chains.DropStopsRun | internal/filter/pipeline.go:24-26 | after a drop the remaining filters keep their state and nothing is emitted |
| PipelineSpec.EmitsInput | internal/filter/pipeline.go:17-32 | an emitted frame has the input's image and metadata |
| PipelineSpec.EmittedIffAllLet | internal/filter/pipeline.go:17-32 | a frame is emitted exactly if every filter lets it through, with the score of the last one |
| PipelineSpec.BlurAlone | internal/filter/blur.go:21-27 | a blur filter on its own emits exactly the frames whose score reaches the threshold |
| PipelineSpec.DuplicateAlone | internal/filter/duplicate.go:29-35 | a duplicate filter on its own emits exactly the frames further than the threshold from the last one that passed |
| PipelineSpec.TrackersAlone | internal/filter/tracker_filter.go:23-29 | a face tracker on its own emits exactly the frames with enough detections, an object tracker none |
| PipelineSpec.EmittedCarriesDetections | internal/filter/pipeline.go:34-44 | an emitted frame carries the first face tracker's non-empty detections for that frame, and their identities are tracks it holds |
| PipelineSpec.ObjectTrackerBlocks | internal/tracker/object.go:5-8 | with an object tracker in the pipeline nothing is emitted |
| FilterPipelines.TrackerFilter.Apply | internal/filter/tracker_filter.go:23-29 | advances the tracker and drops below the minimum number of detections |
| FilterPipelines.TrackerFilter.DetectionsAreReport | internal/filter/tracker_filter.go:33-38 | the exposed detections are the face tracker's latest report, none for an object tracker |
| FilterPipelines.FrameFilter.Apply | internal/filter/filter.go:29-32 | every filter advances its history by the frame and its verdict is the specified one |
| FilterPipelines.FilterPipeline.Process | internal/filter/pipeline.go:17-32 | the loop over the filter objects runs the chain; result and all filter states are the specified ones |
| FilterPipelines.FilterPipeline.Detections | internal/filter/pipeline.go:34-44 | returns the first non-empty report |
| PipelineBuild.BuiltIsProper | internal/manager/manager.go:136-208 | every tracker filter the manager builds demands at least one detection and has complete settings |
| PipelineBuild.BuiltInOrder | internal/manager/manager.go:136-208 | the filters stand in the order of the configuration |
| PipelineBuild.BuiltByKind | internal/manager/manager.go:137-207 | each known kind gives one filter of that kind, an unknown kind none |
| PipelineBuild.TrackerType | internal/manager/manager.go:154-202 | a tracker is a face tracker unless another type is written; then it tracks objects |
| PipelineBuild.EmptyPassesEverything | internal/manager/manager.go:210-212 | without any filter every frame is emitted |
| PipelineBuild.BlurThresholdHonoured | internal/manager/manager.go:138-145 | a written number becomes the blur threshold exactly if it is a positive floating-point number or the default |
| PipelineBuild.DuplicateThresholdHonoured | internal/manager/manager.go:146-153 | a written number becomes the duplicate threshold exactly if it is a whole number or the default |
| PipelineBuild.FaceSettings | internal/manager/manager.go:163-193 | each face tracker setting is the written number exactly if that has the form looked for and is positive, or is the default; otherwise it is the default |
| PipelineBuild.BuiltObjectTrackerBlocks | internal/manager/manager.go:200-202 | a built pipeline with an object tracker emits nothing on any stream |
| PipelineBuild.BuiltFaceTrackerReports | internal/manager/manager.go:133-215 | on any stream, every frame a built pipeline with a face tracker emits carries that tracker's non-empty report, whose identities are live, and the input's image and metadata |
| PipelineBuilders.BuildFilter | internal/manager/manager.go:137-207 | the filter object of an entry is new and in its prescribed initial state; none for an unknown kind or a face tracker that cannot be created |
| PipelineBuilders.BuildPipeline | internal/manager/manager.go:133-215 | the loop over the configuration builds a pipeline of new objects, no two filters sharing any, in the prescribed initial states |
| RawVideo.ReadFull | internal/decoder/reader.go:32-35 | fills the buffer with the next bytes exactly if enough are left, however they arrive |
| RawVideo.RawVideoReader.ReadFrame | internal/decoder/reader.go:31-49 | consumes exactly one frame of bytes and decodes it, or fails without a frame |
| RawVideo.RawVideoReader.DecodeFrame | internal/decoder/reader.go:37-46 | every pixel gets its BGR triple |
| RawVideo.PixelOfStream | internal/decoder/reader.go:37-46 | pixel (x, y) of frame k of a stream shows the three bytes at k frames, y rows and x pixels into it, blue first |
| RawVideo.EncodeDecode | internal/decoder/reader.go:37-46 | re-encoding a decoded frame gives back its bytes |
| RawVideo.DecodeEncode | internal/decoder/reader.go:37-46 | decoding an encoded frame gives back its pixels |
| RawVideo.ReadAll | internal/decoder/worker.go:89-106 | reading until failure delivers exactly the frames of the stream |
| RawVideo.FramesCoverStream | internal/decoder/reader.go:31-49 | the frames re-encode to a prefix of the stream that leaves less than one frame |
| RawVideo.FramesConsume | internal/decoder/reader.go:23-49 | the first k frames re-encode to exactly the first k * w * h * 3 bytes, and the bytes behind them hold the remaining frames |
| RawVideo.FramesFit | internal/decoder/reader.go:31-35 | there are k frames exactly if there are k * w * h * 3 bytes |
| RawVideo.ReadFrames | internal/decoder/reader.go:31-49 | reading k frames succeeds exactly if the bytes are there, and then consumes exactly k * w * h * 3 of them, which the frames re-encode to |
| DecoderWorkers.DecoderWorker.ProcessFrame | internal/decoder/worker.go:108-149 | numbers the frame, runs the pipeline, and filters, fails or writes it with its metadata, image and detections |
| DecoderWorkers.NumbersIncrease | internal/decoder/worker.go:109-114 | written sequence numbers are strictly increasing |
| DecoderWorkers.EveryFrameCounted | internal/decoder/worker.go:108-149 | frames processed = emitted + filtered + failed |
| WorkerLoop.AlwaysInvariant | internal/decoder/worker.go:52-106 | the invariant holds in every reachable state of the restart loop |
| WorkerLoop.NumbersAcrossRestarts | internal/decoder/worker.go:52-106 | across all restarts emitted numbers are strictly increasing and seqNum counts emitted, filtered and failed frames |
| WorkerLoop.WaitingLeadsToLaunch | internal/decoder/worker.go:55-85 | two steps after ffmpeg has exited, a worker that was not cancelled is about to start it again |
| WorkerLoop.ReturnsOnlyWithoutPipe | internal/decoder/worker.go:55-68 | a worker that was not cancelled returns only where the pipe cannot be created |
| WorkerLoop.AnySessionsOccur | internal/decoder/worker.go:55-106 | for all numbers of frames that successive ffmpeg processes deliver, some run without a cancellation goes through all of them, counting on |
| WorkerLoop.SessionsBeginAtLaunch | internal/decoder/worker.go:63-77 | a session begins exactly where ffmpeg was started |
| WorkerLoop.AttemptCountsFailures | internal/decoder/worker.go:70-77 | the backoff counts the failed starts in a row since the last start that succeeded |
| WorkerLoop.OneFrameAfterCancel | internal/decoder/worker.go:89-102 | after cancellation at most one further frame begins to be processed |
| WorkerLoop.LateFramesCounted | internal/decoder/worker.go:89-110 | after cancellation the sequence number grows by exactly the late frames |
| WorkerLoop.CancelledWorkerWindsDown | internal/decoder/worker.go:55-102 | a cancelled worker takes at most five more steps of its own, and after the fifth it has returned |
| WorkerLoop.OnlyReturnedStops | internal/decoder/worker.go:55-86 | the loop comes to rest only by returning |
| ReadLoops.ReadLoop | internal/decoder/worker.go:89-106 | the frames of the pipe are processed in order, each meeting the fate the pipeline, encoder and writer give it, up to the first check that finds the worker cancelled or the end of the stream |
| ReadLoops.WrittenCarriesFrame | internal/decoder/worker.go:108-149 | every message written carries the encoding of its frame of the byte stream, with that frame's number, time and detections |
| ReadLoops.ReadLoopIsPath | internal/decoder/worker.go:89-106 | what the read loop does is a path of the restart machine |
| StreamSessions.RunSession | internal/manager/manager.go:65-94 | a stream built from its configuration processes the frames of its first pipe in order from the prescribed initial states |
| StreamSessions.MessagesCarryLiveDetections | internal/decoder/worker.go:116-149 | every message of a stream configured with a face tracker carries at least one detection, all with live identities |
| StreamSessions.ObjectTrackerSilences | internal/tracker/object.go:5-8 | a stream configured with an object tracker writes no message |
| Backoff.ExponentialBackoff.NextDelay | internal/decoder/reconnect.go:35-42 | counts the attempt and returns the capped delay |
| Backoff.GeometricDelays | internal/decoder/reconnect.go:37 | the first delay is the initial one, each later one is larger by the factor |
| Backoff.DelayIsCapped | internal/decoder/reconnect.go:37-41 | while the unrounded delay fits, the delay is its whole part or the maximum |
| Backoff.DefaultDelays | internal/decoder/reconnect.go:14-41 | by default the waits are 1, 2, 4, 8, 16, 32 and then 60 seconds |
| Backoff.DelaysGrow | internal/decoder/reconnect.go:35-42 | while the unrounded delay fits, delays never shrink and stay within 1 .. Max |
| Backoff.EventuallyTooLarge | internal/decoder/reconnect.go:37 | a factor above one outgrows 64 bits after finitely many failures |
| Backoff.EventuallyTooSmall | internal/decoder/reconnect.go:37 | a factor below one shrinks the delay under a nanosecond after finitely many failures |
| Backoff.WaitsIffFits | internal/decoder/reconnect.go:37-41 | the wait is positive exactly while the unrounded delay is at least a nanosecond and fits, or the platform converts a larger one to a positive number |
| Backoff.AlwaysWaitsIff | internal/decoder/reconnect.go:35-42 | every failure is followed by a wait exactly if the factor is one, or above one where what does not fit converts to a positive number |
| StreamManagers.SemaphoreStep | internal/manager/manager.go:44-60 | every action keeps slots = unreleased goroutines (plus one in hand-over) within the capacity, launched streams a prefix |
| StreamManagers.SemaphoreAlways | internal/manager/manager.go:43-63 | the semaphore invariant holds after every run |
| StreamManagers.LimitBoundsRunning | internal/manager/manager.go:43-63 | the limit bounds running workers, and launched streams while no worker has ended |
| StreamManagers.AllRunIffLimitSuffices | internal/manager/manager.go:43-63 | some run has all configured streams running at once exactly if the limit is no smaller than their number |
| StreamManagers.FreedSlotStartsNext | internal/manager/manager.go:46-59 | when a worker ends, its slot lets the next stream start |
| StreamManagers.AllGetTheirTurnIff | internal/manager/manager.go:43-63 | some run registers every configured stream exactly if the limit admits one |
| StreamManagers.StartReturnsWhenDone | internal/manager/manager.go:46-62 | Start returns only when all streams are launched or the context is done |
| StreamManagers.RegistryAlways | internal/manager/manager.go:96-98 | the registry files some registered stream under every registered identity |
| StreamManagers.StopReachesAllIffDistinct | internal/manager/manager.go:118-126 | Stop reaches every registered worker exactly when their identities differ |
| StreamManagers.StopCancelsRunning | internal/manager/manager.go:118-126 | with distinct identities or a limit of at most one Stop cancels every worker running when it takes the lock |
| StreamManagers.StopCancelsRunningIff | internal/manager/manager.go:43-126 | Stop is sure to cancel every running worker exactly for the configurations with distinct identities or a limit of at most one |
| StreamManagers.OnFileIffNotReplaced | internal/manager/manager.go:96-98 | a worker is on file exactly if it was registered and no other under its identity after it |
| StreamManagers.CancelledIff | internal/manager/manager.go:96-126 | over every run of every configuration a worker is cancelled exactly if a Stop came after its registration and no registration under its identity in between |
| StreamManagers.CancelledIffStoppedLater | internal/manager/manager.go:96-126 | with distinct identities a worker is cancelled exactly if a Stop came after its registration |
| StreamManagers.LateWorkerEscapes | internal/manager/manager.go:92-126 | a worker registered after Stop keeps running |
| StreamManagers.SharedIdentityEscapes | internal/manager/manager.go:96-126 | in every configuration with two streams of one identity and a limit of at least two, some run leaves the first of them running after Stop |
| StreamManagers.StreamRegistry.Register | internal/manager/manager.go:96-98 | files the worker under its identity, as the step machine's registration does |
| StreamManagers.StreamRegistry.Stop | internal/manager/manager.go:118-126 | cancels every worker in the registry and no other, as the step machine's Stop does |

## Left out

- Floating-point rounding: IoU, gray levels, spreads, percentages and delays are exact.
- The score of the blur filter is kept as the square it is the root of; comparing squares replaces the square root.
- `toGrayImage`, `resizeRGBA`, the scaling of face boxes and the cascade classifier are the functions of `Vision`.
- The colours of an image are 8-bit opaque RGB, as the raw-video reader produces them; alpha and 16-bit colour are not modelled.
- Cameras with negative sizes: `RawVideoReader` takes non-negative sizes; `parseScale` lets negative ones through, and the allocation in `ReadFrame` then fails or reads frames without pixels.
- BlurFilters.BlurFilter.Apply: requires a size it can measure, because on the other sizes the code fails at an allocation.
- ReadLoops.ReadLoop: requires frames with at least one pixel, because on empty frames every read succeeds and the loop has no end; the same holds for `RawVideo.ReadFrames`, `RawVideo.ReadAll` and `StreamSessions.RunSession`.
- The mutex of the duplicate filter: each pipeline is used by one goroutine.
- The pipe is modelled as delivering at least one byte per read until it is exhausted; other read errors behave like exhaustion.
- Sleeping, waiting for ffmpeg and blocking reads take no modelled time; which step comes next is open.
- The JSON form of detections and messages, JPEG data and Kafka: only their success or failure and their contents as values.
- The health monitor, metrics, HTTP handlers, database, configuration loading and the web frontend: input and output around the frame path with only easy facts.
