# Server Sentinel: a verified model of its hard core

This project models, in Dafny, the parts of the repository whose correctness spans many
calls, crashes and interleavings, and proves what they promise:

- the Agent's disk ring: retention, protection of incident media, deletion, recovery, and
  the exact arithmetic that decides whether the next write fits;
- the incremental MJPEG splitter;
- the review gate: the publication ledger against GitHub's append-only check attempts, the
  evaluation of provider results, the proof of a unique merge base, the canonical tree diff;
- the Agent's credential store: hard links, a rename and a never-removed evidence file;
- UVC camera identity with its durable approvals, and the bounded device call.

`dafny verify dfyconfig.toml` checks the whole project. Nothing in it runs the original program.

## How the model is built

Time is in microseconds and integers are unbounded; `Fraction` arithmetic is done over `real`.
An operation that can raise returns a flag or an `Option`, and every ledger transaction, file
operation, save or post is one step that may fail.

| file | models |
|---|---|
| `MjpegStream`, `MjpegParser`, `MjpegImages`, `MjpegPosition` | a byte-at-a-time reference reading of a stream; the parser class with its buffer and saved position; the JPEG grammar, exact splitting and conservation of bytes; what two chunkings of a stream have in common |
| `RingModels`, `RingArithmetic`, `RingCharge`, `RingChargeLaws`, `RingMeasured` | profiles and configuration, exact rounding and roots, the batch charge, its laws, and what it is of the samples it is measured from |
| `RingSimulation`, `RingNextWrite`, `RingRecent`, `RingPressure` | when the ring itself would refuse a coming append, by its own rows, incidents and selection; a plain microsecond-by-microsecond simulation and the compressed check; the recent allocations it is charged from; that all of them agree |
| `RingHorizon`, `RingIntervals` | the binary-searched horizon, and merged coverage with its gaps |
| `RingSteps`, `RingRuns`, `RingOccasions`, `RingRows`, `DiskRing`, `RingBounds` | the durable state as a step machine, safety over all runs, what an operation may do at the time it is given, the ring class whose every change is one of those steps, the row reservation |
| `ReviewPublication`, `ReviewRequests`, `ReviewEvaluation` | publishing and revoking, interleaved collecting and requesting, judging the provider's results |
| `MergeBase`, `Utf8`, `TreeDiff` | commit graphs, text encoding, the canonical diff |
| `CredentialFiles`, `CredentialStore` | what hard links show to a reader that takes no lock; install, rotate, replace |
| `UvcIdentity`, `UvcApprovals`, `UvcController` | matching devices, the approval file, the controller and the manager's use of it |
| `BoundedCall` | the hand-off between a caller that gives up and a worker that finishes late |

A crash is a stop between two steps. Classes therefore keep the sequence of states or steps
they pass through in a ghost field (`log`, `history`, `trace`), and what is proved of every
element of it holds after a stop at any point. The ring also keeps what the operation at work
was told (`told`: the time, whether it counts as trusted, the incident the Owner wants
deleted) and whether it may add rows yet (`admitting`); every step must obey it, and `RingOccasions.Respects` says what that means for the
state before and after a whole operation.

Names that stand for the absence of failures: `reliable` (no step fails), `roomy` (every check of
space and ledger capacity passes), `saves` and `answers` (no ledger save fails; GitHub answers and
confirms), `tidies` (clean-up after a failure succeeds). Clauses under them say what then must
succeed; all other clauses hold whatever fails.

## What the proofs found

- Two chunkings of a stream give the same frames and leave a parser with the same fields, except
  that between images `_position` keeps where the last image was last resumed
  (`MjpegChunks.StalePosition`). Two chunkings leave the same `_position` exactly if the stream
  ends inside an image, has no complete image, or no marker, segment, escape or data byte of the
  last image was finished between the two places where it was last resumed, an image begun and
  ended in one `feed` counting as resumed right after its SOI (`MjpegPosition.SamePosition`).
- An incident opened while a segment is in deletion protects that segment too. The ring's lock
  covers a whole removal, so this takes an unlink that fails in a process that goes on. If that
  process then stops, `_recover` meets a protected row in deletion and raises, so the ring does not
  open. Without other failures recovery succeeds exactly if no row in deletion is protected
  (`DiskRing.DiskRing.Recover`); `RingBounds.DeletionCanBeOvertaken` is a run of ledger and file
  steps that reaches the other case.
- `ReconnectController` by itself does not keep the promise that a durably latched serial never
  rebinds automatically: an approval that was written but reported as failed leaves a latch that
  the controller does not hold, and a second approval then binds without it
  (`UvcController.LatchOutOfStep`). In the same way a release that was written but reported as
  failed lets the controller go on unarmed (`UvcController.ReleasedButRunning`). `Reconcile`
  rebinds exactly if its own latch is clear and the approved serial is unique, so the promise
  holds exactly while memory and record agree. The capture manager never uses a controller again after a
  failed save, and with that rule the latch promise holds in every run (`UvcController.Source`).
- A process started after an unclean exit needs a new approval exactly if the session's release
  was not written, or approval was required anyway (`UvcController.RestartAfterStop`). A close
  whose release was written but reported as failed counts as unclean in the code, and yet the next
  session asks for no approval (`UvcController.UncleanButReleased`); nothing is bound then and
  the record holds just what the controller held.

## Model

| member | source | states |
|---|---|---|
| MjpegStream.ChunkingIndependence | agent/media_capture_agent/uvc_pipeline.py:123-207 | every chunking of a stream fails, or gives the frames, count and state of the whole stream |
| MjpegStream.RunAppend | agent/media_capture_agent/uvc_pipeline.py:123-159 | cutting a stream anywhere and going on from the state reached changes nothing |
| MjpegStream.RunWithin | agent/media_capture_agent/uvc_pipeline.py:136-153 | what is held between calls never exceeds the frame bound, nor the skipped bytes the gap bound |
| MjpegStream.RunFrame | agent/media_capture_agent/uvc_pipeline.py:147-159 | inside an image the stream is the marker-by-marker reading of the buffer, with the frame bound on top |
| MjpegStream.RunSkips | agent/media_capture_agent/uvc_pipeline.py:132-140 | bytes without an SOI are skipped up to the gap bound, a last 0xFF being held back |
| MjpegStream.RunFindsSoi | agent/media_capture_agent/uvc_pipeline.py:141-146 | the first SOI opens an image, within the gap bound, and marks a large gap |
| MjpegParser.FindSoi | agent/media_capture_agent/uvc_pipeline.py:132-133 | the first FF D8 pair, or the absence of one |
| MjpegParser.FindFF | agent/media_capture_agent/uvc_pipeline.py:165-168 | the first FF at or after an index, or the absence of one |
| MjpegParser.ReadSegment | agent/media_capture_agent/uvc_pipeline.py:195-207 | a segment's length field decides where reading goes on, or that it breaks |
| MjpegParser.ReadEscape | agent/media_capture_agent/uvc_pipeline.py:164-176 | only a marker other than stuffing, restart or fill ends entropy-coded data |
| MjpegParser.ReadMarker | agent/media_capture_agent/uvc_pipeline.py:177-194 | fill bytes, standalone markers, an EOI after a scan, and what is malformed |
| MjpegParser.ReadUnfinished | agent/media_capture_agent/uvc_pipeline.py:161-168 | reading again from a saved position reproduces the state it stood for |
| MjpegParser.MarkerWaits | agent/media_capture_agent/uvc_pipeline.py:177-203 | an unfinished marker or segment is saved at its first byte |
| MjpegParser.CountedScans | agent/media_capture_agent/uvc_pipeline.py:204-207 | at the end of an image, however it was cut, the count is the number of its scans |
| MjpegParser.MjpegFrameParser.constructor | agent/media_capture_agent/uvc_pipeline.py:102-116 | a new parser is at the start of a stream |
| MjpegParser.MjpegFrameParser.AbsorbInput | agent/media_capture_agent/uvc_pipeline.py:123-124 | new bytes continue the reading from the saved position, as if nothing had been cut |
| MjpegParser.MjpegFrameParser.Feed | agent/media_capture_agent/uvc_pipeline.py:123-159 | the parser accepts exactly what the reference reading accepts, emits its frames and reaches its state; between images it is left with the scans of the last image and the position of its last resumption |
| MjpegParser.MjpegFrameParser.NextImage | agent/media_capture_agent/uvc_pipeline.py:126-159 | one image out of the buffer, with the rest of the stream unchanged |
| MjpegParser.MjpegFrameParser.SkipGap | agent/media_capture_agent/uvc_pipeline.py:127-146 | the gap before an image, up to the SOI or the end of the buffer |
| MjpegParser.MjpegFrameParser.SkipEntropy | agent/media_capture_agent/uvc_pipeline.py:164-176 | entropy-coded data is read to the marker that ends it, or saved |
| MjpegParser.MjpegFrameParser.Scan | agent/media_capture_agent/uvc_pipeline.py:161-207 | the resumable scan agrees with reading the image byte by byte |
| MjpegChunks.FeedAll | agent/media_capture_agent/uvc_pipeline.py:123-159 | feeding chunks is feeding their concatenation, with what is left over said for every field |
| MjpegChunks.SavedIsResumePoint | agent/media_capture_agent/uvc_pipeline.py:161-203 | in an open image the saved position is the first byte of what is unfinished, and the flag says whether it is coded data |
| MjpegChunks.SameViewSameFields | agent/media_capture_agent/uvc_pipeline.py:109-116 | parsers in one stream state agree on every field but the scans and position left over between images |
| MjpegChunks.StalePosition | agent/media_capture_agent/uvc_pipeline.py:113-156 | the saved position between images depends on the chunking |
| MjpegPosition.LeftIsResumed | agent/media_capture_agent/uvc_pipeline.py:123-159 | between images the position is where the last image was last resumed, or 2 if it was fed at once |
| MjpegPosition.SameResumption | agent/media_capture_agent/uvc_pipeline.py:161-207 | inside an image the point of resumption never goes back, and stays exactly as long as nothing is finished |
| MjpegPosition.SamePosition | agent/media_capture_agent/uvc_pipeline.py:123-207 | two chunkings of a stream leave the same position exactly if it ends in an image, has none, or nothing was finished between their last resumptions of the last image |
| MjpegPosition.FeedBothWays | agent/media_capture_agent/uvc_pipeline.py:102-207 | two new parsers fed two chunkings of a stream both fail, or agree in frames and every field, the position exactly under that condition |
| MjpegImages.ImageReads | agent/media_capture_agent/uvc_pipeline.py:161-207 | a structurally valid image reads to its own end and no further |
| MjpegImages.ImageEmitted | agent/media_capture_agent/uvc_pipeline.py:123-159 | a valid image within the bound, after a gap within the bound, is emitted whole |
| MjpegImages.StreamSplitExactly | agent/media_capture_agent/uvc_pipeline.py:86-207 | valid images separated by gaps are split into exactly those images, with exactly the large gaps counted |
| MjpegImages.FramesAreImages | agent/media_capture_agent/uvc_pipeline.py:89-100 | on any accepted input every emitted frame is a structurally valid image within the bound |
| MjpegImages.StreamConserved | agent/media_capture_agent/uvc_pipeline.py:123-159 | gaps, frames and what is still held concatenate back to the input |
| RingArithmetic.RoundUp | agent/media_capture_agent/ring_models.py:24-25 | a multiple of the unit, less than one unit above the value |
| RingArithmetic.RoundUpLeast | agent/media_capture_agent/ring_models.py:24-25 | no smaller multiple of the unit reaches the value |
| RingArithmetic.CeilRootLeast | agent/media_capture_agent/ring.py:457-462 | the root is the least integer whose square reaches its rational argument |
| RingArithmetic.CeilRootMonotone | agent/media_capture_agent/ring.py:457-462 | a larger argument never has a smaller root |
| RingModels.SegmentBytesHold | agent/media_capture_agent/ring_models.py:52-54 | eight times the bytes less overhead are the least that hold the bitrate over the duration, for the maximum and the expected bitrate |
| RingModels.CountLasts | agent/media_capture_agent/ring_models.py:56-60 | two more segments than the least number that lasts, end to end, for the duration |
| RingCharge.Statistics | agent/media_capture_agent/ring.py:375-455 | of at most eight sizes: the cap is the largest in whole units within the bound and the credit the smallest within the cap; from four sizes on the mean and the sample variance of the sizes in whole units, below that the cap and zero; without sizes the bound |
| RingRecent.RecentRows | agent/media_capture_agent/ring.py:403-408 | the newest stored rows of a source under its current profile, latest first, all of them or as many as the history holds |
| RingRecent.CutEnd | agent/media_capture_agent/ring.py:409-417 | the latest end of its refused or unverified rows within that history |
| RingRecent.Samples | agent/media_capture_agent/ring.py:426-433 | the longest run of newest rows that are trusted, at cadence, after the cut and meet each other |
| RingRecent.HistoryUnbroken | agent/media_capture_agent/ring.py:390-398 | the samples have no gap: every instant from the oldest to the newest lies in one of them |
| RingRecent.RecentOf | agent/media_capture_agent/ring.py:375-455 | a source is charged by the mean, variance, smallest and largest of exactly those rows, the newest eight, with exactly those samples, or at its bound |
| RingCharge.IsAligned | agent/media_capture_agent/ring.py:494-498 | comparing the latest start with the earliest end and the durations decides that the j-th samples of all sources overlap and have one duration |
| RingCharge.CountAligned | agent/media_capture_agent/ring.py:493-501 | the length of the unbroken run of aligned past batches |
| RingChargeLaws.AlignedByIndex | agent/media_capture_agent/ring.py:494-498 | aligned batches, said by index: every pair of sources overlaps and agrees in duration |
| RingCharge.SquarePeel | agent/media_capture_agent/ring.py:506-515 | counting each unordered pair twice gives the full covariance square |
| RingCharge.BatchVariance | agent/media_capture_agent/ring.py:506-515 | the pairwise loop computes the covariance square with negative covariances dropped |
| RingCharge.BatchMean | agent/media_capture_agent/ring.py:502-505 | the loop computes the summed means |
| RingCharge.MeasuredCharge | agent/media_capture_agent/ring.py:464-519 | the measured charge, or none below two sources or the minimum of aligned batches; what it is of the samples is RingMeasured.MeasuredIsExact |
| RingCharge.BatchCharge | agent/media_capture_agent/ring.py:522-560 | the charge of a batch, measured or not, in units and capped; what it is of samples, statistics and caps is RingMeasured.ChargeIsExact |
| RingMeasured.AlignedIsShared | agent/media_capture_agent/ring.py:480-501 | the j-th samples of all sources are aligned exactly if one instant lies in all of them and they last equally long |
| RingMeasured.MeanIsMeasured | agent/media_capture_agent/ring.py:502-505 | n times the mean is the sum of the sizes of the newest n samples |
| RingMeasured.CovarianceIsMeasured | agent/media_capture_agent/ring.py:506-515 | n - 1 times the covariance is the sum, over the n past batches, of the products of both deviations |
| RingMeasured.MeasuredIsExact | agent/media_capture_agent/ring.py:464-519 | the measured charge is the one number the samples describe: the batches shared by all sources, their means, their non-negative covariances over all ordered pairs, the exact ceilings; and there is one exactly if ten batches are shared by at least two sources |
| RingMeasured.ChargeIsExact | agent/media_capture_agent/ring.py:522-560 | the charge is the one number that samples, recent means, variances and caps describe, in whole units and within the cap |
| RingMeasured.MeasuredChargeWithin | agent/media_capture_agent/ring.py:464-519 | with shared history the charge lies above mean plus two widened deviations, but for the cap, and less than a unit and a byte above them |
| RingChargeLaws.ChargeMonotone | agent/media_capture_agent/ring.py:457-560 | more appends of any source never cost less |
| RingChargeLaws.ChargeOrderFree | agent/media_capture_agent/ring.py:457-560 | the charge does not depend on the order of sources |
| RingChargeLaws.ChargeInUnitsWithinCaps | agent/media_capture_agent/ring.py:522-560 | a whole number of units, never above every append at its cap |
| RingChargeLaws.UnmeasuredChargeCovers | agent/media_capture_agent/ring.py:522-560 | the cap, or at least the exact mean plus two summed standard deviations |
| RingChargeLaws.MeasuredChargeCovers | agent/media_capture_agent/ring.py:464-519 | the cap, or at least the measured mean plus any spread within the prediction bound |
| RingNextWrite.CountIsSimulated | agent/media_capture_agent/ring.py:649-652 | the closed-form append count is the count of simulated appends |
| RingNextWrite.CountsThrough | agent/media_capture_agent/ring.py:649-652 | the batch through an instant |
| RingNextWrite.LatestWithinPre | agent/media_capture_agent/ring.py:658-662 | the simulation ends within PRE of now |
| RingNextWrite.RetiredOnlyNow | agent/media_capture_agent/ring.py:658-674 | only an append at exactly now can age out within the simulation |
| RingNextWrite.StoredCreditsExact | agent/media_capture_agent/ring.py:663 | each stored row is credited once, from the instant it ages out |
| RingNextWrite.SimulatedCreditsExact | agent/media_capture_agent/ring.py:664-674 | one simulated credit per source is all the simulation would give back |
| RingNextWrite.CreditsExact | agent/media_capture_agent/ring.py:658-675 | the listed credits are exactly the simulation's reclaimed space at every instant |
| RingNextWrite.IntervalFits | agent/media_capture_agent/ring.py:676-701 | an interval of constant credit without appends, or whose last append fits, refuses nowhere |
| RingNextWrite.IntervalRefused | agent/media_capture_agent/ring.py:676-701 | if the last append of an interval does not fit, the simulation refuses there |
| RingNextWrite.NextWriteRefused | agent/media_capture_agent/ring.py:562-701 | the compressed check answers true exactly when the full simulation has an instant that does not fit; that the simulation is the ring's own is RingPressure.SimulationIsRing |
| RingPressure.ReflectionIsChronological | agent/media_capture_agent/ring.py:623-675 | what the check assumes of trusted rows holds of every reachable ring state |
| RingPressure.Situate | agent/media_capture_agent/ring.py:623-675 | the situation checked is the ring's: every source with its last trusted end, every row that can age out and every incident that can hold one, each once |
| RingPressure.StoredIsSelected | agent/media_capture_agent/ring.py:636-663 | at every instant the stored part of the credit is the bytes of exactly the rows the ring selects at that instant |
| RingPressure.TakenIsRetired | agent/media_capture_agent/ring.py:656-674 | the simulated part is what those of a source's coming segments give back that, once appended and joined to their incidents, the ring selects |
| RingPressure.AppendsAreSimulated | agent/media_capture_agent/ring.py:623-652 | a source appends at the least instant a whole segment after its trusted rows, not before now, and every cadence after |
| RingPressure.SimulationIsRing | agent/media_capture_agent/ring.py:562-701 | every situation listed from a ring state, in whatever order, is refused exactly if the ring is: by its trusted rows, its incidents and its own selection |
| RingPressure.NextWriteRefused | agent/media_capture_agent/ring.py:562-701 | true exactly if at some instant, up to the slowest source's first append, everything appended by then does not fit above reserve and headroom with what the ring itself would have selected and reclaimed |
| RingPressure.RefusesNext | agent/media_capture_agent/ring.py:562-701 | the same, with the recent allocations taken from the ring's rows and files |
| RingIntervals.Merge | agent/media_capture_agent/ring_models.py:93-111 | adding an interval keeps the merged ones sorted, apart and covering the same instants |
| RingIntervals.Gaps | agent/media_capture_agent/ring_models.py:93-111 | the gaps cover exactly what the merged intervals leave open |
| RingIntervals.IntervalsAndGaps | agent/media_capture_agent/ring_models.py:93-111 | every instant of the window is in merged intervals exactly if some input covers it, otherwise in gaps; both sorted and never touching |
| RingHorizon.HorizonCeiling | agent/media_capture_agent/ring.py:271-273 | no duration that fits lies above the search's right end |
| RingHorizon.ExpectedBytesAreTotal | agent/media_capture_agent/ring.py:263-268 | the expected bytes are the sum over the sources of segments times expected segment bytes |
| RingHorizon.HorizonUs | agent/media_capture_agent/ring.py:246-281 | the greatest duration of at least PRE whose expected bytes fit, PRE if none does |
| RingHorizon.HorizonUnique | agent/media_capture_agent/ring.py:246-281 | that duration is unique |
| RingHorizon.SpacedCount | agent/media_capture_agent/ring.py:241-244 | ends a cadence apart number at most ceil(span / cadence) |
| RingSteps.StepKeepsInv | agent/media_capture_agent/ring.py:831-964 | every step keeps: files have rows, stored rows have files, edges name live rows and incidents, trusted rows of a source do not overlap |
| RingSteps.StepKeepsFiles | agent/media_capture_agent/ring.py:831-839 | row before file, durable deletion before unlink, unlink before the row goes |
| RingRows.SelectedReclaimable | agent/media_capture_agent/ring.py:199-211 | exactly the unprotected finished rows old enough for the configuration, by end |
| RingRows.OrdinaryBytes | agent/media_capture_agent/ring.py:195-197 | the bytes of all unprotected rows |
| RingRows.HasEdgeIsProtected | agent/media_capture_agent/ring.py:177-193 | an edge of an incident that is not deleted is protection |
| RingRuns.RunKeepsInv | agent/media_capture_agent/ring.py:138-158 | the invariant holds in every reachable state, after a crash at any step too |
| RingRuns.EvidenceSurvives | agent/media_capture_agent/ring.py:831-839 | as long as its incident is not being removed, an admitted protected segment keeps row, edge and file in every run |
| RingOccasions.EvidenceRetained | agent/media_capture_agent/ring.py:1046-1089 | in every run without an Owner deletion of its incident, admitted evidence keeps row, edge and file until recorded trusted time reaches the incident's end plus the retention |
| RingOccasions.IncidentRetained | agent/media_capture_agent/ring.py:1046-1060 | until then the incident itself is not being removed, and what it is about never changes |
| RingOccasions.RunRespects | agent/media_capture_agent/ring.py:96-114 | steps that obey the time an operation was given newly lose only rows older than PRE on trusted time with no loss pending, close only ended incidents, remove only expired ones or the Owner's, and keep all other evidence |
| RingRuns.UnlinkSafe | agent/media_capture_agent/ring.py:831-839 | only an unprotected segment in durable deletion, or a provisional write, is ever unlinked |
| RingRuns.DeletionDecided | agent/media_capture_agent/ring.py:199-211 | a step newly marks a segment only on trusted, not rolled-back time, older than PRE, unprotected, with no loss pending; operations tie that time to the one they were given |
| RingRuns.NoNewDeletingRow | agent/media_capture_agent/ring.py:923-926 | a new row starts as a provisional write, never in deletion |
| RingRuns.PendingLossMaterializes | agent/media_capture_agent/ring.py:96-114 | a pending loss ends only in the step that creates its incident, which protects every retained row before now plus POST |
| RingRuns.PendingLossHolds | agent/media_capture_agent/ring.py:199-205 | while a loss is pending nothing is newly marked for deletion |
| RingRuns.OneIncidentPerPendingLoss | agent/media_capture_agent/ring.py:966-1020 | in every run pending losses and their incidents are one to one |
| RingRuns.NewSegmentJoins | agent/media_capture_agent/ring.py:898-938 | a new segment is protected by exactly the retained incidents of its source that share an instant with it, expired ones excepted on trusted time; those are open again, every other one is as it was |
| RingRuns.OpenedProtects | agent/media_capture_agent/ring.py:1008-1016 | a new incident protects exactly the rows of configured sources that share an instant with its window |
| RingRuns.RunKeepsWindow | agent/media_capture_agent/ring.py:996-1020 | until a row is added an incident goes on protecting just the rows of its window, or is being removed |
| RingRuns.CompleteIsCovered | agent/media_capture_agent/ring.py:1040-1045 | an incident becomes complete only if every instant of its window is covered for every source, with certain time, at a recorded time after its end |
| RingRuns.TrustedRowsAreChronological | agent/media_capture_agent/ring.py:884-894 | in every reachable state trusted rows end no later than trusted time |
| DiskRing.DiskRing.Take | agent/media_capture_agent/ring_ledger.py:204-214 | a transaction happens as a whole, obeys what the operation was told and keeps the invariant, or changes nothing |
| DiskRing.DiskRing.RemoveSegment | agent/media_capture_agent/ring.py:831-839 | just that segment is forgotten, and never a protected one |
| DiskRing.DiskRing.Trim | agent/media_capture_agent/ring.py:841-856 | takes only selected rows, oldest first, each beyond the horizon or of a ring still over its limit; leaves nothing beyond the horizon and nothing over the limit that could go |
| DiskRing.DiskRing.FreeForWrite | agent/media_capture_agent/ring.py:858-867 | takes only selected rows, oldest first, none on untrusted time, no provisional write, and refuses only when nothing more may go |
| DiskRing.DiskRing.DropOne | agent/media_capture_agent/ring.py:1079-1087 | an edge goes; its segment goes exactly if neither another incident nor the ring owns it |
| DiskRing.DiskRing.DropAll | agent/media_capture_agent/ring.py:1077-1087 | the same for every edge of an incident, other rows and edges untouched |
| DiskRing.DiskRing.DeleteIncident | agent/media_capture_agent/ring.py:1071-1089 | only for a cause that allows it; the incident ends deleted, its released segments gone and all others unchanged |
| DiskRing.DiskRing.HasGaps | agent/media_capture_agent/ring.py:1091-1104 | gaps are reported exactly if some instant of some source is not covered by stored trusted protected media |
| DiskRing.EvidenceIntervals | agent/media_capture_agent/ring.py:1093-1100 | the intervals cover exactly the instants of stored trusted protected media |
| DiskRing.DiskRing.FinishRemovals | agent/media_capture_agent/ring.py:1034-1035 | unfinished removals are finished; every other incident and its evidence are untouched |
| DiskRing.DiskRing.CloseDue | agent/media_capture_agent/ring.py:1040-1045 | exactly the ended active incidents are closed, complete if covered and certain, partial otherwise |
| DiskRing.DiskRing.CloseOne | agent/media_capture_agent/ring.py:1041-1045 | an ended incident is closed by its coverage, completed at its end and kept for the retention |
| DiskRing.DiskRing.ExpireOld | agent/media_capture_agent/ring.py:1046-1048 | no closed incident outlives its retention, and every incident that has not expired stays as it is |
| DiskRing.DiskRing.Tick | agent/media_capture_agent/ring.py:1032-1048 | on trusted time exactly the ended incidents are closed and the expired removed, by their coverage before; on untrusted time media stays and active incidents become uncertain; nothing else changes |
| DiskRing.DiskRing.TickTrusted | agent/media_capture_agent/ring.py:1034-1048 | the trusted tick: removals, closings and expiries in turn, each incident going only where it may |
| DiskRing.DiskRing.TickAt | agent/media_capture_agent/ring.py:1022-1030 | leaves a settled, trimmed ring with no loss pending on trusted time; newly loses, closes and removes only what the given time allows |
| DiskRing.DiskRing.ObserveClock | agent/media_capture_agent/ring.py:96-114 | time counts as trusted exactly if it is and has not run backwards; the first such time ends a pending loss |
| DiskRing.DiskRing.Preserve | agent/media_capture_agent/ring.py:996-1020 | an incident with the asked window is opened; when the call returns it protects exactly the rows of configured sources that share an instant with the window, unless it has already ended; its tick does only what the given time allows |
| DiskRing.DiskRing.OpenAndTick | agent/media_capture_agent/ring.py:1008-1019 | the incident is opened, then all incidents are looked after; it still protects exactly the rows of its window unless it has ended |
| DiskRing.DiskRing.Open | agent/media_capture_agent/ring.py:1008-1018 | in one transaction the incident as asked, active and certain only on trusted time, and an edge to exactly the rows sharing an instant with its window |
| DiskRing.DiskRing.PreserveWindow | agent/media_capture_agent/ring.py:989-994 | the Owner's preservation opens a new incident that protects exactly the rows sharing an instant with the window, and loses nothing the given time does not allow |
| DiskRing.DiskRing.DeleteIncidentByOwner | agent/media_capture_agent/ring.py:1050-1060 | the incident ends deleted; every other incident stays unless removed by expiry at the given time, with its evidence |
| DiskRing.CadenceEnd | agent/media_capture_agent/ring.py:122-135 | how far a source's capture reaches from its last trusted end without a break, and no further |
| DiskRing.ReachUnique | agent/media_capture_agent/ring.py:130-134 | there is one such break |
| DiskRing.DiskRing.LossAnchor | agent/media_capture_agent/ring.py:119-136 | the latest of the clock and what every source's capture reaches; none exactly without a clock |
| DiskRing.DiskRing.ObserveConnection | agent/media_capture_agent/ring.py:966-987 | an unexpected loss opens an incident from PRE before to POST after its anchor that protects exactly the rows sharing an instant with that window, or is held while there is no anchor; nothing is lost that the given time does not allow |
| DiskRing.DiskRing.NoteConnection | agent/media_capture_agent/ring.py:970-986 | the same for a connection just observed |
| DiskRing.DiskRing.ResumeDeletions | agent/media_capture_agent/ring.py:155-156 | durable deletions are finished, exactly if no such row is protected |
| DiskRing.DiskRing.Recover | agent/media_capture_agent/ring.py:138-158 | every row's state says what its file is, no deletion or removal is left and nothing is newly lost; it succeeds exactly if no row in deletion is protected |
| DiskRing.DiskRing.AdmitSegment | agent/media_capture_agent/ring.py:877-897 | a segment is admitted exactly if it has its profile's duration and bound, is not in the future and follows its source's rows; a break in uncertain capture casts doubt on active incidents |
| DiskRing.LastEnd | agent/media_capture_agent/ring.py:884-887 | the latest end of a source's rows, or of its trusted ones |
| DiskRing.DiskRing.MakeOrdinaryRoom | agent/media_capture_agent/ring.py:908-922 | reclaims oldest first, each row only while it is needed, and refuses only when nothing more may go |
| DiskRing.DiskRing.MakeRoom | agent/media_capture_agent/ring.py:905-922 | takes only selected rows, none on untrusted time; afterwards an unprotected segment in capacity mode fits the limit in whole units |
| DiskRing.DiskRing.WriteProvisional | agent/media_capture_agent/ring.py:939-956 | a file is kept only with a real allocation that keeps the ordinary bytes within the limit |
| DiskRing.DiskRing.StoreFile | agent/media_capture_agent/ring.py:939-960 | the row ends stored with its file, or missing without one |
| DiskRing.DiskRing.AppendAdmitted | agent/media_capture_agent/ring.py:898-964 | the row and its protection are inserted in one step before its file is stored; afterwards the ring is settled and trimmed, and only what the given time allows is lost |
| DiskRing.DiskRing.Append | agent/media_capture_agent/ring.py:869-964 | success means a new row with exactly this interval and trust was inserted, protected and stored, and a settled, trimmed ring; only what the given time allows is lost, nothing on untrusted time |
| DiskRing.EligiblePrefix | agent/media_capture_agent/ring.py:219-232 | the longest run of oldest rows that are beyond the horizon or over the byte limit |
| DiskRing.ConfigurationReclaimable | agent/media_capture_agent/ring.py:213-234 | exactly the rows that the proposal selects and the current configuration already gives up |
| DiskRing.DiskRing.ReclaimFor | agent/media_capture_agent/ring.py:745-750 | before a proposal commits, only rows it selects and the current configuration already gives up are taken |
| DiskRing.DiskRing.Configure | agent/media_capture_agent/ring.py:703-772 | refused while a loss is pending or an incident active; a failed proposal leaves the configuration, and all media the current one does not give up; a committed one also trims to its own horizon and limit |
| DiskRing.DiskRing.Adopt | agent/media_capture_agent/ring.py:720-771 | the same once the time is judged |
| RingBounds.SourceRowsBounded | agent/media_capture_agent/ring.py:241-244 | a trimmed source keeps at most ceil(horizon / cadence) ordinary trusted rows at its cadence |
| RingBounds.TrimmedRowsFitReservation | agent/media_capture_agent/ring_ledger.py:161-175 | the ordinary rows of a trimmed ring fit the reserved segment count |
| RingBounds.DeletionCanBeOvertaken | agent/media_capture_agent/ring.py:1010-1018 | a run reaches a state in which a row in deletion is protected |
| ReviewPublication.AtMostOneSuccessful | scripts/ci/review_gate_collector.py:770-884 | at most one test merge reads successful |
| ReviewPublication.EveryCrashStateSafe | scripts/ci/review_gate_collector.py:770-884 | in every state passed through, a test merge that reads successful is the one the ledger names |
| ReviewPublication.PostedSafe | scripts/ci/review_gate_collector.py:803-814 | posting a success for the named test merge, or any failure, keeps that |
| ReviewPublication.DroppedSafe | scripts/ci/review_gate_collector.py:878-881 | a publication may be dropped once its test merge no longer reads successful |
| ReviewPublication.FailureClears | scripts/ci/review_gate_collector.py:865-878 | a failure attempt on the named test merge leaves nothing successful |
| ReviewPublication.World.Save | scripts/ci/review_gate_collector.py:486-525 | a save replaces the record as a whole, and may fail after it took effect |
| ReviewPublication.World.Post | scripts/ci/review_gate_collector.py:803-814 | a post is confirmed, delivered but reported as an error, or not delivered |
| ReviewPublication.ReadPages | scripts/ci/review_gate_publisher.py:613-629 | a listing is used only if it was read completely |
| ReviewPublication.SuccessIsLatestAttempt | scripts/ci/review_gate_publisher.py:591-642 | true exactly if the run is the newest attempt on its commit and successful |
| ReviewPublication.Collector.LoadPublication | scripts/ci/review_gate_collector.py:755-768 | after an unrecorded revocation the standing success is taken as being revoked |
| ReviewPublication.Collector.Revoke | scripts/ci/review_gate_collector.py:840-884 | success means that nothing reads successful and the ledger says so; a failure attempt that reaches GitHub leaves nothing successful even if the ledger cannot be written, and is remembered |
| ReviewPublication.Collector.RevokeStanding | scripts/ci/review_gate_collector.py:816-838 | afterwards nothing reads successful |
| ReviewPublication.Collector.PublishNew | scripts/ci/review_gate_collector.py:797-814 | the success is posted only with the intention recorded, the live context unchanged and room for the attempt; success means it stands, recorded with its run |
| ReviewPublication.Collector.Publish | scripts/ci/review_gate_collector.py:770-814 | the current request ends published and recorded, any other success is superseded, one that still stands is not posted again; a new success means the request is current and the live context unchanged; it succeeds when nothing fails |
| ReviewPublication.Collector.CollectHeld | scripts/ci/review_gate_collector.py:657-720 | a pass means clean results of the recorded, unchanged context; a request is written off only for a differing live read |
| ReviewPublication.Collector.CollectAndPublish | scripts/ci/review_gate_collector.py:886-955 | a pass leaves its test merge successful and recorded, every other decision leaves none; a new success rests on clean results of the requested context read the same each time; clean results are published when nothing fails |
| ReviewPublication.Collector.RequestReview | scripts/ci/review_gate_collector.py:565-621 | an unchanged active request is returned again; a new one keeps publication and watermarks and is refused over a regressed listing; a forced one finds nothing successful |
| ReviewEvaluation.CheckIds | scripts/ci/review_gate_collector.py:282-303 | ids are positive and distinct |
| ReviewEvaluation.Evaluate | scripts/ci/review_gate_collector.py:957-1046 | over the listed items: unreadable exactly if a listing is, a provider item since the request is malformed, or more than twenty results bear on this head; otherwise not clean by any unclean one, else clean if one is clean and no earlier than request, runtime and allowance, else pending |
| ReviewEvaluation.FindingsMean | scripts/ci/review_gate_collector.py:957-1026 | what the loops find of reviews and comments is what the items themselves say: unreadable, blocked, earned |
| ReviewEvaluation.CleanIsEarned | scripts/ci/review_gate_collector.py:967-1026 | a finding is clean exactly if a provider result for this head, unedited and after the watermark, is clean and late enough |
| ReviewEvaluation.UncleanIsBlocked | scripts/ci/review_gate_collector.py:984-992 | a finding blocks exactly if a provider result for this head is not clean, however early |
| ReviewEvaluation.StaysUnreadable | scripts/ci/review_gate_collector.py:984-986 | nothing read later makes up for a malformed item or too many candidates |
| ReviewRequests.RunKeepsInv | scripts/ci/review_gate_collector.py:623-720 | what every interleaving of collecting and requesting keeps |
| ReviewRequests.InvalidatedExactly | scripts/ci/review_gate_collector.py:681-720 | a request is newly invalidated exactly by a saved conclusion whose two live reads differ, or a saved confirmation that still finds it active for another context |
| ReviewRequests.RequestedExactly | scripts/ci/review_gate_collector.py:596-621 | a request is recorded exactly if saved, and forced or without an active one for the live context |
| ReviewRequests.PublishedExactly | scripts/ci/review_gate_collector.py:770-814 | a success is posted exactly while the ledger still holds the active request it was decided for |
| ReviewRequests.InvalidationJustified | scripts/ci/review_gate_collector.py:681-720 | a request is invalidated only for a live read made after it was recorded that differs from its context |
| ReviewRequests.InvalidatedForGood | scripts/ci/review_gate_collector.py:623-629 | an invalidated request never becomes active again and yields no pass or success |
| ReviewRequests.PassNotInvalidated | scripts/ci/review_gate_collector.py:1027-1031 | no step decides a pass or publishes for an invalidated request |
| MergeBase.AncestorGraph | scripts/ci/review_gate_publisher.py:407-420 | exactly the parent closure, or a refusal exactly if it is too large or unreadable |
| MergeBase.CommitParents | scripts/ci/review_gate_publisher.py:389-404 | the parents of a commit, refused exactly if there are more than 64, one comes twice, or the commit is its own |
| MergeBase.Reachable | scripts/ci/review_gate_publisher.py:423-432 | exactly the ancestors of a commit |
| MergeBase.ShadowedBy | scripts/ci/review_gate_publisher.py:457-459 | exactly the common commits with a common child |
| MergeBase.UnshadowedIsBest | scripts/ci/review_gate_publisher.py:454-460 | the single unshadowed common commit is exactly the one every common ancestor is an ancestor of |
| MergeBase.BestDecides | scripts/ci/review_gate_publisher.py:460-463 | there is a merge base exactly if one unshadowed common commit is left |
| MergeBase.MergeBaseUnique | scripts/ci/review_gate_publisher.py:435-463 | there is at most one merge base |
| MergeBase.UniqueMergeBase | scripts/ci/review_gate_publisher.py:435-463 | the merge base exactly if the graph is complete within the limit and has one, a refusal otherwise |
| Utf8.EncodeInjective | scripts/ci/review_gate_publisher.py:489-490 | no two texts have the same encoding |
| Utf8.EncodesCodePoint | scripts/ci/review_gate_publisher.py:489-490 | the bytes of a character carry its code point in the shortest of the four forms |
| TreeDiff.ReadTree | scripts/ci/review_gate_publisher.py:469-482 | the tracked entries, refused exactly if truncated, malformed or with a repeated path |
| TreeDiff.CheckItem | scripts/ci/review_gate_publisher.py:476-481 | a tracked item is taken exactly with a non-empty path without NUL, six octal digits and a 40-digit object name |
| TreeDiff.BelowAtDifference | scripts/ci/review_gate_publisher.py:485-488 | a path sorts before another exactly if at their first difference it ends or has the smaller code point |
| TreeDiff.RowReadsBack | scripts/ci/review_gate_publisher.py:489-490 | a row can be read off the front of any text, newlines in paths included |
| TreeDiff.OneListing | scripts/ci/review_gate_publisher.py:485-488 | the sorted rows are determined by the set of changes |
| TreeDiff.EncodeChanges | scripts/ci/review_gate_publisher.py:484-491 | the bytes are the header and the changed rows by path |
| TreeDiff.CanonicalDiff | scripts/ci/review_gate_publisher.py:466-491 | the diff of the two trees' entries, refused exactly if a response is incomplete |
| TreeDiff.SameBytesSameChanges | scripts/ci/review_gate_publisher.py:466-491 | two tree pairs give the same bytes exactly if they have the same changed rows |
| TreeDiff.HeaderOnly | scripts/ci/review_gate_publisher.py:466-491 | only the header is left exactly if the entries are equal |
| TreeDiff.BytesRecoverTree | scripts/ci/review_gate_publisher.py:466-491 | one tree and the bytes determine the other tree |
| CredentialFiles.LinksOfCurrent | agent/media_capture_agent/pairing.py:387-390 | the current manifest has two links exactly when it is committed |
| CredentialFiles.ReadsView | agent/media_capture_agent/pairing.py:363-453 | at rest the directory reads as the identity, key and certificates it holds whole, or as none |
| CredentialFiles.ReadMeans | agent/media_capture_agent/pairing.py:363-453 | whatever the directory holds, a credential is read exactly if one manifest under just its two names describes it in three files of their own, and nothing is paired exactly without commit and evidence |
| CredentialFiles.InterleavedRead | agent/media_capture_agent/pairing.py:363-453 | a reader without the lock that returns an identity has read exactly the credential committed throughout its reading |
| CredentialFiles.SameFileIsCommitted | agent/media_capture_agent/pairing.py:428-438 | one file with two links under both names is the committed manifest |
| CredentialStore.RenameCommits | agent/media_capture_agent/pairing.py:293-298 | the rename replaces one whole credential by another in one step |
| CredentialStore.LinkCommits | agent/media_capture_agent/pairing.py:207-213 | the first link commits a whole credential in one step |
| CredentialStore.CredentialStore.AfterStop | agent/media_capture_agent/pairing.py:136-155 | a process can start on the files as they were at any moment |
| CredentialStore.CredentialStore.Damage | agent/media_capture_agent/pairing.py:140-148 | outside damage leaves the evidence |
| CredentialStore.CredentialStore.WriteFile | agent/media_capture_agent/pairing.py:531-557 | a file appears under its name with its full content, or the identity shown stays as it was |
| CredentialStore.CredentialStore.Rollback | agent/media_capture_agent/pairing.py:220-230 | cleaning up touches nothing of the credential shown and removes exactly what was created |
| CredentialStore.CredentialStore.WriteGeneration | agent/media_capture_agent/pairing.py:330-358 | a new generation with exactly the given key and certificates is whole on disk while the old credential stays shown |
| CredentialStore.CredentialStore.RecordInstalled | agent/media_capture_agent/pairing.py:460-481 | the evidence exists afterwards |
| CredentialStore.CredentialStore.InstalledNodeId | agent/media_capture_agent/pairing.py:363-453 | the committed credential with the evidence recorded first; unpaired only without commit and evidence |
| CredentialStore.CredentialStore.Install | agent/media_capture_agent/pairing.py:161-239 | refused over a commit or its evidence; at every moment unpaired or exactly the given credential; it can be retried before its commit and then leaves no files of its own |
| CredentialStore.CredentialStore.Swap | agent/media_capture_agent/pairing.py:241-328 | at every moment exactly the old or exactly the given credential, swapped exactly for the same deployment and the right node; no file of the old generation is left, and none of the new one if it fails |
| CredentialStore.CredentialStore.SwapLocked | agent/media_capture_agent/pairing.py:263-328 | the same from whatever is committed once the lock is held |
| CredentialStore.CredentialStore.PrepareNext | agent/media_capture_agent/pairing.py:288-295 | the new generation with the given material is whole and linked while the old credential stays shown |
| CredentialStore.CredentialStore.ClearNext | agent/media_capture_agent/pairing.py:288-291 | a link an earlier swap left is removed, and nothing else |
| CredentialStore.CredentialStore.WriteNext | agent/media_capture_agent/pairing.py:292-295 | the same once no stale link is in the way; a failure leaves no files |
| CredentialStore.CredentialStore.Replace | agent/media_capture_agent/pairing.py:292-308 | commit, removal of the old files, evidence |
| CredentialStore.CredentialStore.RemoveGeneration | agent/media_capture_agent/pairing.py:300-304 | only files of the superseded generation go |
| CredentialStore.StopReadsOldOrNew | agent/media_capture_agent/pairing.py:241-250 | after a stop at any moment of install or swap the files read as exactly the credential before or exactly the new one |
| CredentialStore.NeverBack | agent/media_capture_agent/pairing.py:241-250 | a superseded credential does not come back |
| CredentialStore.NeverUnpairedAgain | agent/media_capture_agent/pairing.py:455-458 | once the evidence exists no reader finds the node unpaired, not even in a lost directory |
| UvcIdentity.MatchIsUnique | agent/media_capture_agent/uvc_identity.py:113-130 | a device is matched exactly if it is the only one with the approved serial key and that key is not latched |
| UvcIdentity.RefusalMeans | agent/media_capture_agent/uvc_identity.py:113-130 | absent exactly without a device of the approved serial, or of the model if there is none; duplicate exactly with two of the serial and no latch |
| UvcApprovals.Saved | agent/media_capture_agent/uvc_approvals.py:205-225 | a save keeps a duplicate latch for the same key |
| UvcApprovals.Started | agent/media_capture_agent/uvc_approvals.py:186-203 | approval and latch carry over; no approval is needed exactly if one is on record, the last session was released and none was demanded |
| UvcApprovals.ApprovalStore.Write | agent/media_capture_agent/uvc_approvals.py:125-174 | one record changes, atomically; a failure may come after the change |
| UvcApprovals.ApprovalStore.StartSession | agent/media_capture_agent/uvc_approvals.py:186-203 | a session found armed, a missing approval or a standing demand requires approval |
| UvcApprovals.ApprovalStore.Save | agent/media_capture_agent/uvc_approvals.py:205-225 | only the session on record can save, and only its own record |
| UvcController.DecisionMeans | agent/media_capture_agent/uvc_identity.py:113-130 | what each outcome of the matching says of the devices present |
| UvcController.ReconnectController.constructor | agent/media_capture_agent/uvc_identity.py:142-160 | nothing is bound at the start |
| UvcController.ReconnectController.Reconcile | agent/media_capture_agent/uvc_identity.py:169-199 | a binding stands, is the unique device with the approved key, or is none; contested devices require approval and latch a duplicate; discovery alone is never online |
| UvcController.ReconnectController.Approve | agent/media_capture_agent/uvc_identity.py:201-219 | the exact selection is recorded before it is bound, with the latch for a duplicated serial |
| UvcController.ReconnectController.RequireApproval | agent/media_capture_agent/uvc_identity.py:221-227 | nothing stays bound, approval is required, and the record says so unless the save failed |
| UvcController.ReconnectController.CaptureReady | agent/media_capture_agent/uvc_identity.py:229-232 | online only with the approved binding |
| UvcController.ReconnectController.CaptureUnsupported | agent/media_capture_agent/uvc_identity.py:239-250 | only with a binding |
| UvcController.ReconnectController.EndCapture | agent/media_capture_agent/uvc_identity.py:234-256 | the binding ends with the capture |
| UvcController.ReconnectController.Shutdown | agent/media_capture_agent/uvc_identity.py:258-269 | the session is released only with nothing bound, and the record says what the controller held |
| UvcController.Source.constructor | agent/media_capture_agent/uvc_capture.py:380-388 | a session needs approval exactly if its record says so |
| UvcController.Source.FailStorage | agent/media_capture_agent/uvc_capture.py:527-530 | after a failed save nothing is bound |
| UvcController.Source.Reconcile | agent/media_capture_agent/uvc_capture.py:532-552 | a bound camera is the exact approved evidence or the unique device with the approved key, never a durably latched one, and none before a required approval |
| UvcController.Source.Approve | agent/media_capture_agent/uvc_capture.py:759-792 | the record holds the selection before it is bound |
| UvcController.Source.Conflict | agent/media_capture_agent/uvc_capture.py:572-586 | two sources on one camera lose it both, and each needs the Owner's approval, on record unless the save failed |
| UvcController.Source.EndCapture | agent/media_capture_agent/uvc_capture.py:554-570 | the binding ends with the capture |
| UvcController.Source.Close | agent/media_capture_agent/uvc_capture.py:794-829 | the session is released only if nothing is held and its record is not in doubt; whether the release was written is told apart from whether it succeeded |
| UvcController.RestartAfterStop | agent/media_capture_agent/uvc_approvals.py:186-203 | a process started where another stopped, at any moment or after any close, binds nothing before a new approval, exactly unless the session was released with a standing approval |
| UvcController.LatchedForGood | agent/media_capture_agent/uvc_approvals.py:215-225 | a latched key that stays approved stays latched through all writes and restarts |
| UvcController.LatchOutOfStep | agent/media_capture_agent/uvc_identity.py:201-219 | a controller used on after a failed approval rebinds a durably latched key |
| UvcController.ReleasedButRunning | agent/media_capture_agent/uvc_identity.py:258-269 | a controller used on after a failed release binds unarmed, and the next session asks for no approval |
| UvcController.UncleanButReleased | agent/media_capture_agent/uvc_capture.py:816-825 | a close whose release was written but reported as failed is unclean, and the next session asks for no approval |
| BoundedCall.DeviceCall.CompleteLocked | agent/media_capture_agent/uvc_capture.py:161-185 | the result is kept for the caller, or the worker owes the value and the deferred releases |
| BoundedCall.DeviceCall.AbandonLocked | agent/media_capture_agent/uvc_capture.py:198-204 | giving up fails exactly if the call is done |
| BoundedCall.DeviceCall.DeferLocked | agent/media_capture_agent/uvc_capture.py:187-196 | a release is accepted exactly while an abandoned call has not finished |
| BoundedCall.StepKeepsInv | agent/media_capture_agent/uvc_capture.py:146-265 | what every interleaving of caller and worker keeps |
| BoundedCall.ValueGoesOnce | agent/media_capture_agent/uvc_capture.py:146-216 | a value is received or discarded, never both, and once both threads are through not neither |
| BoundedCall.ReleasesRunOnce | agent/media_capture_agent/uvc_capture.py:171-196 | every accepted release runs once, in order, before the call counts as done |
| BoundedCall.OneOutstanding | agent/media_capture_agent/uvc_capture.py:223-255 | at most one call is outstanding, and a new one starts exactly when none is |
| BoundedCall.WorkerFinishes | agent/media_capture_agent/uvc_capture.py:161-185 | once its function returned, a worker comes to its end by its own steps |

## Left out

- RingRecent.RecentOf: where a source's current profile began is an input, because it is one recorded number per configuration.
- DiskRing.DiskRing.Append: ledger capacity and free space are answers that may come out either way, because they are measurements of the filesystem; that it succeeds when they all pass is stated for duration mode; the row reservation is proved separately in `RingBounds`.
- DiskRing.DiskRing.FreeForWrite: whether the write fits is such an answer too.
- DiskRing.DiskRing.Configure: the estimates a proposal must fit are such answers; what may be deleted for it is exact.
- DiskRing.DiskRing.Recover: length and checksum verification of a file is given as a set of corrupt files.
- ReviewPublication.Collector.CollectHeld: the live reads are inputs of one pass; their order against requests is in `ReviewRequests`.
- ReviewEvaluation.Evaluate: who an author is, whether a text is clean and what a short commit name resolves to are given.
- TreeDiff.CanonicalDiff: text holds no lone surrogates, which the original's encoder would refuse.
- CredentialStore.CredentialStore.Swap: the advisory lock is assumed to be honoured by writers; readers take none.
- UvcController.Source.Reconcile: another source's session on the same file appears only through the proof that no session changes another's record.
- Loss of writes that were not yet flushed to disk: a stop keeps every file operation that returned, and fsync matters only where it can still report a failure.
- Exceptions delivered asynchronously between a commit and the statement that notes it, in the credential store.
- Inode numbers are never reused in the model; a name of a generation is never reused either.
- Identities from uuid4 and token_hex are counters.
- SHA-256 and sizes in credential manifests stand for the content itself.
- Reconciliation of stored rows whose files vanish while the ring runs, and outside deletion of ring media.
- The future-row reservation of incidents, budget, status messages and reason texts of the ring, and state names used only for display.
- The manager's device scanning, launching, retries and teardown around the camera controller.
- GitHub transport, JSON parsing, signing of receipts, X.509 and TLS, installers, web and server code: transport, foreign libraries and single-branch validation.
