# Verified model of the mlmpub live publisher

mlmpub plays a short source clip as an endless live stream over MoQ. This project models how it does that in
Dafny and proves what its documentation and tests promise, for all inputs, all sample and group numbers and
all runs, including runs cut short by a cancellation or a failing write.

`dafny verify dfyconfig.toml` verifies the whole project.

## What is modelled

**The looped live timeline.** `Timeline` is the plain arithmetic of a clip of samples of duration d looped
every L: no drift accumulates, the source position never runs out of the clip exactly when L fits the clip,
and its periods are known exactly. `Tracks` shows that the 64-bit computation of `CalcSample` is that
arithmetic as long as the start time fits, `LoopDuration` models `setLoopDuration` over the objects it
updates, `Loading` what loading a track establishes for it, `Gop` the GOP scan. `Groups` cuts the same
samples into groups of constant average duration.

**Publishing.** `Publish` and `Frames` say what a run has to send and when; `PublishTracks`, `Loc` and `MoqMi`
hold the loops that generate, pace and write objects, each proved to send an initial part of that, each object
released at its due time, and to stop early only when something stopped it. `Sessions` is their environment: the
clock is an arbitrary non-decreasing input, cancellation, failing calls and failing encodings may happen at any
point, and the first of them is what a run has to report. Objects can only go into the open subgroup of their group,
and only after a look at the context. `rounds` bounds a run that has no other end.

**NAL units.** `Nalu` is the 4-byte length-prefixed format. `Rewrite` models the rewrite that compacts a
sample inside the very buffer it is reading, `InitSamples` the loop over all samples of a track,
`CapturedSets` what becomes of parameter sets captured on the way and `ClipSets` which of them a whole clip ends
up with. `Splice` inserts caption units, `LocConfig` prepends decoder configurations, `AnnexB` reframes to start
codes and reads them back, and `VideoPath` puts the steps together. Which units a codec keeps or takes for a coded
slice is a parameter.

**Smaller pieces.** `Cues` and `Subtitles` tile subtitle segments with cues, `Trim` is the audio post-processor
that makes clips loopable, `Joining` the catalog fetch and subscription that must not lose or repeat anything.

## Assumptions the code relies on

- Sample duration, time scale, loop duration and batch size are positive (`Clip.Ready`, the `requires` of the
  publish loops). Where the source checks for zero, the model has the refusal instead.
- Products in 64 bits do not wrap: `FitsIn64` and `TimesFit` bound a run, and `CalcSampleMeaning` and
  `CalcMoQGroupMeaning` show that these bounds are exact. A batch of samples lasts less than 2^63 track units
  (`BatchFits`). The 32-bit products of `setLoopDuration` may wrap.
- Every NAL unit read by the rewrite has a first byte (the source indexes it).
- A clip is not empty after the edit list has been applied (the source indexes its first sample).

## Where the code does less than it seems to promise

- The GOP scan does not look at the distance from the last sync sample to the end of the clip, so a clip whose
  last GOP is longer or shorter than the others passes. Such a clip does not play a sync sample every G samples:
  `Gop.RandomAccess` proves that all GOPs being equally long is exactly what is needed,
  `Gop.LongLastGopAccepted` and `Gop.ShortLastGopAccepted` are the two kinds of clips. moq-mi extradata and the
  LOC configuration are affected in the same way (`MoqMi.ExtradataOnSyncSamples`, `Loc.ConfigOpensEveryGroup`).
- The comment at internal/asset.go:192 wants all samples but the last to have the same duration, but the check also
  accepts a clip whose first samples have none. `Loading.AcceptedIsUniform` says exactly when an accepted clip is as
  promised, `Loading.LeadingZeroAccepted` gives one that is not.
- Parameter sets found in a sample are kept as slices of the buffer that the rewrite overwrites. The comment at
  internal/media.go:49-52 speaks of extracting them. `CapturedSets.CapturedSurvivesExactly` says exactly when a
  captured set keeps its bytes. One at the start of a sample does so only when nothing behind it is kept
  (`LeadingSetIsLost`), so an avc3 sample of an SPS, a PPS and a slice passes the count check, but what is handed on
  to be parsed are other bytes (`InBandSpsIsLost`, `Avc3SpsIsLost`). Nor is the lost set recognised when it comes
  again: such a clip ends up with one SPS exactly when no later sample has any (`ClipSets.OneSetInBand`), so the
  usual clip with its sets in front of every IDR picture is refused for having two (`ClipSets.Avc3ClipIsRefused`).
  Sets that the sample entry gives are not affected: `ClipSets.InitAvc1` has the exact condition on such a clip.
- The comment at internal/asset.go:1051-1056 supports a source with a short last sample. Its timeline has a gap behind
  that sample, and it plays without gaps exactly when the loop never reaches it (`Tracks.ShortLastSample`).
- For cues longer than a second, internal/subtitle.go:166 divides by the cue distance in ms but then counts
  in seconds; `Cues.CuesProper` and `Cues.LongCuesFallShort` give the exact consequence. The default of 900 ms
  is fine in every group.
- The first moq-mi video group is the next GOP only when a GOP is a whole number of ms (`MoqMi.VideoStart`).
- The comment at internal/pub/moqmi.go:146 promises the next audio frame at or after now. The time is rounded
  down to a track unit first, so a frame that started a fraction of a unit ago is taken for the next one
  (`MoqMi.AudioStart` has the exact condition, `MoqMi.AudioStartsBeforeNow` an input).
- With a plain length-prefix split, splicing drops up to three bytes behind the last unit of a sample
  (`Splice.SplicePreserves`).
- A joining subscriber reads one object from the fetch. That is enough for a single-object catalog and for
  nothing else (`Joining.OneReadSuffices`).

## Model

| member | source | states |
|---|---|---|
| `Loading.CheckDurations` | internal/asset.go:188-197 | the duration check accepts a clip exactly when every sample but the last has the first non-zero duration or precedes it |
| `Loading.FirstDuration` | internal/asset.go:188-197 | the sample duration is that of the first sample that lasts, and the clip is accepted if and only if all samples behind it, but for the last, are as long |
| `Loading.ConsistentMeans` | internal/asset.go:188-197 | for a clip whose first sample lasts, that is: all samples but the last are as long as the first |
| `Loading.AcceptedIsUniform` | internal/asset.go:188-197 | an accepted clip has one duration in all samples but the last, as the comment in the loop promises, if and only if its first sample lasts, it has one sample only or no sample lasts |
| `Loading.LeadingZeroAccepted` | internal/asset.go:188-197 | a concrete clip that is accepted although its durations differ: 0, 1024, 1024 |
| `Loading.ShiftByEditList` | internal/asset.go:213-230 | what is left is the clip from its first sample at or after the media time on, each decode time reduced by it |
| `Loading.ShiftOfUniformClip` | internal/asset.go:213-230 | on a uniform clip exactly ceil(offset/d) samples go, no shifted time underflows, and the first one is in [0, d) |
| `Loading.Load` | internal/asset.go:188-289 | a loaded track is consistent, shifted, non-empty, has no irregular GOPs and its 32-bit duration; its GOP length is the only one that fits its sync samples, and 0 only when it does not start with a sync sample or has no second one; a refused one fails the duration check, is audio whose edit list does not hold exactly one entry, has irregular GOPs or its codec data cannot be initialised |
| `Loading.EditListApplied` | internal/asset.go:198-230 | a loaded video track, and audio without edit list, keeps its samples; audio with one has exactly one entry and is shifted by that media time |
| `Loading.LoadedTrackIsReady` | internal/asset.go:288-289 | a loaded track that passes setLoopDuration has a source sample for every output sample for ever, even when 32-bit products wrap |
| `Loading.AssetIsReady` | internal/asset.go:499-527 | once setLoopDuration has succeeded, a loaded track of the asset can be played for ever if and only if its loop is not empty |
| `Loading.FinishAsset` | internal/asset.go:499-527 | the last step of loading an asset succeeds exactly when every track fits, and then that holds for all its tracks |
| `Gop.ScanGops` | internal/asset.go:232-247 | reports G exactly when the sync samples are 0, G, 2G, ... up to a last one, inconsistent exactly when the clip starts with a sync sample but no distance fits, and otherwise 0 |
| `Gop.RandomAccess` | internal/asset.go:232-247 | for an accepted clip looped over its own length, sample n is a sync sample iff G divides n, for all n, if and only if the last GOP is as long as the others |
| `Gop.LongLastGopAccepted` | internal/asset.go:232-247 | a concrete clip with a longer last GOP: the scan accepts it, but sample 4 is no sync sample although G = 2 |
| `Gop.ShortLastGopAccepted` | internal/asset.go:232-247 | a concrete clip with a shorter last GOP: the scan accepts it with G = 3, but sample 5 is a sync sample |
| `Gop.SecondGroupsStartGops` | internal/moqgroup.go:78-90 | one-second groups of one GOP each start at multiples of G |
| `Timeline.Membership` | internal/asset.go:1079-1092 | loop k holds exactly the samples from ceil(kL/d) up to ceil((k+1)L/d) |
| `Timeline.NoAccumulatedDrift` | README.md:34-37 | for every k the first sample of loop k starts in [kL, kL+d), reads source position 0, is number ceil(kL/d), and the loop holds floor(L/d) or ceil(L/d) samples |
| `Timeline.Successor` | internal/asset.go:1079-1092 | the source position after orig(n) is orig(n)+1 inside a loop and 0 at the next one |
| `Timeline.Lag` | internal/asset.go:1079-1092 | orig(n)*d lags the loop position n*d mod L by at least 0 and less than d, for every n |
| `Timeline.IndexSafety` | internal/asset.go:1079-1092 | orig(n) < N for every n if and only if L <= N*d |
| `Timeline.WholeLoop` | internal/asset.go:507-511 | a loop of N whole samples plays sample n mod N |
| `Timeline.ExactPeriod` | internal/asset_test.go:71-77 | m is a period of the source positions if and only if L divides m*d (or L <= d) |
| `Timeline.AacCycle` | internal/asset_test.go:71-123 | AAC over ten seconds repeats after m samples iff 1875 divides m |
| `Tracks.CalcSampleMeaning` | internal/asset.go:1079-1092 | the 64-bit computation gives the ideal start time and source position exactly for the samples whose start time fits in 64 bits; no step underflows there |
| `Tracks.EmittedBy` | internal/asset.go:1080-1092 | the index CalcSample returns is in bounds and reads the sample of the ideal timeline |
| `Tracks.ContentTrack.CreateFragment` | internal/asset.go:1043-1076 | the chunk holds exactly the samples startNr..endNr-1 of the looped track, in order, with decode time n*d |
| `Tracks.ShortLastSample` | internal/asset.go:1051-1056 | a clip that is uniform but for its last sample plays without gap or overlap, for ever, if and only if the last sample is as long as the others or the loop never reaches it |
| `Tracks.RenderAt` | internal/asset.go:1043-1076 | entry i of a rendered range is output sample a+i |
| `Tracks.RenderSplit` | internal/asset.go:1043-1076 | rendering a range is rendering its two parts one after the other |
| `LoopDuration.Asset.SetLoopDuration` | internal/asset.go:499-527 | succeeds exactly when there is a group and every track fits; then every track has its loop and the asset its loop time; on failure the asset keeps its loop time. An asset of one track succeeds exactly when the track lasts a whole number of ms, and loops over its own length |
| `LoopDuration.FitsInTime` | internal/asset.go:503-521 | without wrap-around: the loop time is the first track's duration in ms, rounded down; a track fits exactly when it lasts that long, or at least that long for late audio; its loop is its own length, or for late audio the whole units in that time |
| `LoopDuration.LoopMSMeaning` | internal/asset.go:503 | the loop time is the last whole millisecond of the first track, and exact iff the track lasts whole milliseconds |
| `LoopDuration.LoopNeverExceedsClip` | internal/asset.go:499-527 | a compatible track never gets a loop longer than its clip, even under wrap-around |
| `LoopDuration.AssignedLoopMeaning` | internal/asset.go:507-521 | without wrap-around the loop is floor(ms*T/1000) track units, exact except for a late audio track with a fractional unit, and within the clip |
| `LoopDuration.LoopsFollowWallClock` | internal/asset.go:499-527 | sample n lies in the wall-clock loop of M ms that holds its start time, for all n, if and only if L*1000 = M*T |
| `LoopDuration.TracksStayInSync` | README.md:30-33 | two tracks on the same wall-clock loop are always in the same loop, and their lags differ by less than one sample of either side |
| `Groups.CalcMoQGroupMeaning` | internal/moqgroup.go:78-90 | the 64-bit range is the ideal one if and only if the end product fits in 64 bits |
| `Groups.GroupsPartitionSamples` | internal/moqgroup.go:78-90 | sample n lies in the range of its own group and of no other, for every group duration |
| `Groups.OneSecondGroups` | README.md:34-37 | with one-second groups the group of sample n is floor(n*d/T), group g starts in [gT, gT+d) and holds floor(T/d) or ceil(T/d) samples |
| `Groups.NextGroupStart` | internal/pub/pub.go:334-337 | the group after the current one starts after now, and less than a second and one sample later |
| `Publish.BatchesFlatten` | internal/moqgroup.go:46-68 | the chunks of a range flatten to the range for every batch size |
| `Publish.RunCarriesEverySample` | internal/moqgroup.go:31-90 | over any run of groups and any batch size the objects carry every sample of the looped track once and in order, with decode time n*d |
| `Publish.CutRunCarriesPrefix` | internal/moqgroup.go:100-128 | a run cut at any object has delivered an initial part of those samples |
| `Publish.SentCarriesPrefix` | internal/pub/pub.go:340-367 | what a run has sent, however it ended, carries the first samples of its groups and nothing else; all of them if it completed |
| `Publish.DueAfterItsSamples` | internal/moqgroup.go:107-108 | object i of a group is numbered i and is due one batch duration after its first sample starts, which is no earlier than the end of its last sample and less than one batch after it |
| `Publish.MSMeaning` | internal/moqgroup.go:108 | the due time in ms is the last whole millisecond at or before the due time |
| `Publish.DueOnClock` | internal/moqgroup.go:100-128 | on the clock, every object of a run is due in the last whole millisecond before one batch after its first sample starts: less than a ms before the end of its last sample at the earliest, less than a batch after it |
| `Publish.ObjectCarries` | internal/moqgroup.go:46-68 | object i of group g has the group number as its 32-bit sequence number and carries the i-th batch of the group; only the last batch is short |
| `Publish.DueTimesIncrease` | internal/moqgroup.go:100-128 | due times strictly increase over all objects of a run, also across group boundaries with a short last batch; in whole ms they never decrease, and strictly increase if d >= 1 ms |
| `Publish.PlanExists` | internal/moqgroup.go:31-128 | every ready track has the schedule the publish loops are measured against |
| `PublishTracks.GroupRangeFits` | internal/moqgroup.go:31-45 | as long as the end boundary fits in 64 bits, range, start and end time of a group are the planned ones |
| `PublishTracks.GenMoQGroup` | internal/moqgroup.go:31-69 | a generated group has the planned number, range and times, and its objects are the range cut into batches, the last one possibly short; none for an unknown packaging. No group is generated exactly when encoding a chunk has failed |
| `PublishTracks.GenChunks` | internal/moqgroup.go:46-68 | the stepping loop appends exactly the batches of the range, and none for an unknown packaging; it fails exactly when encoding a chunk has failed |
| `PublishTracks.ObjTimeMeaning` | internal/moqgroup.go:107-108 | the 64-bit due time is the planned one if and only if that fits in 64 bits |
| `PublishTracks.DueTimesFit` | internal/moqgroup.go:107-108 | it fits for every object of a group whose end boundary fits, as long as a batch lasts less than 2^63 track units |
| `PublishTracks.WriteMoQGroup` | internal/moqgroup.go:100-128 | what was written is an initial part of the group, numbered 0, 1, ..., in order, each object after a look at the context and held back until exactly its due time or sent at once when that has passed; the outcome says what stopped it, and is the whole group when nothing did |
| `PublishTracks.PublishGroup` | internal/pub/pub.go:340-367 | one turn of the loop opens the subgroup of its group, sends an initial part of the planned objects into it, and the whole of it and closes the subgroup unless a cancellation, a failing call or a failing encoding stopped it |
| `PublishTracks.PublishGroups` | internal/pub/pub.go:340-367 | every run, however it ends, has sent an initial part of the planned objects of its groups in order and on time; the outcome is what stopped it first, and a run that nothing stopped is complete |
| `PublishTracks.PublishTrack` | internal/pub/pub.go:325-368 | the run starts with the group after the current one, and the samples it has sent are the first of the looped track from there on |
| `Sessions.Session.Pace` | internal/pub/pub.go:428-437 | an object is held back until exactly the time it is due, or not at all when that has passed; only a cancellation ends the wait early |
| `Sessions.Session.SendNext` | internal/moqgroup.go:102-126 | sends the next object of a group into its open subgroup at its due time, after a look at the context, or nothing when cancelled or failing |
| `Sessions.ExtendSent` | internal/pub/pub.go:340-367 | what a turn of a publish loop sends continues the initial part sent so far |
| `Frames.RunSendsEverySample` | internal/pub/pub.go:408-470 | a run of single-sample objects sends the samples of its groups each once and in order, numbered within the group and due when the sample is |
| `Loc.DueOnClock` | internal/pub/pub.go:428-437 | on the clock, every object of a LOC run is due in the last whole millisecond at or before the start of its sample |
| `Loc.TimestampExact` | internal/pub/pub.go:449-452 | the quotient/remainder form is floor(t*1000000/T) mod 2^64 for all 64-bit times, exact iff that fits: no intermediate overflow |
| `Loc.TimestampsIncrease` | internal/pub/pub.go:449-452 | timestamps strictly increase along a track if and only if d*1000000 >= T |
| `Loc.LocMatchesCmaf` | internal/pub/pub.go:408-470 | over the same groups the LOC objects are, one by one, the samples of the CMAF chunks in LOC form |
| `Loc.ConfigOpensEveryGroup` | internal/pub/pub.go:440-447 | for one-second GOPs the decoder configuration is sent with the first object of every group and no other, if and only if the last GOP is as long as the others |
| `Loc.MakeFrame` | internal/pub/pub.go:420-454 | payload, timestamp and due time of an object are those of its sample number |
| `Loc.LocPlanExists` | internal/pub/pub.go:408-470 | every ready track has the schedule the LOC loops are measured against |
| `Loc.WriteLOCGroup` | internal/pub/pub.go:418-465 | what was written is an initial part of the group, in order and each at its due time; all of it unless cancelled or failing |
| `Loc.PublishLOCGroup` | internal/pub/pub.go:408-470 | one turn of the loop sends an initial part of its group into the subgroup of that group, and all of it unless cancelled or failing; the subgroup is closed in every case |
| `Loc.PublishLOCGroups` | internal/pub/pub.go:408-470 | every LOC run, however it ends, has sent an initial part of its groups in order and on time, and all of it unless cancelled or failing |
| `Loc.PublishLOCTrack` | internal/pub/pub.go:379-471 | exactly a track without timing is refused and sends nothing; otherwise the run starts with the group after the current one |
| `LocConfig.AppendUnits` | internal/media.go:141-155 | appends the length-prefixed encoding of the units |
| `LocConfig.GenLOCVideoConfigAVC` | internal/media.go:141-155 | the AVC configuration is the encoding of SPSs then PPSs |
| `LocConfig.GenLOCVideoConfigHEVC` | internal/media.go:312-331 | the HEVC configuration is the encoding of VPSs, SPSs, PPSs |
| `LocConfig.PayloadSplitsIntoSetsAndSample` | internal/pub/pub.go:440-447 | a LOC payload splits into the parameter sets, exactly for sync samples, followed by the sample's own units, with unchanged well-formedness |
| `MoqMi.SequenceNumbers` | internal/pub/moqmi.go:80-135 | in every run the sequence number is the global sample number g*G+id, the payload is that sample, pts/timebase its start and duration/timebase its length in seconds; extradata comes with the first of each GOP, and the object is due in the last whole millisecond at or before its start |
| `MoqMi.ExtradataOnSyncSamples` | internal/pub/moqmi.go:117-122 | extradata comes with exactly the sync samples, for every sample number, if and only if the last GOP is as long as the others |
| `MoqMi.StartGopMeaning` | internal/pub/moqmi.go:66-76 | the first video group has the number of the next multiple of a GOP in whole ms, or of a second for a GOP below a ms |
| `MoqMi.VideoStart` | internal/pub/moqmi.go:66-76 | the first video group starts after now and at most one GOP later, for every now, if and only if a GOP is a whole number of ms |
| `MoqMi.AudioStart` | internal/pub/moqmi.go:147-154 | the first audio frame starts less than one track unit before now and less than a frame after it; it starts at or after now if and only if now is a whole track unit or, rounded down, no frame boundary |
| `MoqMi.AudioStartsBeforeNow` | internal/pub/moqmi.go:146-154 | an input for which it starts before now: AAC at 44.1 kHz, 209 ms |
| `MoqMi.StartFrameFits` | internal/pub/moqmi.go:147-154 | the 64-bit computation gives that frame while now*T fits |
| `MoqMi.MakeFrame` | internal/pub/moqmi.go:97-122 | number, time stamps, extradata flag and payload of an object are those of its sample number |
| `MoqMi.WriteVideoGroup` | internal/pub/moqmi.go:89-128 | a GOP is written in order and on time, as an initial part of it if interrupted, and the sequence number advances by one GOP |
| `MoqMi.MiPlanExists` | internal/pub/moqmi.go:80-217 | every ready track has the schedule the moq-mi loops are measured against |
| `MoqMi.PublishVideoGroup` | internal/pub/moqmi.go:80-135 | one turn of the loop sends an initial part of its GOP, and all of it unless cancelled or failing |
| `MoqMi.PublishVideoGroups` | internal/pub/moqmi.go:80-135 | every video run, however it ends, has sent an initial part of its GOPs in order and on time |
| `MoqMi.PublishMoqMIVideo` | internal/pub/moqmi.go:50-136 | exactly a track without GOP length, or whose decoder configuration record cannot be built, is refused and sends nothing; otherwise the run starts with the next GOP in wall-clock time |
| `MoqMi.WriteAudioFrame` | internal/pub/moqmi.go:166-215 | a frame is the only object of its group, sent at its due time, or not at all when cancelled or failing; its subgroup is closed in every case |
| `MoqMi.WriteOnlyObject` | internal/pub/moqmi.go:184-213 | an object that is due is written into a subgroup of its own, which is closed also when the write fails |
| `MoqMi.PublishAudioFrames` | internal/pub/moqmi.go:166-217 | every audio run, however it ends, has sent an initial part of its frames in order and on time |
| `MoqMi.PublishMoqMIAudio` | internal/pub/moqmi.go:138-218 | exactly a track without sample duration is refused and sends nothing; otherwise the run starts at the next frame boundary |
| `MoqMi.SeqState.SeqDelta` | internal/sub/moqmi.go:171-180 | 0 for the first number, then the 64-bit difference to the previous one; the number is remembered |
| `MoqMi.Receive` | internal/sub/moqmi.go:72-93 | the receive loop reports the gap of every object to the one before it |
| `MoqMi.GapsDetectLoss` | internal/sub/moqmi.go:169-180 | all gaps after the first are 1 if and only if every number is the successor of the one before |
| `MoqMi.GapCountsLoss` | internal/sub/moqmi.go:169-180 | a gap of m+1 is reported if and only if exactly m numbers are missing, modulo 2^64 |
| `MoqMi.LossReported` | internal/sub/moqmi.go:169-180 | when the objects of a run between i and j are lost, the gap reported is j-i |
| `MoqMi.NoGapReported` | internal/pub/moqmi.go:80-135 | for any initial part of a run delivered in order the subscriber reports 0 first and 1 ever after |
| `Nalu.SplitEncoded` | internal/cc608/splice.go:19-20 | splitting encoded units followed by anything yields the units and then what splits from the rest |
| `Nalu.SplitEncode` | internal/cc608/splice.go:19-20 | splitting inverts encoding |
| `Nalu.EncodeSplit` | internal/cc608/splice.go:19-20 | re-encoding the units read restores the data up to a tail too short for a length (no error) or for the length it states (error) |
| `Nalu.Uint32RoundTrip` | internal/media.go:230-231 | a length below 2^32 survives its four bytes |
| `Nalu.PutUint32RoundTrip` | internal/media.go:230-231 | every four bytes are the encoding of the length they state |
| `Nalu.Uint32Bytes` | internal/sub/loc.go:45 | a length is read with its first byte counting most |
| `Nalu.PutUint32Bytes` | internal/media.go:77 | and written that way |
| `Nalu.UnitBytes` | internal/sub/loc.go:42-61 | four bytes that state a length, followed by that many bytes, are the encoding of one unit and are read as it |
| `Nalu.ExcessBytes` | internal/sub/loc.go:47-49 | four bytes that state more than there is are an error |
| `Rewrite.AppendNewNALU` | internal/media.go:110-117 | a unit is appended unless an entry stands for the same bytes at that moment |
| `Rewrite.WriteUnit` | internal/media.go:77-79 | length and bytes land at the write position although source and target overlap; the rest of the buffer is unchanged |
| `Rewrite.HandleUnit` | internal/media.go:72-84 | one unit is captured, written back or dropped; buffer, write position and sets change accordingly |
| `Rewrite.TurnKeepsGoal` | internal/media.go:228-256 | handling a unit never corrupts an unread one: what is still to be read and where the rewrite leads are unchanged |
| `Rewrite.RewriteHEVC` | internal/media.go:224-257 | fails exactly on a malformed sample; in any case the effect is that of handling the units read from the original bytes in order |
| `Rewrite.RewriteAVC` | internal/media.go:64-86 | fails exactly on a malformed sample, then leaving buffer and sets alone; otherwise the same effect |
| `Rewrite.FinalMeaning` | internal/media.go:64-86 | handling units one by one overwrites the front with the encoding of the kept ones, never beyond what has been read |
| `Rewrite.RewriteMeaning` | internal/media.go:64-86 | a rewritten sample is exactly the length-prefixed encoding of its kept units in order; no other byte of the buffer has changed |
| `Rewrite.RewriteIsIdempotent` | internal/media.go:64-86 | a rewritten sample splits into the kept units, and rewriting it again changes nothing |
| `InitSamples.InitHEVC` | internal/media.go:199-288 | succeeds exactly when SPS and PPS are given, every sample splits and the library can use the sets, read as the bytes their slices hold after the rewrite; if all samples split, every sample slice holds its kept units and all other bytes are unchanged |
| `InitSamples.InitAVC` | internal/media.go:53-107 | succeeds exactly when every sample splits, there is exactly one SPS and one PPS and the library can use these as the bytes their slices hold after the rewrite; the samples as for HEVC |
| `InitSamples.SetsHandedOn` | internal/media.go:95-100 | the library gets the VPSs, the SPSs and the PPSs, each list as its own argument |
| `InitSamples.RewriteNext` | internal/media.go:64-86 | rewriting one sample leaves the samples before and behind it intact |
| `CapturedSets.GivenSetsStay` | internal/media.go:72-76 | when the sample entry already gives the sets that occur in a sample, rewriting adds none |
| `CapturedSets.CapturedSurvivesExactly` | internal/media.go:64-86 | a set captured from a sample keeps its bytes if and only if the rewritten sample ends in front of it or writes the set's own bytes where it reaches into it |
| `CapturedSets.CapturedSurvives` | internal/media.go:64-86 | in particular when the units kept behind it fit into its length field and what was dropped before it |
| `CapturedSets.LeadingSetIsLost` | internal/media.go:64-86 | with unit types read from the first byte, a set at the start of a sample survives if and only if no unit behind it is kept |
| `CapturedSets.LeadingSetReads` | internal/media.go:64-86 | in front of a kept unit at least as long it reads that unit's first bytes |
| `CapturedSets.LeadingSetIsCaptured` | internal/media.go:72-76 | an unknown SPS at the start of a sample is captured as the slice it lies in |
| `CapturedSets.CodecsDecideByFirstByte` | internal/media.go:71-83 | the kinds of both codecs depend on the first byte only |
| `CapturedSets.CodecsKeep` | internal/media.go:71-83 | an AVC sample keeps exactly its units of type 1, 5 and 6, an HEVC sample all but its VPSs, SPSs and PPSs |
| `CapturedSets.InBandSpsIsLost` | internal/media.go:64-89 | every sample of an SPS, a PPS and a slice passes the count check with one SPS and one PPS, but the bytes of the captured SPS, which are what is handed on, are then others |
| `CapturedSets.Avc3SpsIsLost` | internal/media.go:64-89 | a concrete avc3 sample of that kind |
| `ClipSets.ListStays` | internal/media.go:64-86 | a sample adds nothing to the sets of a kind if and only if all its units of that kind are among them already, for sets that lie in front of it |
| `ClipSets.GivenSetsStayInClip` | internal/media.go:60-86 | when the sample entry gives the sets of a kind, a clip adds none if and only if every set of that kind in any of its samples is given |
| `ClipSets.OneSetLeft` | internal/media.go:60-89 | so exactly one is left if and only if exactly one is given and the clip has no other |
| `ClipSets.InitAvc1` | internal/media.go:53-107 | with sets in the sample entry a clip loads if and only if every sample splits, the entry gives exactly one SPS and one PPS, no sample holds another one, and the library can use these two, unchanged |
| `ClipSets.ReadsAsNoSet` | internal/media.go:64-86 | once a unit behind it is kept, the captured set at the start of a sample reads as no set of its kind at all |
| `ClipSets.LaterSetIsCaptured` | internal/media.go:64-89 | without sets in the sample entry: behind a first sample that starts with a set, any set of that kind in a later sample is captured as a second one, even the same one repeated |
| `ClipSets.OneSetInBand` | internal/media.go:64-89 | a clip whose first sample starts with its only SPS passes the count check for SPSs if and only if no later sample has any SPS |
| `ClipSets.Avc3ClipIsRefused` | internal/media.go:64-89 | a concrete clip of two IDR pictures with the same SPS and PPS in front of each: two SPSs are counted |
| `Splice.FindFirstVCL` | internal/cc608/splice.go:23-29 | the insertion point is the first coded slice, or the end when there is none; empty units are never slices |
| `Splice.SpliceSEIBeforeVCL` | internal/cc608/splice.go:18-46 | fails exactly on a malformed sample; otherwise the output encodes the units with the SEI directly before the first coded slice |
| `Splice.SplicePreserves` | internal/cc608/splice.go:11-15 | the output splits into the original units with the SEI inserted; removing its bytes restores the sample up to its tail, so exactly iff that is empty |
| `Splice.SpliceAgain` | internal/cc608/splice.go:11-15 | a second SEI goes behind the first, still directly before the coded slice |
| `AnnexB.WritePayload` | internal/sub/loc.go:42-61 | the output is the byte stream of the whole units; a bad length is an error after all units before it; an output error is reported exactly when a write has failed, and a part of that stream is out then |
| `AnnexB.StreamBytes` | internal/sub/loc.go:35-38 | each unit stands behind the four bytes 00 00 00 01 |
| `AnnexB.ReadStream` | internal/sub/loc.go:35-38 | reading the byte stream back yields the units if and only if none contains 00 00 00 or 00 00 01 and none but the last ends in 00 |
| `AnnexB.ReframingIsLossless` | internal/sub/loc.go:35-38 | for units as section 7.4.1 of ITU-T H.264 requires, payload to byte stream and back is the identity |
| `AnnexB.StreamIsInjective` | internal/sub/loc.go:35-38 | two lists of such units with the same byte stream are equal |
| `AnnexB.TruncatedPayload` | internal/sub/loc.go:47-49 | a truncated payload still splits into the first units of the whole one |
| `VideoPath.SampleReachesDecoder` | internal/sub/loc.go:42-61 | rewrite, LOC payload, byte stream and back: the decoder sees the sets (for sync samples) and the kept units iff these can be delimited |
| `VideoPath.WellFormedSampleReachesDecoder` | internal/sub/loc.go:42-61 | with well-formed sets and units that is always so |
| `VideoPath.RunReachesDecoder` | internal/sub/loc.go:42-61 | the file written for any run of samples reads back as the expected units of all of them iff the units of the whole run can be delimited |
| `VideoPath.WellFormedRunReachesDecoder` | internal/sub/loc.go:42-61 | with well-formed sets and units that is always so |
| `Cues.CalcCueItvls` | internal/subtitle.go:157-187 | the list holds exactly the cues the loop reaches, each clipped to the segment and moved to media time |
| `Cues.CuesProper` | internal/subtitle.go:157-187 | cues are non-empty, ordered, disjoint and inside the segment if and only if the first cue is still on at its start |
| `Cues.ShortCuesReach` | internal/subtitle.go:163-166 | for cues of at most a second that is utcStart mod 1000 < cueDur |
| `Cues.LongCuesFallShort` | internal/subtitle.go:163-166 | for longer cues it is false for every segment from 2000 times the cue distance on |
| `Cues.LongCuesListOne` | internal/subtitle.go:163-170 | a segment no longer than the cue distance of k > 1 seconds gets one cue, which announces the second floor(start / 1000k) |
| `Cues.CueShowsItsSecond` | internal/subtitle.go:157-187 | a cue shows at time t iff t mod 1000 < cueDur, and it is the cue of the second of t |
| `Subtitles.CreateSubtitlesWvttMediaData` | internal/subtitle.go:270-297 | the samples are the cues with the gaps before, between and behind them filled |
| `Subtitles.CreateSubtitlesStppMediaData` | internal/subtitle.go:308-361 | one sample as long as the segment, with a document of exactly its cues, numbered in order |
| `Subtitles.DocumentShowsItsSecond` | internal/subtitle.go:308-361 | the document has a cue on at time t iff t mod 1000 < cueDur, and it is the cue of the second of t |
| `Subtitles.SegmentTiles` | internal/subtitle.go:270-297 | the samples tile the segment without gap or overlap if and only if the first cue is still on at its start |
| `Subtitles.ProperSegmentTiles` | internal/subtitle.go:270-297 | and then exactly the cues are shown, in order |
| `Subtitles.SegmentShowsItsSecond` | internal/subtitle.go:270-297 | a WVTT sample shows something at time t iff t mod 1000 < cueDur, and it is the second of t and the group number |
| `Subtitles.GenSubtitleGroup` | internal/subtitle.go:231-267 | exactly an unknown format is refused; a group is one segment at groupNr times its duration on both clocks, cue by cue in WVTT and as one document of the same cues in STPP |
| `Subtitles.GroupTiles` | internal/subtitle.go:231-267 | a one-second STPP group is always tiled, a WVTT group for every group number when cues last at most a second; longer cues break every WVTT group after the first few |
| `Subtitles.GroupShowsItsSecond` | internal/subtitle.go:231-267 | at time t of a one-second group its own second and number are on iff t mod 1000 < cueDur, in either format |
| `Subtitles.RunTiles` | internal/subtitle.go:231-267 | decode times are contiguous over any run of one-second groups, in WVTT with cues of at most a second |
| `Subtitles.CurrentGroupSpansNow` | internal/subtitle.go:377-379 | the current group is the one whose time span the clock is in |
| `Trim.PrimingIsWholeFrames` | utils/contentgen/trimaudio/main.go:104-110 | priming of exactly k frames drops k, and any amount in between none |
| `Trim.Walk` | utils/contentgen/trimaudio/main.go:124-154 | fails exactly when some fragment does not hold one readable sample; otherwise the tally is the one defined by dropping the priming fragments, taking the first targetFrames uniform ones and counting the rest |
| `Trim.Conservation` | utils/contentgen/trimaudio/main.go:117-154 | priming, tail, excess and kept fragments add up to all fragments; kept ones are uniform; an excess means the target was reached |
| `Trim.Reanchor` | utils/contentgen/trimaudio/main.go:157-160 | kept fragment i gets decode time i*sampleDur |
| `Trim.Regroup` | utils/contentgen/trimaudio/main.go:176-195 | the new segments carry the kept fragments in order, none empty, neighbours of different origin, each with its original's header |
| `Trim.WrittenFragments` | utils/contentgen/trimaudio/main.go:176-195 | the fragments of the written segments, one segment behind the other, are those kept |
| `Trim.OriginsDistinct` | utils/contentgen/trimaudio/main.go:176-195 | no original segment is split or repeated |
| `Trim.TrimFile` | utils/contentgen/trimaudio/main.go:82-195 | fails, changing nothing, exactly on a bad fragment or too few uniform ones; otherwise all of the above hold together, and dropped fragments keep their decode times |
| `Trim.TargetIsExact` | utils/contentgen/trimaudio/main.go:40-44 | the target counts are the smallest that pass the ten-second loop requirement of the publisher |
| `Trim.TrimmedClipLoops` | utils/contentgen/trimaudio/main.go:7-18 | a trimmed clip loops every ten seconds and has a sample for every position |
| `Trim.TrimmedClipPlays` | utils/contentgen/trimaudio/main.go:112-195 | what the tool writes is loaded by the publisher, starts at 0 with uniform samples, passes setLoopDuration for a ten-second loop and has a sample for every position |
| `Joining.OneOrder` | internal/pub/pub.go:115-121 | the two sides order locations alike, totally |
| `Joining.FetchAndFilterAreComplements` | internal/pub/pub.go:126-134 | from the start of the largest group on, a location is in the joining fetch iff the subscription skips it, including the largest object number, whose successor wraps |
| `Joining.DeliveredOnceInOrder` | internal/sub/sub.go:423-430 | what is published from that start on is delivered by fetch and filter together exactly once and in order |
| `Joining.CatalogIsFetched` | internal/pub/pub.go:173-195 | the joining fetch is answered with the catalog object iff the largest location is in group 0 |
| `Joining.CatalogAppliedOnce` | internal/sub/sub.go:471-494 | a subscriber applies the catalog once, however often it is sent again, and every later object once in order |
| `Joining.OneReadSuffices` | internal/sub/sub.go:451-457 | reading one object from the fetch misses nothing if and only if there is only one |
| `Joining.Handler.ApplyCatalog` | internal/sub/sub.go:393-412 | a payload that can be parsed becomes the catalog even when writing it out fails; any other leaves it; success is reported exactly when it was parsed and written out |
| `Joining.Handler.JoiningCatalog` | internal/sub/sub.go:431-496 | nothing happens without a largest location or a fetched object; only a fetched payload that cannot be parsed or written out ends the join; a joined subscriber has tried the fetched payload and the later ones in order and holds the last one that could be parsed |

## Left out

- PublishTracks.WriteMoQGroup: the source computes the due time in floating point; the model uses the exact floor in
  integers, because the rounding is not the point.
- Cues.CalcCueItvls: the source rounds the cue length up to seconds in floating point; the model rounds exactly.
- PublishTracks.GenMoQGroup: encoding and encrypting a chunk are in libraries; a chunk is its sequence number
  and its list of samples, and encoding any chunk may fail.
- PublishTracks.PublishTrack: looking up the track by name and refusing an unknown packaging are left out; a
  packaging other than cmaf or locmaf yields empty groups in GenMoQGroup but is not published.
- Loading.Load: whether the codec's own data can be initialised is an input; for video that includes the rewrite
  of the sample data, which is modelled in `InitSamples`.
- MoqMi.WriteAudioFrame: the refusal of an audio format other than AAC and Opus is left out.
- MoqMi.PublishMoqMIVideo: whether the decoder configuration record can be built is an input.
- MoqMi.MakeFrame: the wall-clock stamp, the channel count and the header encoding of an object are left out.
- Rewrite.RewriteAVC: GetNalusFromSample is in a library and is taken to be the plain 4-byte-length split, with
  the units as slices of the sample.
- InitSamples.InitHEVC: building descriptors and parsing the SPS after the rewrite is in libraries; whether they
  accept the sets is a predicate on their bytes. The missing hvcC box is left out. The samples are slices of one
  buffer, as they are when a media file is read at once.
- InitSamples.InitAVC: after a failure the contents of the buffer are not stated, since the track is not loaded.
- Splice.SplicePreserves: assumes an SEI shorter than 2^32 bytes, the largest its length field can state.
- Subtitles.CreateSubtitlesWvttMediaData: the text of a cue is its wall-clock second and group number only.
- Subtitles.GenSubtitleGroup: the loop that publishes subtitle groups is left out, and encoding a segment does not
  fail.
- Subtitles.CreateSubtitlesStppMediaData: the text form of the times and the document around the cues are left out.
- Trim.TrimFile: file input and output and the removal of the edit list box are left out; a segment header is
  an opaque number.
- Trim.TargetIsExact: assumes the duration in ms does not wrap in 32 bits, which every real clip meets.
- Joining.Handler.JoiningCatalog: the transport that resolves the joining fetch is a library; its range is
  taken to run from the start of the largest group to just behind the largest object.
- Bit rate estimates, LOCMAF compression state and encryption IV chaining: library output and floating point.
- Sessions, TLS, the HTTP side server, ClearKey, CPIX, command line flags and logging: input and output.
- AAC and Opus output writers, codec strings, init segments, catalog fields and name lookups: single steps.
