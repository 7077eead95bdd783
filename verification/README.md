# Verified models of the object server's stateful kernels

A Dafny project that models the parts of the server where state, byte offsets or interleavings make
the behaviour hard to see, and proves what they keep over every input and every run. `dafny verify
dfyconfig.toml` checks all of it.

| module | models |
|---|---|
| `BitrotFraming` | streaming bitrot files: writer, random-access reader, size formulas, verifier |
| `BitrotWhole` | whole-file bitrot writer and reader |
| `ObjectLock` | retention and legal-hold decisions on one object version, and runs of requests against it |
| `HealRegistry` | the registry of heal sequences as interleaved critical sections |
| `HealResults` | the bounded, numbered result stream of one heal sequence |
| `MsgPack`, `MsgPackObjects` | appending, reading and skipping MessagePack, against the objects of every format |
| `TrackerCodec` | the healing tracker's self-describing codec |
| `HealingTracker` | the tracker's queue, edited while it is ranged over, and its progress across crashes |
| `BucketMetadata` | one bucket's stored metadata, its parsed form and the migration of legacy files |
| `BucketMetadataSys` | the metadata cache over the store |
| `BucketLoads` | what a load shows and stores, config by config, from the files alone |
| `BucketLockGuard` | the guards that keep versioning on where object lock is on |
| `MultiDelete` | multi-object delete: checks, de-duplication, routing of results |
| `WorkerPool` | the pool of transition workers as interleaved goroutine steps |
| `UrlEncoding` | S3 URL encoding and its decoding |
| `RestoreStatus` | the `x-amz-restore` header and its date |
| `ReplicationStats` | replication counters on the heap, and snapshots of them |

Hashes, parsers, encryption, IAM answers, the clock, map iteration order and the backend's replies are
parameters: the theorems hold for every choice of them that the theorem's preconditions allow.
Concurrent code is a state machine whose steps are the critical sections or goroutine steps of the
source. Objects that the source mutates are classes; their methods are proved against functions on
values, and the theorems are about those functions.

## What the models show about the code

These are results, each stated as a lemma: the code as it is, an input that breaks the tempting claim,
and the exact condition under which the claim holds.

- A streaming read that ends inside a chunk compares part of the chunk with the checksum of all of it:
  it succeeds exactly if the two checksums collide (`BitrotFraming.UnalignedEnd`).
- A whole-file reader that failed to load, for a checksum or a file that is too short, hands out the
  unverified bytes, padded with zeros, when it is read again (`BitrotWhole.ReadAfterFailedLoad`).
- A retention put whose date falls in year 10000 or later in UTC is accepted without any bypass, stored
  as text that does not parse, and read back as no date at all, after which the version can be deleted
  (`ObjectLock.FarDateRemoval`). A compliance or governance version stays protected up to a whole second
  along a run if and only if no such put is accepted (`ObjectLock.ComplianceExactly`,
  `ObjectLock.GovernanceExactly`).
- A compliance or governance date with a fraction of a second can be shortened to its whole second,
  without any bypass, because the retention handler stores whole seconds (`ObjectLock.EarlyRemoval`). On
  runs without far dates, a date before year 10000 is honoured if and only if it is a whole second
  (`ObjectLock.CompliancePrecision`, `ObjectLock.GovernancePrecision`).
- Two running heal sequences can overlap: a late stop removes a newer entry
  (`HealRegistry.RunningOverlapIsReachable`), and a sequence loses its entry in exactly this way
  (`HealRegistry.OrphanedExactlyByLateStops`). Two sequences come to overlap while running if and only if
  one of them is launched, no entry blocks its path, and the other has lost its entry
  (`HealRegistry.ClashExactly`), so along a run they never do if and only if no sequence is launched over
  one without an entry (`HealRegistry.ClearExactly`).
- `bucketDone` on a queue with repeated names removes all of them exactly if no two are adjacent, and
  panics exactly if the name is last and occurs before (`HealingTracker.SkimIsExact`,
  `HealingTracker.Tracker.DeleteFromQueue`).
- Migration depends on the order in which a map is walked exactly if the two legacy lock files disagree
  (`BucketMetadata.MigrationIsOrderIndependent`, `BucketMetadata.ConflictDependsOnOrder`); every walk
  gives the order-free merge of all files but the lock file that it meets first (`BucketMetadata.WalkMerges`).
- Emptying a notification, versioning or quota config leaves the old parsed config in the cache, and a
  legacy file whose deletion failed, which the code only logs, makes a later update of its config
  disappear on the next load (`BucketMetadataSys.FailedDeletionBreaksCoherence`,
  `BucketMetadataSys.UpdateLosesToLegacyFile`). Every reload gives a cached entry if and only if the
  files left behind were absorbed into it (`BucketMetadataSys.ReproducedExactly`), and a run keeps the
  cache coherent all along if and only if every step is careful (`BucketMetadataSys.CoherentExactly`).
  A careful load leaves behind neither a lock file that another one overrides nor a targets file that it
  encrypts; a careful update empties no such config, stores in its config the bytes of the legacy file
  left for it, and finds the other files left, and what they say about lock and versioning, in the
  metadata (`BucketMetadataSys.LoadIsOkExactly`, `BucketMetadataSys.UpdateIsOkExactly`).
- The versioning guard ignores a failed lookup, so a store that fails while the guards look and answers
  again for the update lets versioning be suspended on a locked bucket
  (`BucketLockGuard.FailedLookupSuspends`, `BucketLockGuard.BreachExists`). There is no other way: a
  request breaks the rule if and only if it suspends, site replication is off, the lock lookup fails,
  the replication lookup finds nothing, and the update finds a lock config other than the default one
  and saves (`BucketLockGuard.VersioningExactly`). An import, or a put whose lookup failed, leaves a
  locked bucket with excluded prefixes (`BucketLockGuard.ExclusionsExactly`).
- A multi-delete removes repeated keys, and keys carry replication marks, some of them sent by the
  client: an object named twice with different marks is deleted twice
  (`MultiDelete.ClientMarksDeleteTwice`). Each object is deleted once if and only if passing entries for
  one object are marked alike (`MultiDelete.ObjectsOnceExactly`).
- When the backend of a multi-delete gives up without echoing keys, as the erasure layer does when its
  lock times out (cmd/erasure-server-pool.go:1025-1030), all errors land on entry 0 and the other
  entries are reported as deleted (`MultiDelete.GivingUpIsMisrouted`).
- Failure counters are right along a run exactly if every report is of a kind they follow; a failed
  object set back to pending, or a delete that fails and completes, is not
  (`ReplicationStats.RightExactlyIfFollowed`, `ReplicationStats.OtherTypeGoesNegative`).
- A tracker reads back from its encoding into a fresh one if and only if its strings and lists are
  shorter than 2^32; a longer length wraps (`TrackerCodec.RoundTrip`).
- A restore status reads back exactly if its year is within 0..9999 (`RestoreStatus.ParsePrint`).

Where the code and its comments disagree the models follow the code: `enforceRetentionBypassForDelete`
is described as asking for the bypass permission, and accepts the permission to read the lock
configuration instead; `UpdateWorkers` is described as leaving n goroutines at its end, and leaves n
once the kills it sent are delivered; a malformed legal-hold header is accepted by
`checkPutObjectLockAllowed`, which returns the wrong error variable (cmd/bucket-object-lock.go:314-319).

## Model

| member | source | states |
|---|---|---|
| `BitrotFraming.CeilFrac` | cmd/utils.go:723-738 | for a numerator of at least 0 and a positive denominator, the result is the ceiling of the quotient |
| `BitrotFraming.CeilFracExactly` | cmd/utils.go:723-738 | the ceiling of the quotient for operands of every sign, 0 for a zero denominator |
| `BitrotFraming.EncodedLength` | cmd/bitrot.go:150-155 | the size formula equals the number of bytes of all frames, for every data length and shard size |
| `BitrotFraming.FrameBytesIsShardFileSize` | cmd/bitrot.go:150-155 | the size formula equals the count frame by frame, checksum and chunk, for every size |
| `BitrotFraming.FrameBoundary` | cmd/bitrot-streaming.go:152-152 | the reader's offset of an aligned chunk is where its frame starts, with the frames of the data before and after on either side |
| `BitrotFraming.StreamingWriter.constructor` | cmd/bitrot-streaming.go:92-109 | a new writer has written nothing and has announced the size of the file to come, or -1 for an unknown length |
| `BitrotFraming.StreamingWriter.Write` | cmd/bitrot-streaming.go:43-65 | a successful write appends the checksum and the chunk; a failure marks the stream; an empty write does nothing |
| `BitrotFraming.StreamingWriter.WriteAll` | cmd/bitrot-streaming.go:43-65 | a run of accepted writes appends the run's output and marks no failure |
| `BitrotFraming.WriterEmitsFrames` | cmd/bitrot-streaming.go:92-109 | shard-sized writes emit exactly the frames of the concatenated data, as many bytes as were announced to CreateFile and as the size formula says |
| `BitrotFraming.StreamingReader.constructor` | cmd/bitrot-streaming.go:192-204 | a new reader is at no stream and ends at the file offset of its end |
| `BitrotFraming.StreamingReader.ReadAt` | cmd/bitrot-streaming.go:142-190 | one read makes the step of the reader's specification: opening, order and checksum checks, new offset |
| `BitrotFraming.ReadAllDrains` | cmd/bitrot-streaming.go:142-190 | in-order aligned reads take frames off the stream and do nothing else |
| `BitrotFraming.DrainFrames` | cmd/bitrot-streaming.go:171-188 | the frames of any data yield the data, whatever follows them |
| `BitrotFraming.ReadsBackSlice` | cmd/bitrot-streaming.go:142-204 | round trip: every aligned slice that ends aligned or at the end of the data reads back, inline or from disk |
| `BitrotFraming.UnalignedEnd` | cmd/bitrot-streaming.go:171-188 | for any other end, the read succeeds if and only if the checksums of part and whole collide |
| `BitrotFraming.OpenErrors` | cmd/bitrot-streaming.go:142-168 | which error a first read gives before any checksum is compared |
| `BitrotFraming.LongEnoughIsCorrupt` | cmd/bitrot-streaming.go:171-188 | on a stream that is long enough reads fail with errFileCorrupt exactly if a frame is not intact, and with no other error |
| `BitrotFraming.CutShortIsEOF` | cmd/bitrot-streaming.go:171-188 | intact frames that end too early give io.ErrUnexpectedEOF |
| `BitrotFraming.FramesAreEncodings` | cmd/bitrot.go:183-209 | well-formed frames are a prefix that encodes their payload |
| `BitrotFraming.EncodingsAreFrames` | cmd/bitrot.go:183-209 | every encoding, with anything behind it, is well-formed frames with that payload |
| `BitrotFraming.BitrotVerify` | cmd/bitrot.go:158-210 | the verifier accepts if and only if the size is the expected one and the stream starts with intact frames for the part size; in whole-file mode, if and only if size and checksum match |
| `BitrotFraming.VerifyFrames` | cmd/bitrot.go:183-209 | the loop with its shrinking read limit accepts exactly the streams that start with intact frames, also where the stream ends early or breaks |
| `BitrotFraming.ReaderAgreesWithVerifier` | cmd/bitrot.go:158-210 | on every stream, intact or not, reading all of it succeeds exactly if its frames are well formed |
| `BitrotFraming.AcceptedFileReadsBack` | cmd/bitrot.go:158-210 | an accepted file has a payload of the part size, and every aligned slice of it reads back |
| `BitrotFraming.WriterOutputIsAccepted` | cmd/bitrot-streaming.go:43-65 | whatever the writer emits is accepted, with the written data as payload |
| `BitrotWhole.WholeWriter.Write` | cmd/bitrot-whole.go:38-50 | file and hashed data stay equal, also when the disk refuses the append |
| `BitrotWhole.WholeReader.ReadAt` | cmd/bitrot-whole.go:71-86 | one read loads and checks the file or consumes the loaded buffer |
| `BitrotWhole.ReadsBack` | cmd/bitrot-whole.go:71-86 | in-order reads return the requested slice if and only if the file matches its checksum and is long enough, the length being needed unless the reader starts at its end |
| `BitrotWhole.ReadAfterFailedLoad` | cmd/bitrot-whole.go:71-86 | after any failed load the next read succeeds exactly if no more than the bytes asked of the disk are read, and hands out the unverified bytes of the file, then zeros |
| `BitrotWhole.LoadedReads` | cmd/bitrot-whole.go:71-86 | once loaded, reads are served from the buffer alone, and one that asks for more than is left fails and takes nothing |
| `ObjectLock.CheckPutObjectLockAllowed` | cmd/bucket-object-lock.go:264-356 | the imperative decision equals the order-free one; a held version is never overwritten, a retention header is granted as it is, and the default rule gives its mode until now plus its validity |
| `ObjectLock.OverwriteBlockedExactly` | cmd/bucket-object-lock.go:291-311 | an overwrite without headers is refused exactly for an explicit version under hold, in unexpired compliance, or beside a failed clock |
| `ObjectLock.DefaultRuleGrants` | cmd/bucket-object-lock.go:337-353 | a new version without headers gets the default rule's mode until the clock's time plus the validity, or is refused for permission or clock |
| `ObjectLock.HeaderGrants` | cmd/bucket-object-lock.go:321-333 | a retention header is granted as it is to whoever may set it, with the hold of its own header |
| `ObjectLock.OverwriteKeeps` | cmd/bucket-object-lock.go:303-355 | an overwrite without headers and default rule keeps retention and hold of what it overwrites |
| `ObjectLock.ReplicaGrants` | cmd/bucket-object-lock.go:334-336 | a replica takes its retention from its headers alone |
| `ObjectLock.BadHeaders` | cmd/bucket-object-lock.go:314-329 | a malformed retention is refused; a malformed hold is dropped together with every other check |
| `ObjectLock.UnlockedGrants` | cmd/bucket-object-lock.go:277-284 | without object lock exactly the lock headers are refused |
| `ObjectLock.RemovedExactly` | cmd/bucket-object-lock.go:58-174 | which requests remove a version, from its fields, the lookup, the bypass and the clock |
| `ObjectLock.RetentionPutExactly` | cmd/bucket-object-lock.go:182-252 | which retention puts take effect, from the fields, and that they store exactly the retention asked for |
| `ObjectLock.HoldPutExactly` | cmd/object-handlers.go:2775-2795 | a hold put sets the hold and nothing else |
| `ObjectLock.StoredToTheMillisecond` | cmd/bucket-object-lock.go:264-356 | a PUT stores what it was granted, its date to the millisecond |
| `ObjectLock.ComplianceStep` | cmd/bucket-object-lock.go:90-252 | one request before a whole-second date, whose lookups see the version, keeps a compliance version, its data and a date no earlier if and only if it is not an accepted retention put for year 10000 or later (or the date is no later than the zero time, as which a lost date reads) |
| `ObjectLock.ComplianceExactly` | cmd/object-handlers.go:2948-2960 | over a run of retention puts, version deletes, lifecycle deletes and overwrites the version stays protected all along if and only if no such put is accepted, for a date after the zero time |
| `ObjectLock.ComplianceHolds` | cmd/bucket-object-lock.go:60-311 | so a compliance version survives every run of guarded requests, whose retention dates are before year 10000 |
| `ObjectLock.FarDateRemoval` | internal/bucket/object/lock/lock.go:449-454 | the failing family in either mode: without bypass, a put for year 10000 or later and then a version delete remove any version that is not on legal hold |
| `ObjectLock.CompliancePrecision` | cmd/bucket-object-lock.go:182-252 | a date before year 10000 is honoured on all guarded runs if and only if it is a whole second |
| `ObjectLock.EarlyRemoval` | cmd/object-handlers.go:2948-2960 | the failing family in either mode: a guarded run without bypass that shortens any date with a fraction and removes the version |
| `ObjectLock.ComplianceHoldsToTheSecond` | cmd/bucket-object-lock.go:182-252 | on guarded runs every compliance date is honoured up to its whole second |
| `ObjectLock.DefaultRuleProtects` | cmd/bucket-object-lock.go:337-353 | a version stored under a default compliance rule survives every guarded run made before the whole second of its time plus the validity, if that is before year 10000 |
| `ObjectLock.FarDefaultIsLost` | internal/bucket/object/lock/lock.go:449-454 | from year 10000 on the rule's date is lost and the version can be deleted at once |
| `ObjectLock.ComplianceBreach` | cmd/bucket-object-lock.go:90-135 | one request breaks an unexpired compliance version exactly if its lookup did not see the version, or the write met a config without object lock |
| `ObjectLock.GovernanceExactly` | cmd/bucket-object-lock.go:136-252 | over a run without bypass header and explicit-version overwrite a governance version stays protected all along if and only if no retention put for year 10000 or later is accepted, for a date after the zero time |
| `ObjectLock.GovernanceHolds` | cmd/bucket-object-lock.go:136-162 | so governance versions survive every guarded run without bypass header and explicit-version overwrite |
| `ObjectLock.GovernancePrecision` | cmd/bucket-object-lock.go:182-252 | a governance date before year 10000 is honoured on all guarded runs without privileges if and only if it is a whole second |
| `ObjectLock.GovernanceHoldsToTheSecond` | cmd/bucket-object-lock.go:182-252 | every governance date is honoured up to its whole second on those runs |
| `ObjectLock.GovernanceBreach` | cmd/bucket-object-lock.go:136-174 | which guarded requests break a governance version: a permitted bypass or an accepted overwrite, exactly |
| `ObjectLock.LegalHoldHolds` | cmd/bucket-object-lock.go:60-82 | under legal hold a version survives every run that leaves the hold alone |
| `ObjectLock.HeldFromThenOn` | cmd/bucket-object-lock.go:60-82 | once a hold is put on, the version survives every run that leaves the hold alone |
| `HealRegistry.RegionKeepsInv` | cmd/admin-heal-ops.go:244-342 | every critical section keeps the invariant |
| `HealRegistry.RunsKeepInv` | cmd/admin-heal-ops.go:195-342 | in every interleaving no two un-ended sequences of the map overlap, and summaries are terminal exactly when the end time is set |
| `HealRegistry.EntriesApart` | cmd/admin-heal-ops.go:288-342 | in every interleaving the paths of un-ended entries never start with one another |
| `HealRegistry.EndsExactly` | cmd/admin-heal-ops.go:645-686 | a sequence ends at the end of its own goroutine only, at that time, and as stopped exactly if its traversal failed uncancelled |
| `HealRegistry.EndedIsFinal` | cmd/admin-heal-ops.go:562-575 | an ended sequence never changes end time, summary or identity |
| `HealRegistry.EntryHistory` | cmd/admin-heal-ops.go:288-342 | every entry was there before or was filed by an unblocked launch |
| `HealRegistry.EntryLeaves` | cmd/admin-heal-ops.go:195-220 | an entry leaves by a stop of its path, a cleanup more than ten minutes after its end, or a launch after its end |
| `HealRegistry.NoOrphansNoRunningOverlap` | cmd/admin-heal-ops.go:288-342 | without orphans no two running sequences overlap |
| `HealRegistry.OrphanedExactlyByLateStops` | cmd/admin-heal-ops.go:244-284 | a running sequence loses its entry exactly by a stop that waited for an earlier sequence of its path |
| `HealRegistry.ClashExactly` | cmd/admin-heal-ops.go:288-342 | two sequences come to overlap while running if and only if one of them is launched, nothing filed blocks its path, and the other is a running sequence without an entry whose path overlaps |
| `HealRegistry.NoClashExactly` | cmd/admin-heal-ops.go:288-342 | a critical section keeps all running sequences apart if and only if it launches none over an orphan |
| `HealRegistry.ClearExactly` | cmd/admin-heal-ops.go:244-342 | over a run no two running sequences ever overlap if and only if none is launched over an orphan |
| `HealRegistry.UnforcedIsRefused` | cmd/admin-heal-ops.go:294-306 | a launch that is not forced, on the path of an un-ended entry, is refused and changes nothing |
| `HealRegistry.ForcedStartTakesOver` | cmd/admin-heal-ops.go:288-342 | a forced start has a run that stops and removes the running sequence of its path and files the new one |
| `HealRegistry.RunningOverlapIsReachable` | cmd/admin-heal-ops.go:244-342 | a run from the empty registry that ends with two overlapping running sequences |
| `HealRegistry.AllHealState.LaunchNewHealSequence` | cmd/admin-heal-ops.go:309-342 | the launch is refused exactly if some un-ended entry starts with the path or the path with it; otherwise it is filed |
| `HealRegistry.AllHealState.OverlapsEntry` | cmd/admin-heal-ops.go:309-320 | the scan finds an un-ended entry one of whose paths is a prefix of the other |
| `HealRegistry.AllHealState.PeriodicClean` | cmd/admin-heal-ops.go:195-220 | one cleanup round removes exactly the entries that ended more than 600 seconds ago, background ones never |
| `HealRegistry.AllHealState.FinishStop` | cmd/admin-heal-ops.go:244-284 | the end of a stop makes the removal step |
| `HealRegistry.AllHealState.FinishSequence` | cmd/admin-heal-ops.go:645-686 | the end of a sequence sets summary and end time together |
| `HealResults.ResultStream.PushRound` | cmd/admin-heal-ops.go:585-636 | a round appends the next index, or on a thousand unread results waits, stops or times out |
| `HealResults.ResultStream.PopHealStatus` | cmd/admin-heal-ops.go:366-391 | a pop drains the buffer even if the batch cannot be encoded |
| `HealResults.ResultsAreNumberedInOrder` | cmd/admin-heal-ops.go:585-636 | in every interleaving, drained and buffered results are the accepted ones numbered 1..n, and the buffer stays within 1000 |
| `HealResults.DeliveredIsDrained` | cmd/admin-heal-ops.go:366-391 | the client sees every drained result exactly if no encoding failure hits a non-empty batch |
| `MsgPack.Uint64RoundTrip` | cmd/background-newdisks-heal-ops_gen.go:437-513 | every 64-bit unsigned integer reads back, with anything behind it |
| `MsgPack.Int64RoundTrip` | cmd/background-newdisks-heal-ops_gen.go:437-513 | every 64-bit signed integer reads back |
| `MsgPack.StringRoundTrip` | cmd/background-newdisks-heal-ops_gen.go:437-513 | a string reads back if and only if its length is below 2^32 |
| `MsgPack.TimeRoundTrip` | cmd/background-newdisks-heal-ops_gen.go:437-513 | a time reads back to the nanosecond |
| `MsgPack.SkipPrefix` | cmd/background-newdisks-heal-ops_gen.go:690-697 | what follows an object has no part in skipping it |
| `MsgPackObjects.SkipsExactlyObjects` | cmd/background-newdisks-heal-ops_gen.go:690-697 | skipping succeeds exactly on the bytes of an object of any format, nested ones included, with anything behind it, and leaves exactly that |
| `MsgPackObjects.SkipFront` | cmd/background-newdisks-heal-ops_gen.go:690-697 | one object in front of anything is skipped and exactly that is left |
| `MsgPackObjects.IntegersRead` | cmd/background-newdisks-heal-ops_gen.go:539-653 | the integer readers accept integers of every format that are in range, and no other object |
| `MsgPackObjects.TextsRead` | cmd/background-newdisks-heal-ops_gen.go:526-538 | strings of every form are read, as map keys binary data too, and no other object |
| `MsgPackObjects.ArraysRead` | cmd/background-newdisks-heal-ops_gen.go:654-690 | the array header is read off arrays of every form and off no other object |
| `TrackerCodec.FieldOfName` | cmd/background-newdisks-heal-ops_gen.go:516-701 | each field name leads to its own field |
| `TrackerCodec.NamesInAscii` | cmd/background-newdisks-heal-ops_gen.go:437-513 | the fields are stored under their names in ASCII |
| `TrackerCodec.ValueRoundTrip` | cmd/background-newdisks-heal-ops_gen.go:516-701 | every field value reads back by its field's reader |
| `TrackerCodec.ValueIsObject` | cmd/background-newdisks-heal-ops_gen.go:437-513 | every encoded value is one object, so a reader that does not know its field skips exactly it |
| `TrackerCodec.PutAllGets` | cmd/background-newdisks-heal-ops_gen.go:516-701 | the last entry for a field decides, and a field without an entry keeps its value |
| `TrackerCodec.MarshalMsg` | cmd/background-newdisks-heal-ops_gen.go:437-513 | the appending code emits the map header and the entries in order, for every tracker, with lengths cut to 32 bits |
| `TrackerCodec.UnmarshalMsg` | cmd/background-newdisks-heal-ops_gen.go:516-701 | the countdown loop computes the decoder's specification, error or tracker and rest |
| `TrackerCodec.RoundTrip` | cmd/background-newdisks-heal-ops_gen.go:437-701 | decoding an encoded tracker with anything behind it returns its fields and exactly the rest if its strings and lists are shorter than 2^32, and, into a tracker without longer ones, only then |
| `TrackerCodec.AnyOrderDecodes` | cmd/background-newdisks-heal-ops_gen.go:516-701 | keys in any order, repeated or unknown, with objects of any format as unknown values, decode to the tracker whose fields they give last |
| `TrackerCodec.EncodedWithinMsgsize` | cmd/background-newdisks-heal-ops_gen.go:704-714 | the encoding is never longer than the size estimate |
| `HealingTracker.SkimIsExact` | cmd/background-newdisks-heal-ops.go:192-204 | the loop removes all copies of a bucket, keeping order, exactly if no two are adjacent |
| `HealingTracker.DistinctBucketsAreSafe` | cmd/background-newdisks-heal-ops.go:192-204 | without repeats it never panics and removes exactly that bucket |
| `HealingTracker.Tracker.Resume` | cmd/background-newdisks-heal-ops.go:183-190 | the live counters become the resume counters |
| `HealingTracker.Tracker.Begin` | cmd/global-heal.go:186-199 | turning to a bucket skips healed ones and resumes first if another bucket was left unfinished |
| `HealingTracker.Tracker.Drive` | cmd/global-heal.go:186-221 | each step of the driver on the tracker object makes the step of the progress model |
| `HealingTracker.Tracker.IsHealed` | cmd/background-newdisks-heal-ops.go:173-180 | membership in the healed buckets |
| `HealingTracker.Tracker.DeleteFromQueue` | cmd/background-newdisks-heal-ops.go:198-203 | the in-place loop panics exactly if the bucket is last and occurs before; otherwise it leaves the skimmed queue |
| `HealingTracker.Tracker.BucketDone` | cmd/background-newdisks-heal-ops.go:192-204 | the live counters become the resume point, the bucket is healed and leaves the queue |
| `HealingTracker.Tracker.SetQueuedBuckets` | cmd/background-newdisks-heal-ops.go:208-216 | the queue is the listed buckets that are not healed, in order |
| `HealingTracker.HealedAndQueuedPartition` | cmd/background-newdisks-heal-ops.go:192-216 | over every run, healed and queued are disjoint and together the listed buckets |
| `HealingTracker.RunsKeepBooks` | cmd/background-newdisks-heal-ops.go:88-112 | every run of results, finished buckets, saves and crashes keeps the books of memory and disk |
| `HealingTracker.ProgressIsExact` | cmd/background-newdisks-heal-ops.go:183-204 | the resume counters are the summed contributions of the finished buckets, each once |
| `HealingTracker.SumsByCounter` | cmd/background-newdisks-heal-ops.go:183-204 | the sums are counter by counter |
| `HealingTracker.SwitchingDropsUnfinished` | cmd/background-newdisks-heal-ops.go:183-190 | turning to another bucket drops exactly the unfinished contribution |
| `BucketMetadata.Bucket.ParseAllConfigs` | cmd/bucket-metadata.go:179-267 | the sequential parse succeeds exactly if every config parses, and leaves the fields of the order-free parse, versioning forced by the default lock |
| `BucketMetadata.Bucket.Save` | cmd/bucket-metadata.go:395-414 | the file is written exactly if everything parses, with the parsed object's raw fields |
| `BucketMetadata.Bucket.ConvertLegacyConfigs` | cmd/bucket-metadata.go:269-361 | both loops compute the conversion: folded metadata, saved file, remaining legacy files |
| `BucketMetadata.Bucket.MigrateTargetConfig` | cmd/bucket-metadata.go:434-449 | unencrypted targets are encrypted and saved if there is a KMS |
| `BucketMetadata.Bucket.LoadBucketMetadata` | cmd/bucket-metadata.go:157-177 | the load is parse, conversion, encryption and default times, with the files it leaves; a failed read fails it before anything is written |
| `BucketMetadata.MigrationIsOrderIndependent` | cmd/bucket-metadata.go:318-347 | without a lock conflict every walk over the legacy files computes the order-free merge |
| `BucketMetadata.ConflictDependsOnOrder` | cmd/bucket-metadata.go:318-347 | with a conflict there are two walks with different results |
| `BucketMetadata.WalkMerges` | cmd/bucket-metadata.go:318-347 | conflict or not, every walk computes the order-free merge of the legacy files without the lock file that it meets first and that the other one overrides |
| `BucketMetadata.LeftAbsorbedExactly` | cmd/bucket-metadata.go:318-357 | files whose deletion failed were absorbed if and only if the overridden lock file is not among them |
| `BucketMetadata.RemergeIsIdentity` | cmd/bucket-metadata.go:318-347 | folding absorbed legacy files in again changes nothing |
| `BucketMetadata.RemergeExactly` | cmd/bucket-metadata.go:318-347 | folding leftover files in again gives the same configs if and only if they were absorbed |
| `BucketMetadata.MigrationIsCrashSafe` | cmd/bucket-metadata.go:269-361 | a crash after the save, with any part of the files left, and a reload give the metadata of the uninterrupted load |
| `BucketMetadataSys.ReloadGivesEntry` | cmd/bucket-metadata.go:157-177 | reloading the files of a coherent entry, if they can be read, gives the entry, up to the creation time of a bucket with no file |
| `BucketMetadataSys.ReproducedExactly` | cmd/bucket-metadata.go:269-361 | beside a stored file that gives the entry, every reload gives it if and only if the legacy files left were absorbed into it, conflicting lock files included |
| `BucketMetadataSys.ReloadExactly` | cmd/bucket-metadata.go:269-361 | the same for each single reload where the lock files left do not conflict |
| `BucketMetadataSys.LoadAbsorbsExactly` | cmd/bucket-metadata.go:318-361 | the files a load leaves were absorbed into its entry if and only if neither an overridden lock file nor a targets file that it encrypts is among them |
| `BucketMetadataSys.LoadIsOkExactly` | cmd/bucket-metadata.go:157-177 | a load, conflicting lock files included, caches a coherent entry under exactly that condition on its inputs |
| `BucketMetadataSys.UpdateAbsorbsExactly` | cmd/bucket-metadata-sys.go:110-158 | the files left beside an update were absorbed if and only if the one for its config holds the bytes stored, the others what was loaded, and lock and versioning are as the lock files ask |
| `BucketMetadataSys.UpdateExactly` | cmd/bucket-metadata-sys.go:110-158 | an update that succeeds leaves its data and its time in its config, changes no other config or time, and stores all of it |
| `BucketMetadataSys.UpdateIsOkExactly` | cmd/bucket-metadata-sys.go:98-158 | a successful update leaves a coherent entry if and only if it keeps no old parsed config and meets that condition on the files left and its data |
| `BucketMetadataSys.StepKeepsCoherence` | cmd/bucket-metadata-sys.go:49-158 | from a coherent cache every operation leads to a coherent cache exactly if it is careful, also when it fails or deletions fail |
| `BucketMetadataSys.CoherentExactly` | cmd/bucket-metadata-sys.go:49-158 | over a run the cache is coherent all along exactly if every step is careful |
| `BucketMetadataSys.CacheIsWhatReloadGives` | cmd/bucket-metadata-sys.go:384-413 | after every careful run from an empty cache over any store, a reload of a cached bucket gives its entry |
| `BucketMetadataSys.LegacyFileWins` | cmd/bucket-metadata.go:318-360 | a legacy file that stays behind decides its config on every load, lock config included |
| `BucketMetadataSys.UpdateLosesToLegacyFile` | cmd/bucket-metadata.go:349-357 | beside a leftover file of the same config, a successful update caches its data and every reload gives the old data or fails |
| `BucketMetadataSys.FailedDeletionBreaksCoherence` | cmd/bucket-metadata.go:349-357 | where every config parses, an update beside a file whose deletion fails succeeds with an entry that no reload gives |
| `BucketMetadataSys.Sys.Update` | cmd/bucket-metadata-sys.go:78-158 | the method makes the update step; after Ok(now) cache and store have the data, and `now` as the time of the seven configs that carry one, and nothing else of the loaded metadata changed |
| `BucketMetadataSys.Sys.GetConfig` | cmd/bucket-metadata-sys.go:384-413 | the cached entry, or the loaded one, then cached |
| `BucketMetadataSys.Sys.Remove` | cmd/bucket-metadata-sys.go:49-57 | the entry leaves the cache, the store is untouched |
| `BucketMetadataSys.Sys.Reset` | cmd/bucket-metadata-sys.go:480-487 | the cache becomes empty, the store is untouched |
| `BucketMetadataSys.Sys.Load` | cmd/bucket-metadata-sys.go:468-478 | loading in batches of a hundred loads every bucket once, in order |
| `BucketLoads.ParsesExactly` | cmd/bucket-metadata.go:179-267 | metadata parses exactly if every config that is not empty does |
| `BucketLoads.ParsedExactly` | cmd/bucket-metadata.go:179-267 | each parsed field is what its parser makes of the config; of an empty one, what it was for notification, versioning and quota, and none or empty otherwise |
| `BucketLoads.LoadExactly` | cmd/bucket-metadata.go:157-177 | where the lock files agree, a load fails exactly if something shown does not parse or targets cannot be encrypted; else every config is the legacy file, the old flag or the stored one, with versioning forced, targets encrypted and the seven times set, and that without the times is stored |
| `BucketLoads.DefaultTimesExactly` | cmd/bucket-metadata.go:363-393 | unset times of the seven configs that carry one default to the creation time |
| `BucketLoads.UnreadableFails` | cmd/bucket-metadata.go:157-164 | a load that cannot read its files fails and changes nothing |
| `BucketLockGuard.LoadIsSafe` | cmd/bucket-metadata.go:157-361 | every load, whatever it reads, deletes or fails at, keeps lock configs beside enabled versioning and returns entries that tell the truth about the lock |
| `BucketLockGuard.CreateIsSafe` | cmd/erasure-server-pool.go:759-777 | buckets made with lock are made with versioning |
| `BucketLockGuard.CreatedExactly` | cmd/erasure-server-pool.go:759-777 | a bucket is made with the default lock and versioning, with versioning, or with no config |
| `BucketLockGuard.CreatedEntryReloads` | cmd/erasure-server-pool.go:759-777 | a reload gives the entry cached at creation with its times set, and so the entry itself exactly if the creation time is zero |
| `BucketLockGuard.NeverLockedAndSuspended` | cmd/bucket-versioning-handler.go:77-84 | over every run of versioning puts, lock puts, imports, migrations and bucket creations, no bucket is locked with suspended versioning if and only if no request breaks it by the one way there is |
| `BucketLockGuard.VersioningExactly` | cmd/bucket-versioning-handler.go:62-104 | a versioning request breaks the rule exactly if it suspends, site replication is off, the lock lookup fails, the replication lookup finds nothing, and the update finds a lock config other than the default one and saves |
| `BucketLockGuard.StepExactly` | cmd/bucket-versioning-handler.go:62-104 | every step keeps the invariant, but for those requests |
| `BucketLockGuard.StoredExactly` | cmd/bucket-versioning-handler.go:62-104 | a versioning request is stored exactly if no guard refuses it and the update saves, for a put and for an import |
| `BucketLockGuard.StoredVersioningExactly` | cmd/bucket-versioning-handler.go:94-104 | what is stored is the request's config, unless the default lock forces plain versioning |
| `BucketLockGuard.LockStoredExactly` | cmd/bucket-handlers.go:1372-1392 | a lock config is stored exactly where the lookup shows one and the update saves, as the request has it |
| `BucketLockGuard.WhenNothingBreaks` | cmd/bucket-metadata.go:222-224 | lookups that succeed, site replication, or no lock config but the default one, which forces versioning, rule a breach out |
| `BucketLockGuard.FailedLookupSuspends` | cmd/bucket-versioning-handler.go:77-84 | the failing requests: reads that fail for the guards and succeed for the update suspend versioning on a locked bucket |
| `BucketLockGuard.BreachExists` | cmd/bucket-versioning-handler.go:77-104 | a concrete bucket and request, without KMS, that end locked and suspended |
| `BucketLockGuard.ExclusionsExactly` | cmd/admin-bucket-handlers.go:778-785 | a request leaves a locked bucket with excluded prefixes exactly if it excludes some, finds a lock config other than the default one, and is an import or a put whose lookup failed |
| `BucketLockGuard.CheckVersioning` | cmd/bucket-versioning-handler.go:68-92 | the guard chain on the metadata system makes the decision step and leaves other buckets alone |
| `BucketLockGuard.PutBucketVersioning` | cmd/bucket-versioning-handler.go:62-104 | guards and update make the versioning step |
| `BucketLockGuard.PutBucketObjectLockConfig` | cmd/bucket-handlers.go:1372-1392 | a lock config is stored only where one exists |
| `MultiDelete.CheckEntry` | cmd/bucket-handlers.go:491-567 | whatever an earlier round left in the shared variables, the verdict and the sweeper's state come from this round's lookup |
| `MultiDelete.CheckExactly` | cmd/bucket-handlers.go:491-574 | one entry aborts exactly on a signature error, passes exactly if it is allowed, its version is none, "null" or a UUID, and no lock keeps it, with the marks of its replication decision, and is refused with the first reason otherwise |
| `MultiDelete.CheckEntries` | cmd/bucket-handlers.go:491-574 | the loop aborts exactly on a signature error; otherwise every entry has its own verdict and the map its first entries |
| `MultiDelete.TargetsAreFirst` | cmd/bucket-handlers.go:569-573 | a key is in the map exactly if some entry passed with it, with the first such index |
| `MultiDelete.ToNames` | cmd/bucket-handlers.go:576-584 | the list holds every key of the map once, in any order |
| `MultiDelete.ListedExactly` | cmd/bucket-handlers.go:569-584 | the delete list holds exactly the keys that passing entries ask for |
| `MultiDelete.Route` | cmd/bucket-handlers.go:595-626 | the loop routes each reply to the index of its echoed key, or to 0 |
| `MultiDelete.RoutingIsExact` | cmd/bucket-handlers.go:595-626 | with an echoing backend every entry ends with what it is owed |
| `MultiDelete.OrderDoesNotMatter` | cmd/bucket-handlers.go:576-626 | two orders of the list give the same results |
| `MultiDelete.RefusalsAndRepeats` | cmd/bucket-handlers.go:491-573 | refusals are kept, the first of equal entries gets the backend's outcome, repeats are answered as deleted with no name |
| `MultiDelete.RefusalsAnswered` | cmd/bucket-handlers.go:491-563 | every entry that does not pass is answered with its reason under its own name and version |
| `MultiDelete.PassingAnswered` | cmd/bucket-handlers.go:595-637 | the first entry that passes with a key is answered with the backend's deletion or error for the key |
| `MultiDelete.ObjectsOnceExactly` | cmd/bucket-handlers.go:536-573 | no object is on the delete list twice if and only if passing entries for one object are marked alike |
| `MultiDelete.ClientMarksDeleteTwice` | cmd/api-datatypes.go:57-68 | two entries for one object with different client-sent purge statuses put it on the list twice |
| `MultiDelete.EveryEntryAnswered` | cmd/bucket-handlers.go:628-637 | every entry is answered exactly once |
| `MultiDelete.AnsweredInOrder` | cmd/bucket-handlers.go:628-637 | the answers of two runs of entries are the answers of the first and then of the second |
| `MultiDelete.Respond` | cmd/bucket-handlers.go:628-637 | errors and deletions are listed in request order |
| `MultiDelete.DeleteMultipleObjects` | cmd/bucket-handlers.go:461-637 | the handler's core: malformed sizes, signature errors, exactly which objects are listed and when each once, the refusal of every entry that does not pass, and the response every entry is owed, independent of map order |
| `MultiDelete.ProtectedNeverListed` | cmd/bucket-object-lock.go:90-135 | no explicit version under legal hold or unexpired compliance reaches the delete list of a lock-enabled bucket |
| `MultiDelete.GivingUpIsMisrouted` | cmd/bucket-handlers.go:612-625 | when no key is echoed all errors land on entry 0 and every other entry keeps its slot |
| `WorkerPool.StepKeepsInv` | cmd/bucket-lifecycle.go:208-276 | every goroutine step keeps the pool's invariant |
| `WorkerPool.EveryInterleaving` | cmd/bucket-lifecycle.go:173-276 | live workers minus undelivered kills is numWorkers, activeTasks counts workers inside a task, tasks are received in order and each accepted one is queued, in hand or finished, once |
| `WorkerPool.QuiescentPool` | cmd/bucket-lifecycle.go:261-276 | a pool at rest has the workers last asked for |
| `WorkerPool.KillsCanLand` | cmd/bucket-lifecycle.go:208-213 | an undelivered kill finds a waiting worker once no worker has a task |
| `WorkerPool.UpdateIsARun` | cmd/bucket-lifecycle.go:263-276 | an uninterrupted update is a run of the pool that ends at n |
| `WorkerPool.TransitionState.UpdateWorkers` | cmd/bucket-lifecycle.go:263-276 | both loops spawn or kill exactly the difference |
| `WorkerPool.TransitionState.QueueTransitionTask` | cmd/bucket-lifecycle.go:173-182 | a task is appended unless ten thousand are queued |
| `UrlEncoding.S3UrlEncode` | cmd/api-utils.go:40-94 | all three paths compute the same encoding |
| `UrlEncoding.Count` | cmd/api-utils.go:41-51 | spaces and bytes that need an escape are counted |
| `UrlEncoding.PatchSpaces` | cmd/api-utils.go:67-75 | the space-only path equals the general encoding |
| `UrlEncoding.Expand` | cmd/api-utils.go:77-94 | the general loop fills the buffer exactly, with no index out of range |
| `UrlEncoding.EncodedLength` | cmd/api-utils.go:60-65 | the encoding has the length plus twice the hexadecimal escapes |
| `UrlEncoding.RoundTrip` | cmd/api-utils.go:40-94 | decoding undoes encoding for every byte string |
| `UrlEncoding.Injective` | cmd/api-utils.go:40-94 | different byte strings have different encodings |
| `UrlEncoding.EncodingIsCanonical` | cmd/api-utils.go:24-36 | encodings consist of safe bytes, plus signs and upper-case escapes of bytes that need one |
| `UrlEncoding.OneByte` | cmd/api-utils.go:24-36 | exactly letters, digits and `-_./*` stand for themselves, a space becomes a plus sign, and any other byte an escape |
| `UrlEncoding.CanonicalIsEncoding` | cmd/api-utils.go:24-94 | every such string is the encoding of what it decodes to |
| `RestoreStatus.DateReadsBack` | cmd/bucket-lifecycle.go:695-700 | a printed date parses to itself without its fraction exactly if its year is within 0..9999, and is refused otherwise |
| `RestoreStatus.ParsePrint` | cmd/bucket-lifecycle.go:695-765 | a printed status parses to itself, to the second, exactly for ongoing ones and years 0..9999 |
| `RestoreStatus.PrintDetermines` | cmd/bucket-lifecycle.go:695-700 | two statuses print alike exactly if they agree to the second |
| `RestoreStatus.WeekdaysFollow` | cmd/bucket-lifecycle.go:695-700 | the day after a printed weekday is printed as the next weekday, over months, years and leap days |
| `RestoreStatus.PrintsExample` | cmd/bucket-lifecycle.go:695-700 | the example date of RFC 7231 is printed as there, weekday included |
| `RestoreStatus.MonthsPrinted` | cmd/bucket-lifecycle.go:695-700 | each month is printed by its name |
| `RestoreStatus.OldOngoingParses` | cmd/bucket-lifecycle.go:742-745 | the unquoted ongoing form is still read |
| `RestoreStatus.OldCompletedParses` | cmd/bucket-lifecycle.go:746-762 | the unquoted completed form is still read |
| `ReplicationStats.NextFollows` | cmd/bucket-replication-stats.go:94-121 | a report moves both failure counters as the object's status does, exactly for the reports followed |
| `ReplicationStats.StepKeepsBooks` | cmd/bucket-replication-stats.go:94-121 | a step keeps count and size of the failed objects right exactly for those reports |
| `ReplicationStats.RightExactlyIfFollowed` | cmd/bucket-replication-stats.go:77-122 | over a run the counters are right all along exactly if every report is followed |
| `ReplicationStats.CountersAreRight` | cmd/bucket-replication-stats.go:77-122 | from zero, FailedCount and FailedSize are the number and size of failed objects, never negative |
| `ReplicationStats.SizesAreTotals` | cmd/bucket-replication-stats.go:94-121 | over every run the replicated size grows by every completed object and the replica size by every replica |
| `ReplicationStats.OtherTypeGoesNegative` | cmd/bucket-replication-stats.go:94-109 | a delete that fails and completes leaves FailedCount at -1 |
| `ReplicationStats.Stat.Apply` | cmd/bucket-replication-stats.go:94-121 | the switch computes the report's step |
| `ReplicationStats.BucketStats.Clone` | cmd/bucket-stats.go:86-99 | the clone has the same values in objects of its own |
| `ReplicationStats.Registry.Update` | cmd/bucket-replication-stats.go:77-122 | the reported target makes the step, every other counter of every bucket is unchanged |
| `ReplicationStats.Registry.UpdateReplicaStat` | cmd/bucket-replication-stats.go:61-75 | the bucket's replica size grows, nothing else changes |
| `ReplicationStats.Registry.Delete` | cmd/bucket-replication-stats.go:46-58 | the bucket's counters are gone, the others unchanged |
| `ReplicationStats.Registry.Get` | cmd/bucket-replication-stats.go:156-169 | a snapshot with the bucket's values that shares no object with the registry |
| `ReplicationStats.Registry.GetAll` | cmd/bucket-replication-stats.go:139-153 | a snapshot of every bucket, sharing no object with the registry |
| `ReplicationStats.SnapshotStays` | cmd/bucket-replication-stats.go:156-169 | a snapshot keeps its values through any later updates, replica updates and deletions |
| `ReplicationStats.AllSnapshotsStay` | cmd/bucket-replication-stats.go:139-153 | so does a snapshot of all buckets |
| `ReplicationStats.ReportAll` | cmd/bucket-replication-stats.go:77-122 | a run reported to the registry leaves the target with the run's counters |

## Left out

- HTTP handlers, routing, request signatures, XML, JSON and zip encoding, audit logging: plumbing over libraries that are not part of this model.
- Hash functions, KMS and encryption, IAM policies, lifecycle rules: parameters, or arbitrary answers.
- I/O errors of the store and the disks, except where an operation's own error path is modelled. A metadata load may fail to read; a write that fails has the effect of a failed read, encryption or parse at the same point, and is not a choice of its own.
- The 64-bit width of sizes, offsets and counters, and the 32-bit width of `activeTasks`: integers are unbounded.
- Replica writes in the retention runs: they skip the version check by design (cmd/bucket-object-lock.go:291-293).
- Interleavings inside one metadata operation: `Update` reads, changes and writes without a lock, so each operation is one step; `concurrentLoad` loads its buckets one after the other.
- The single-drive fallback to new metadata when the volume is missing (cmd/bucket-metadata-sys.go:102-109), and gateway mode.
- Bucket creation is not an operation of the coherence runs, because the entry that `MakeBucketWithLocation` caches equals its reload only up to the default times (`BucketLockGuard.CreatedEntryReloads`).
- The codec of the bucket metadata file: the same scheme as the tracker's without lists; a stored file is modelled by its fields.
- BucketMetadata.MigrationIsCrashSafe: covers a crash between the save of the conversion and the last deletion; a deletion that fails and is followed by the encryption of targets is not claimed safe.
- MultiDelete.DeleteMultipleObjects: the object names are those after the leading slash was trimmed, and every error has a non-empty code; the lock flag is what the handler read, and a failed read counts as no lock; events, replication scheduling and tier sweeps after the response are left out.
- Heal task matching after cancellation, heal traversal, and worker liveness: the shared unbuffered response channel gives no such guarantee.
- Case-insensitive path prefixes on Windows in the heal registry.
- Shutdown of the worker pool, latency histograms, tier statistics, the usage cache of replication statistics, and data usage.
- RestoreStatus.ParsePrint: dates are calendar fields in UTC; the conversion from instants to fields is not modelled.
