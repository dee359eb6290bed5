# A verified model of namros

This project models the parts of the namros object gateway where bytes can get lost, repeated or counted wrongly, and proves
what those parts promise. It is written in Dafny 4.11; `dafny verify dfyconfig.toml` checks all of it.

| file | what it models |
|---|---|
| `Bytes.dfy`, `ByteOrder.dfy` | byte strings, 64-bit numbers, digit strings, white space, the order of byte strings |
| `AwsChunked.dfy` | the aws-chunked body reader: a whole-body meaning, the reader that hands it out piecewise, a grammar |
| `ByteRanges.dfy` | the Range header against the byte positions of section 14.1.2 of RFC 9110 |
| `ObjectReads.dfy` | reading a slice of an object that is stored as segments |
| `MultipartObject.dfy` | from a complete request and the uploaded parts to a served range |
| `MultipartCompletion.dfy` | complete requests for one upload as a protocol with crashes, retries, other writers and aborts |
| `DrainProtocol.dfy` | moving versions off a volume, reclaiming and collecting, as one protocol over atomic store calls |
| `DrainWorker.dfy` | the drain and GC workers; each, run alone, is proved to be a run of that protocol |
| `AuditRecorder.dfy` | the asynchronous audit recorder: producers, one worker, a closer |
| `RequestLimiter.dfy`, `DataBudget.dfy` | the two admission counters |
| `GatewayDrain.dfy` | the drain controller, and requests that pass through it and the limiter |
| `VolumePool.dfy` | the volume pool runtime: which member handles are open, held, closed or lost |
| `RegistryPaging.dfy` | listing the gateway registry page by page |
| `CanonicalQuery.dfy` | the canonical query string of the benchmark client's request signer |
| `NoisyTenant.dfy` | the noisy-tenant simulator and its gates |

Objects that the source updates in place are classes; concurrent parts are state machines whose steps are the source's critical
sections and store calls, with a total step function, so that a run is any sequence of actions. Clocks, timers, the choice
between ready channels, map iteration order, admission hooks, what a store answers and the volume a copy lands on are
parameters or actions, so that each contract says what comes of every possible answer.

## Findings

Where the code does not meet what one would expect of it, the model follows the code. Each case names the members that show it
on a concrete run or input, or that give the exact condition for it.

- **An empty part uploaded under encryption is missized.** Its plaintext size of zero is read as "not recorded", so the
  ciphertext size counts: the object announces 16 bytes too many for each such part (`EmptyEncryptedPart`,
  `FullGetIsCompleteExactly`).
- **Abort does not look at the completion record, nor the commit at the upload.** Once the record is written, an abort can delete
  the segments of a version that has been committed, or that a request in flight then commits. Without a record an abort is safe,
  whatever is in flight (`AbortRace`, `AbortBeforeCommitRace`, `AbortLosesBytesExactly`).
- **A publish does not compare refs.** The repository only asks that the version still have some ref on the source volume. Two
  moves of one version off different volumes can bring back a segment that reclaim then deletes (`ConcurrentMovesLoseBytes`,
  `PublishIsSafeExactly`, `StalePublishLosesBytesExactly`).
- **Reclaim does not look at the record's status.** A move whose publish was rejected leaves a RetryPending record with copied
  attempts; reclaiming it deletes segments that are in use (`ReclaimOfRetryPendingLosesBytes`, `ReclaimIsSafeExactly`).
- **A drained copy loses its encryption envelope**, so an encrypted segment is served as ciphertext afterwards
  (`DrainKeepsPlaintextExactly`).
- **A refresh may return an error after it has switched**: that of closing the handles it replaced. The status then records no
  error (`SwitchAndFail`, `Refresh`).
- **The paging loop does not pin one revision.** Each page asks for the revision the previous answer reported, which is the
  store's revision at that moment. Up to two pages are one scan; a third page can be newer (`ThirdPageMayBeNewer`,
  `PinnedListing`).
- **Range positions of 2^64 and more are refused**, where section 14.1.2 of RFC 9110 lets a last position or a suffix length be
  any number and has it clipped to the object (`LongPositionIsRefused`, `AcceptedRangeIsTheSelection`).
- Completed objects serve ranges correctly up to 2^64 bytes, although the recorded size passes through a signed 64-bit field: the
  two conversions cancel (`CompletedObjectServesRanges`).

Three contracts also cover inputs that the gateway is never given. The runtime would lose the handles of repeated volume ids
(`OpenMembers`), which the registry and the configuration both refuse (internal/meta/volume_pool.go:61,
internal/config/config.go:1410). It would stay marked stale after a snapshot of generation zero (`Refresh`), which the registry
never stores (internal/meta/volume_pool.go:21-26). The cap on a copy's reservation would let one copy of 2^63 bytes or more into
an empty budget with a byte limit of 2^64-1 (`CapIsExact`); there is no such object.

## Model

| member | source | states |
|---|---|---|
| `AwsChunked.ChunkedReader.constructor` | internal/gateway/aws_chunked.go:63-65 | a new reader owes the meaning of the whole body |
| `AwsChunked.ChunkedReader.Read` | internal/gateway/aws_chunked.go:67-113 | each read pays the next bytes of what is owed into the front of the buffer and leaves the rest of it alone; an error comes only when nothing more is owed and is the body's own ending; a fault sticks; a read without error that asks for bytes yields some and consumes at least as many |
| `AwsChunked.ChunkedReader.CopyData` | internal/gateway/aws_chunked.go:100-113 | the data phase pays chunk data, and a short body becomes the truncated-data fault after its last bytes |
| `AwsChunked.ChunkedReader.ConsumeCRLF` | internal/gateway/aws_chunked.go:140-153 | consumes the chunk terminator exactly as the meaning of the body has it, with its two faults |
| `AwsChunked.ChunkedReader.ReadLine` | internal/gateway/aws_chunked.go:129-138 | the line up to the first LF, which must follow a CR |
| `AwsChunked.ChunkedReader.NextChunkSize` | internal/gateway/aws_chunked.go:115-127 | the size of the next chunk, or the fault the body ends in |
| `AwsChunked.ChunkedReader.ConsumeTrailers` | internal/gateway/aws_chunked.go:155-165 | terminates, and reports a fault exactly when the trailers are malformed |
| `AwsChunked.StreamRefinesDecode` | internal/gateway/aws_chunked.go:67-113 | for every sequence of buffer sizes: delivered bytes are a prefix of the decoded body, the first error means all of it was delivered and is the body's ending, and that error is repeated to every later read that asks for bytes |
| `AwsChunked.ReadBody` | internal/gateway/aws_chunked.go:63-113 | reading a body with buffers of any sizes yields a prefix of its payload; the first error comes with all of it delivered and is the body's ending; more nonempty buffers than payload bytes are enough |
| `AwsChunked.StreamEnds` | internal/gateway/aws_chunked.go:67-113 | after more nonempty buffers than the body has payload bytes, the whole payload has been delivered and the ending reported |
| `AwsChunked.MessagesDecode` | internal/gateway/aws_chunked.go:67-165 | every well-formed message, whatever follows it, decodes to the concatenation of its chunks and EOF |
| `AwsChunked.EofExactlyForMessages` | internal/gateway/aws_chunked.go:67-165 | a body ends in EOF if and only if it starts with a well-formed message, and then it yields that message's payload |
| `AwsChunked.ClientLine` | internal/gateway/aws_chunked.go:115-127 | a printed hexadecimal size with an optional extension is read back as that size, for every 64-bit size |
| `Bytes.ParseInvertsPrint` | internal/gateway/aws_chunked.go:122 | parsing inverts printing for every 64-bit number in both bases |
| `Bytes.DigitTable` | internal/gateway/aws_chunked.go:122 | the digits read in base 10 and base 16, by name: in base 16 the letters a to f in either case, and nothing else |
| `Bytes.SpaceRuneIsSeen` | internal/gateway/aws_chunked.go:121 | a white-space character at either end is taken off whole, whatever stands beside it |
| `ByteRanges.ParseRange` | internal/gateway/s3_handlers.go:2486-2543 | an accepted range lies inside the object, is nonempty and partial when there was a header, and is the whole object when there was none |
| `ByteRanges.AcceptedRangeIsTheSelection` | internal/gateway/s3_handlers.go:2486-2543 | against ranges over numbers of any size: a header is accepted if and only if it spells a range that selects some byte and whose last position or suffix length is below 2^64, and the slice is exactly the set of positions selected |
| `ByteRanges.LongPositionIsRefused` | internal/gateway/s3_handlers.go:2520-2527 | the concrete case: a last position of 2^64 selects every byte of any nonempty object and is refused |
| `ByteRanges.PrintedRange` | internal/gateway/s3_handlers.go:2486-2543 | the header a client prints for two positions yields those positions, clipped, or is refused as unsatisfiable |
| `ByteRanges.ContentRangeText` | internal/gateway/s3_handlers.go:2540 | the Content-Range text names the first and last position of the slice and the size of the object |
| `ByteRanges.RejectionReason` | internal/gateway/s3_handlers.go:2490-2528 | which of the refusals a header gets: unit or list, no dash, a suffix that is no positive number, a first position that is no number |
| `ByteRanges.ParseCopySourceRange` | internal/gateway/s3_handlers.go:3156-3171 | without a header the whole object, with one exactly what the Range parser makes of it |
| `ByteRanges.CopyRangeIsTheSelection` | internal/gateway/s3_handlers.go:3156-3171 | a copy range is accepted if and only if it spells a range that selects some byte with numbers below 2^64, and what is read is exactly the set of positions selected |
| `ObjectReads.OpenObjectReaders` | internal/gateway/s3_handlers.go:3278-3314 | the loop over 64-bit variables computes the piecewise specification, no subtraction wraps, every segment read has positive length inside the segment, and each reader is the one opened by its read |
| `ObjectReads.ReadersYieldTheSlice` | internal/gateway/s3_handlers.go:3278-3314 | on intact segments of any sizes, a slice opens if and only if it is empty or fits the concatenation, fails only as an invalid range, and yields that slice |
| `ObjectReads.IntactSegmentServes` | internal/gateway/s3_handlers.go:3316-3388 | an intact segment, encrypted or not, serves any nonempty slice of its plaintext |
| `ObjectReads.ReadErrors` | internal/gateway/s3_handlers.go:3316-3388 | which error a segment read fails with, and when: no provider, a range outside the segment, no segment id, no such segment, a ciphertext that does not open |
| `ObjectReads.DrainKeepsPlaintextExactly` | internal/drain/worker.go:364-386 | a drained copy still holds the plaintext if and only if the segment was not encrypted |
| `MultipartObject.CheckRequest` | internal/gateway/s3_handlers.go:3173-3190 | accepts exactly the nonempty lists of part numbers from 1 to 10000 that increase throughout |
| `MultipartObject.IndexParts` | internal/gateway/s3_handlers.go:3201-3204 | the index answers every number with the last part listed under it |
| `MultipartObject.SelectCompleteParts` | internal/gateway/s3_handlers.go:3200-3217 | succeeds if and only if every request has a part of that number and ETag, and gives those parts in request order |
| `MultipartObject.PartSegmentRefs` | internal/gateway/s3_handlers.go:3425-3433 | the refs in part order, and the true sum of the sizes modulo 2^64 |
| `MultipartObject.MultipartETag` | internal/gateway/s3_handlers.go:3435-3446 | refused if and only if some ETag is no hexadecimal digest; otherwise the hash of the digests in part order, and the part count |
| `MultipartObject.RecordedETagSpells` | internal/gateway/s3_handlers.go:372 | the quoted hexadecimal digest recorded for an uploaded part, and the same text without quotes, spell that digest |
| `MultipartObject.RecordedETagDecodes` | internal/gateway/s3_handlers.go:3438 | every text that spells a digest decodes to it |
| `MultipartObject.ETagMatchesExactly` | internal/gateway/s3_handlers.go:3211 | a request that names a digest, in quotes or not, matches a part if and only if it is that part's digest |
| `MultipartObject.BuildManifest` | internal/gateway/s3_handlers.go:588-613 | refused if and only if the request is out of order, or some part is missing or differs or has an ETag that is no digest; otherwise the requested parts by strictly increasing number, their total modulo 2^64 and the hash of their digests |
| `MultipartObject.CompletableByDigest` | internal/gateway/s3_handlers.go:588-613 | in terms of digests: a request can be completed if and only if its numbers increase and every part it lists is stored with the digest it names, if it names one |
| `MultipartObject.TotalCountsTags` | internal/gateway/s3_handlers.go:378 | the logical total is the plaintext length plus one authentication tag for each encrypted empty part |
| `MultipartObject.CompletedObjectServesRanges` | internal/gateway/s3_handlers.go:1614-1659 | end to end: below 2^64 bytes and without encrypted empty parts, every range accepted against the recorded size is served in full and is that slice of the parts' bytes in part order |
| `MultipartObject.PartCopyReadsItsRange` | internal/gateway/s3_handlers.go:435-452 | copying a part from such an object reads the accepted range in full, and the whole object when no range is given |
| `MultipartObject.FullGetIsCompleteExactly` | internal/gateway/s3_handlers.go:1614-1659 | below 2^64 bytes, a plain GET serves all bytes, and as many as it announces if and only if no part is encrypted and empty |
| `MultipartObject.EmptyEncryptedPart` | internal/gateway/s3_handlers.go:3383-3388 | the concrete case: one encrypted empty part announces 16 bytes and serves none |
| `MultipartCompletion.RunKeepsInv` | internal/gateway/s3_handlers.go:544-665 | the invariant that ties record, commits, upload state and every request holds over every interleaving |
| `MultipartCompletion.RecordIsWrittenOnce` | internal/meta/memory/repository.go:2627-2663 | no run changes a completion record that has been written |
| `MultipartCompletion.CompletionIsIdempotent` | internal/gateway/s3_handlers.go:704-769 | over every run with crashes, retries, other writers and aborts: at most one version commits and it is the record's; every success carries the record's ETag and follows the commit; parts are cleaned only after the commit or an abort |
| `MultipartCompletion.CleanupFollowsCommit` | internal/gateway/s3_handlers.go:560-569 | without aborts, cleanup never precedes the commit and no segment is deleted |
| `MultipartCompletion.UndisturbedOutcome` | internal/gateway/s3_handlers.go:544-769 | from every reachable state a request that nobody disturbs is answered within nine calls; the answer is read off the state it starts from, for every stage it may be in; and if its cleanup works the parts are gone |
| `MultipartCompletion.RetrySucceedsExactly` | internal/gateway/s3_handlers.go:544-665 | once there is a record, an undisturbed retry with any parts succeeds, with the record's ETag, if and only if the upload is completed, or active and the record's version is committed or its head still the expected one |
| `MultipartCompletion.FirstRequestCompletes` | internal/gateway/s3_handlers.go:614-665 | the first request, undisturbed: a fresh version of its own parts, committed over the head it found, the upload completed with it, and the answer |
| `MultipartCompletion.RetryOfCompletedSucceeds` | internal/gateway/s3_handlers.go:560-569 | asking again about a completed upload succeeds after two calls with the record's ETag and commits and changes nothing |
| `MultipartCompletion.LoserSucceeds` | internal/gateway/s3_handlers.go:741-769 | a request that lost the race for the commit, or died right after it and is resumed, succeeds with the record's ETag and commits nothing more |
| `MultipartCompletion.CommitRetires` | internal/meta/memory/repository.go:858-890 | a commit makes its version the committed head; an unversioned bucket loses the head before it and nothing else, a versioned one loses nothing |
| `MultipartCompletion.CrashIsFinal` | internal/gateway/s3_handlers.go:544-665 | a request that dies without an answer makes no further call in any run |
| `MultipartCompletion.OthersTouchTheKey` | internal/meta/memory/repository.go:1009-1051 | what other writers of the key may do between two calls: remove versions, commit a fresh one, move the head to a committed version, and nothing else |
| `MultipartCompletion.AbortAfterCommitLosesBytesExactly` | internal/meta/memory/repository.go:2731-2757 | while the committed version stands, an abort deletes its bytes if and only if the upload is not yet marked completed |
| `MultipartCompletion.AbortLosesBytesExactly` | internal/meta/memory/repository.go:858-890 | over everything that can happen afterwards, aborting an active upload can leave a standing committed version without its bytes if and only if the version stands committed now, or the record's version and expected head exist and a request is on its way to commit; without a completion record it never can |
| `MultipartCompletion.FinishedForGood` | internal/meta/memory/repository.go:2627-2663 | an aborted upload whose version does not stand and cannot be committed any more stays so over every run |
| `MultipartCompletion.AbortRace` | internal/gateway/s3_handlers.go:667-702 | from every initial state, a run after which the committed version stands and its bytes are lost to an abort |
| `MultipartCompletion.AbortBeforeCommitRace` | internal/gateway/s3_handlers.go:741-769 | from every initial state, a run that has committed nothing and from which an abort still leads to a standing version without its bytes |
| `DrainProtocol.RunKeepsInv` | internal/drain/worker.go:52-349 | the protocol invariant holds over every disciplined run of uploads, deletes, moves, reclaims and collections |
| `DrainProtocol.DrainIsSafe` | internal/drain/worker.go:52-349 | in every such run, whatever fails in it, every version reads back the bytes it was uploaded with, from segments the store still holds |
| `DrainProtocol.PublishReplacesInPlace` | internal/drain/worker.go:90-158 | a publish keeps length and order, keeps refs off the source volume, and replaces each other ref by a copy with the same bytes |
| `DrainProtocol.PublishIsSafeExactly` | internal/meta/memory/repository.go:2294-2329 | a publish keeps the protocol invariant if and only if every ref it keeps is still listed by the version |
| `DrainProtocol.StalePublishLosesBytesExactly` | internal/meta/memory/repository.go:2294-2329 | in terms of bytes, in every state that disciplined runs reach: a publish is safe for every disciplined continuation if and only if no ref that it keeps and its version has lost is gone, queued, offered by a succeeded record, or copied by a published move not yet on record |
| `DrainProtocol.ReclaimIsSafeExactly` | internal/drain/worker.go:241-324 | when a finished move goes on record and its version lists what the move left it with, reclaiming and collecting any copied attempt keeps every version readable if and only if the recorded status is Succeeded |
| `DrainProtocol.SucceededRecordsAreReclaimable` | internal/drain/worker.go:202-211 | in every reachable state the copied sources of a succeeded record are listed by no version |
| `DrainProtocol.DeletedIsCollected` | internal/gc/worker.go:94-178 | deleting a version queues exactly its segments; one collection removes the segment and one acknowledgement the candidate |
| `DrainProtocol.ConcurrentMovesLoseBytes` | internal/meta/memory/repository.go:2312-2318 | a concrete run with a stale publish in which reclaiming a succeeded record loses bytes |
| `DrainProtocol.ReclaimOfRetryPendingLosesBytes` | internal/drain/worker.go:241-244 | a concrete run in which reclaiming a RetryPending record loses bytes |
| `DrainWorker.Cluster.CopySegment` | internal/drain/worker.go:364-386 | a copy is a fresh segment with the same bytes on the volume the store chose, made exactly when the source can be read and the copy written; it counts exactly when the source can be closed too |
| `DrainWorker.Cluster.PublishRefs` | internal/meta/memory/repository.go:2294-2329 | which of the refusals is given, each exactly when; otherwise the version lists the new refs |
| `DrainWorker.Cluster.MoveRef` | internal/drain/worker.go:91-136 | one ref is skipped exactly when it is off the source, copied exactly when the store reads, writes and closes it and the copy lands where it is wanted, and retryable otherwise; its effects are a protocol run |
| `DrainWorker.Cluster.MoveRefs` | internal/drain/worker.go:85-136 | after the loop every attempt is what the store's answers for its ref make it, each counter is the number of attempts of its kind, and without retryable ones the collected refs are the replacement |
| `DrainWorker.Cluster.PublishMove` | internal/drain/worker.go:153-160 | the publish goes through exactly when the repository takes it, and is a protocol step that obeys the publish rule, because the version still lists what the move read |
| `DrainWorker.Cluster.FinishMove` | internal/drain/worker.go:137-211 | status, counters, attempts, published refs, stored record and error, each exactly by the failed and copied refs and the repository's answers |
| `DrainWorker.Cluster.MoveObjectVersion` | internal/drain/worker.go:52-211 | the whole move is a disciplined protocol run; each attempt follows from the store's answers; it publishes exactly when no ref failed, one was copied and the repository takes it; a succeeded move to another volume leaves no ref on the source; the record stored is the operation returned |
| `DrainWorker.Cluster.ReclaimAttempt` | internal/drain/worker.go:242-323 | skipped, protected, queued or retryable, each exactly when; only a queued attempt changes the queue |
| `DrainWorker.Cluster.ReclaimNext` | internal/drain/worker.go:241-324 | one turn of the loop adds what the attempt comes to, if it was copied, and counts it |
| `DrainWorker.Cluster.ReclaimOperation` | internal/drain/worker.go:213-349 | one attempt for each copied attempt of the record, in order and decided by the stores' answers, with exact counters; the queue gains exactly the sources reported as queued; it succeeds if and only if nothing was retryable or protected, and then every eligible source is queued; a protocol run that obeys the reclaim rule exactly as far as its caller does |
| `DrainWorker.Cluster.CollectOne` | internal/gc/worker.go:98-167 | deleted, skipped or retryable, each exactly when; the segment goes exactly when it is admitted, not shared and the delete works, and the candidate exactly when it is acknowledged besides |
| `DrainWorker.Cluster.CollectNext` | internal/gc/worker.go:98-167 | one turn of the loop keeps the attempts in candidate order, the counters exact and the store and queue as the candidates so far leave them |
| `DrainWorker.Cluster.RunOnce` | internal/gc/worker.go:94-178 | attempts are the listed candidates in order, each with the status its answers decide; each counter is the number of attempts of its kind; the store and the queue lose exactly what was deleted and acknowledged; the run is a protocol run |
| `AuditRecorder.RunKeepsInv` | internal/gateway/access_audit.go:80-193 | the invariant of queue, batch, timer, lock, log and of every call made holds over every interleaving |
| `AuditRecorder.CallsAreAccountedFor` | internal/gateway/access_audit.go:80-102 | in every reachable state each call is in hand or answered, and its answer is true: a queued event is in the log once if a put of it worked, a directly put one once, and one is missing only if its put failed, or if the caller gave up, which takes a context that is done |
| `AuditRecorder.CallAlone` | internal/gateway/access_audit.go:80-102 | a lone call is queued while the recorder is open and the queue has room, gives up only when its context is done, and is put directly in every other case |
| `AuditRecorder.CloseIsForGood` | internal/gateway/access_audit.go:104-116 | closing goes through once nobody is between the check and the send, and no run takes it back |
| `AuditRecorder.BatchAndTimer` | internal/gateway/access_audit.go:118-193 | the batch never exceeds its size nor the queue its capacity, and with an interval the timer is armed exactly when the batch is nonempty |
| `AuditRecorder.ClosedMeansSettled` | internal/gateway/access_audit.go:104-193 | once the worker has returned, every accepted event has been settled in queue order, and the log has all of them, once each and in order, if and only if no single put failed |
| `AuditRecorder.NothingEntersAfterExit` | internal/gateway/access_audit.go:80-116 | after that, no event enters the queue whatever the producers do |
| `AuditRecorder.KeptIsAllExactly` | internal/gateway/access_audit.go:156-158 | the persisted events are all the settled ones if and only if every put worked |
| `AuditRecorder.RunLoop.FlushBatch` | internal/gateway/access_audit.go:147-161 | stores the whole batch if the batch put works, otherwise exactly the events whose single put works, in order, and empties it |
| `AuditRecorder.RunLoop.PutSingly` | internal/gateway/access_audit.go:156-158 | the fallback stores exactly the events whose put works, in order |
| `AuditRecorder.RunLoop.Receive` | internal/gateway/access_audit.go:164-171 | takes the first queued event; flushes exactly a full batch; leaves the timer armed exactly when an interval is set and the batch is nonempty |
| `AuditRecorder.RunLoop.OnTimer` | internal/gateway/access_audit.go:172-174 | flushes whatever has been collected and leaves the timer off |
| `AuditRecorder.RunLoop.OnDone` | internal/gateway/access_audit.go:175-190 | terminates with queue and batch empty, having stored of each batch what its puts let through |
| `AuditRecorder.DeliveredInFull` | internal/gateway/access_audit.go:175-190 | as long as single puts work, that is the batch and the queue, complete and in order |
| `RequestLimiter.Limiter.constructor` | internal/gateway/request_limiter.go:44-51 | no slots at the start |
| `RequestLimiter.Limiter.TryAcquire` | internal/gateway/request_limiter.go:54-81 | refused exactly when the live requests fill an enabled limit, with the first full one as reason; otherwise the request is live |
| `RequestLimiter.Limiter.Release` | internal/gateway/request_limiter.go:76-101 | ends the request's slot; any further call changes nothing |
| `RequestLimiter.JoinAgrees` | internal/gateway/request_limiter.go:70-74 | incrementing the counters keeps them equal to the live requests, in total and for each tenant and class |
| `RequestLimiter.LeaveAgrees` | internal/gateway/request_limiter.go:83-101 | so does decrementing or deleting them, and the total is never zero then |
| `RequestLimiter.JoinWithinLimits` | internal/gateway/request_limiter.go:61-69 | a request that is let in keeps every enabled limit |
| `RequestLimiter.MapsHoldTheLive` | internal/gateway/request_limiter.go:83-101 | both maps have exactly the keys with live requests |
| `DataBudget.WrapTestIsExact` | internal/gateway/data_budget.go:52-56 | the three wrapping tests reject exactly when the true sum exceeds the limit |
| `DataBudget.Budget.constructor` | internal/gateway/data_budget.go:29-33 | an empty budget |
| `DataBudget.Budget.TryAcquire` | internal/gateway/data_budget.go:36-74 | refused exactly when a limit would be passed by the true sum or the size is unknown and cannot be reserved; with a byte limit the counter stays the true sum within it |
| `DataBudget.Budget.Release` | internal/gateway/data_budget.go:60-73 | returns exactly the reservation; without an overflow neither clamp is used, after one the counter stops at zero; a spent closure does nothing |
| `DataBudget.CapIsExact` | internal/gateway/data_budget.go:88-93 | the capped reservation of a copy is decided like the true double for every byte limit, except that the largest limit lets one oversized copy into an empty budget |
| `GatewayDrain.Controller.constructor` | internal/gateway/drain.go:36-41 | active, nothing in flight, channel open |
| `GatewayDrain.Controller.Admit` | internal/gateway/drain.go:43-60 | a write is admitted exactly while active and is then counted; other operations pass uncounted |
| `GatewayDrain.Controller.MarkDrained` | internal/gateway/drain.go:129-135 | closes the channel, which has not been closed before |
| `GatewayDrain.Controller.Start` | internal/gateway/drain.go:62-77 | leaves the active phase, and is drained at once if and only if nothing is in flight |
| `GatewayDrain.Controller.Finish` | internal/gateway/drain.go:117-127 | the last write to finish while draining makes the gateway drained |
| `GatewayDrain.TheRestIsReading` | internal/gateway/drain.go:144-177 | the operations a drain lets through, in full: the reading ones and the unsupported one, which alone has neither request class |
| `GatewayDrain.AdmissionHolds` | internal/gateway/s3_handlers.go:63-78 | over every interleaving: write-class slots never exceed admitted writes, no limit is exceeded, and the channel is closed once, exactly when drained |
| `GatewayDrain.RequestPasses` | internal/gateway/s3_handlers.go:63-78 | a request is turned away exactly when it writes and the gateway is not active, holds a slot exactly when the limiter has room, and leaves everything as it found it |
| `GatewayDrain.DrainProceeds` | internal/gateway/drain.go:62-135 | over every run after a drain has started: never active again, no further write inside, and drained exactly when the writes inside have left |
| `GatewayDrain.DrainedIsQuiet` | internal/gateway/drain.go:79-105 | drained means no write inside and none holding a slot |
| `GatewayDrain.DrainedForGood` | internal/gateway/drain.go:79-135 | from then on, whatever arrives or ends, the gateway stays drained and free of writes |
| `VolumePool.Recorded` | internal/gateway/volume_pool_refresher.go:211-240 | the generation, error text and counters after each kind of refresh; stale-since is set exactly when the generations differ or an error is recorded, to the time of the refresh that first finds it so |
| `VolumePool.Runtime.CloseHandles` | internal/gateway/volume_pool_refresher.go:402-413 | every handle given is closed, none for the second time and none that the active store uses, whatever the cleanups answer; an error is returned if and only if some cleanup failed |
| `VolumePool.Runtime.OpenMembers` | internal/gateway/volume_pool_refresher.go:377-400 | all members are open and held if and only if each can be opened, and otherwise those opened are closed again; a handle is lost if and only if an id repeats among the members opened |
| `VolumePool.Runtime.UpdateMembers` | internal/storage/volumepool/store.go:112-125 | takes all members or none, and takes them if and only if the list is nonempty, the ids are nonempty and distinct, and each can be normalised |
| `VolumePool.Runtime.Open` | internal/gateway/volume_pool_refresher.go:61-93 | opens if and only if every member opens and the store takes them; it then holds exactly its members, and otherwise leaves no handle open but those lost |
| `VolumePool.Runtime.Refresh` | internal/gateway/volume_pool_refresher.go:162-209 | when exactly it switches; unless it does, configuration, handles, members and active generation stay and an error is on record; if it does, all change together, every replaced handle is closed after the store has let it go, and an error is returned if and only if one of their cleanups failed, while none is on record |
| `VolumePool.SwitchAndFail` | internal/gateway/volume_pool_refresher.go:200-208 | the concrete case: a refresh that switches, returns an error and records none |
| `VolumePool.Runtime.Switch` | internal/gateway/volume_pool_refresher.go:200-208 | the old handles are closed only once the store uses the new ones, and the status is recorded as a success |
| `VolumePool.Runtime.Close` | internal/gateway/volume_pool_refresher.go:102-111 | every handle ever opened is closed, but those lost to a repeated id |
| `ByteOrder.LessTotal` | internal/coordination/gateway.go:470 | the key order is total and irreflexive |
| `RegistryPaging.ZeroByteIsSuccessor` | internal/coordination/gateway.go:460-466 | a key followed by a zero byte is the least key above it |
| `RegistryPaging.PrefixIsRange` | internal/coordination/gateway.go:459-468 | the keys with a prefix are exactly those from the prefix up to its range end |
| `RegistryPaging.NextPageIsTheRest` | internal/coordination/gateway.go:460-475 | the range from the cursor's successor is what the previous range had after the cursor |
| `RegistryPaging.DecodePage` | internal/coordination/gateway.go:482-508 | fails exactly when a record does not decode, and otherwise keeps the records with an instance id, in order |
| `RegistryPaging.RecordsAreUsable` | internal/coordination/gateway.go:482-508 | the records are exactly the keys whose value decodes with an instance id, in key order |
| `RegistryPaging.ListRecords` | internal/coordination/gateway.go:423-449 | from one snapshot the loop ends, fails exactly when some record under the prefix does not decode, and otherwise lists the usable records of one full prefix scan |
| `RegistryPaging.ListingKeepsWhatStays` | internal/coordination/gateway.go:423-508 | from changing snapshots the keys still come out strictly increasing, each was in some page's snapshot, and every key in all snapshots is listed |
| `RegistryPaging.OneSnapshotOneScan` | internal/coordination/gateway.go:423-449 | pages of one snapshot concatenate to one scan of it |
| `RegistryPaging.ListingIsScanExactly` | internal/coordination/gateway.go:423-449 | whatever the pages were read from, the listing is the scan of given keys if and only if each page's snapshot agrees with them in the window of the page |
| `RegistryPaging.PinnedListing` | internal/coordination/gateway.go:444-445 | with each page pinned to the revision the previous one reported, the listing is one scan if the registry does not change between the first page and the last but one; it is the scan of a given revision if and only if each page's snapshot agrees with that revision in the window of the page |
| `RegistryPaging.ThirdPageMayBeNewer` | internal/coordination/gateway.go:444-445 | for every prefix and every page size, a three-page listing that no revision of the registry ever held |
| `CanonicalQuery.RuneRoundTrip` | cmd/namros-s3bench/main.go:1863-1874 | re-encoding a decoded code point gives back its bytes, all of them high if there are several |
| `CanonicalQuery.EncodedIsRead` | cmd/namros-s3bench/main.go:1860-1880 | every Unicode scalar value's UTF-8 encoding is well-formed and is read back as that value, whatever follows it |
| `CanonicalQuery.SpaceTable` | cmd/namros-s3bench/main.go:969-972 | the white space that trimming takes off, as code points |
| `CanonicalQuery.PercentEncode` | cmd/namros-s3bench/main.go:1860-1879 | the encoder that walks over code points writes the byte-by-byte encoding, for every byte string |
| `CanonicalQuery.EncodeFirst` | cmd/namros-s3bench/main.go:1863-1876 | one turn of its loop encodes the bytes it consumes |
| `CanonicalQuery.UnescapeInvertsEscape` | cmd/namros-s3bench/main.go:1860-1886 | percent-decoding recovers every byte string |
| `CanonicalQuery.EscapeIsClean` | cmd/namros-s3bench/main.go:1881-1886 | the encoding has only unreserved characters and percent signs |
| `CanonicalQuery.UnreservedTable` | cmd/namros-s3bench/main.go:1881-1886 | the bytes that stay as they are: letters, digits, dash, dot, underscore and tilde |
| `CanonicalQuery.OrderIsUnique` | cmd/namros-s3bench/main.go:1847-1852 | two ordered arrangements of the same pairs are the same sequence |
| `CanonicalQuery.CollectPairs` | cmd/namros-s3bench/main.go:1837-1846 | in whatever order the map is visited, each pair is collected as often as the query has it |
| `CanonicalQuery.ParseInvertsRender` | cmd/namros-s3bench/main.go:1853-1857 | splitting and percent-decoding recovers the pairs and their order |
| `CanonicalQuery.CanonicalQueryString` | cmd/namros-s3bench/main.go:1831-1858 | the result is the rendering of the query's pairs in order |
| `CanonicalQuery.CanonicalIsExact` | cmd/namros-s3bench/main.go:1831-1858 | two queries have the same canonical string if and only if they have the same pairs equally often |
| `CanonicalQuery.CanonicalParses` | cmd/namros-s3bench/main.go:1831-1858 | parsing the canonical string gives the query's pairs back in order |
| `NoisyTenant.Simulator.constructor` | cmd/namros-s3bench/main.go:1009-1023 | nothing in flight, all counters zero |
| `NoisyTenant.Simulator.Start` | cmd/namros-s3bench/main.go:1025-1057 | refused exactly when a limit is full, with the first full one as reason; counters, peaks and log stay consistent and within bounds |
| `NoisyTenant.Simulator.TakeSlot` | cmd/namros-s3bench/main.go:1040-1051 | the peaks follow the load and the bounds check never fires |
| `NoisyTenant.Simulator.Complete` | cmd/namros-s3bench/main.go:1059-1069 | gives back exactly one slot when one is held, with neither clamp used; otherwise the tenant's load stays zero and the global load is lowered, down to zero |
| `NoisyTenant.AuditedAppend` | cmd/namros-s3bench/main.go:1071-1090 | each event keeps admitted, throttled and completed equal to their counts in the log, the load equal to admitted minus completed, and its flag equal to whether the log has throttled the noisy tenant by then |
| `NoisyTenant.Simulator.Summarize` | cmd/namros-s3bench/main.go:1092-1126 | passed means all four gates; the bounds gate never fails |
| `NoisyTenant.Hold` | cmd/namros-s3bench/main.go:944-949 | the held requests are the smaller of those asked for and the room for one tenant; the rest are throttled |
| `NoisyTenant.ServeOne` | cmd/namros-s3bench/main.go:950-954 | a request completed at once is served exactly when there is room and leaves the load as it was |
| `NoisyTenant.Burst` | cmd/namros-s3bench/main.go:950-959 | requests completed at once are all served if there is room for one, and all throttled otherwise |
| `NoisyTenant.Drop` | cmd/namros-s3bench/main.go:960-962 | all held requests are completed |
| `NoisyTenant.Validate` | cmd/namros-s3bench/main.go:968-994 | the configuration checks, in order, accept exactly the valid configurations |
| `NoisyTenant.Simulate` | cmd/namros-s3bench/main.go:943-965 | for a valid configuration, everything the verdict row says about the report |
| `NoisyTenant.Execute` | cmd/namros-s3bench/main.go:939-994 | refused exactly for invalid configurations; passed if and only if the tenant limit is below the global limit and the held requests reach the tenant limit, however many attempts follow; exact throttle counts of both tenants; in the log exactly the admissions of the neighbor are marked safe |

## Left out

- Interruptions between the store calls of one drain or GC worker: `DrainWorker` runs each worker alone, and the interleavings are those of `DrainProtocol`, where the publish rule is an assumption.
- Range units in other letter case and lists with empty elements, which section 14 of RFC 9110 also admits and the code refuses.
- HTTP, routing, XML and JSON bodies, headers and response writing: the model starts from parsed values.
- Hashing, encryption and signatures: hash and provider are arbitrary functions, and only the 16-byte tag is used.
- Metrics, configuration parsing, nil receivers and contexts, admin and console endpoints, policy and lifecycle: easy members only.
- Integer counters other than the 64-bit sizes and budgets are unbounded.
- Replacing a part while a complete request runs, and the publication marks on the completion record, which no decision reads.
- Objects of 2^64 bytes and more, whose size no 64-bit field holds.
- Closing already opened readers when a later segment fails to open.
- The storage-class, quota and segment checks between selecting parts and preparing the completion record: they only refuse.
- WaitDrained's blocking wait: its answer is the drained phase, about which DrainedForGood speaks.
- GC's choice of an earlier operation to resume, its record store and a failing candidate listing; candidates carry no reason.
- The order of cleanups and the text of joined errors.
- Close of the volume pool runtime while a refresh is under way: the runtime is closed after its refresher has stopped.
- Watching the registry, heartbeats, and sorting the listed records by their fields.
