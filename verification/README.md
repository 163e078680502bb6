# Models of Manure and Chronicle

Dafny models of the crash-, retry- and parsing-heavy parts of two programs: the Manure artifact store with its client,
server and offline import (`manure/`), and the Chronicle transcript collector (`chronicle/collector/`). Each module models
one part in its own form (classes with faults and crashes where the source changes state, functions where it computes)
and proves what that part is for.

Check the whole project with `dafny verify dfyconfig.toml`.

## The artifact store

Rows and receipts live in a transactional database, payload trees on a file system with explicit fsync and rename.
`Disk` gives every file a cached and a durable content and says what a crash may leave: unsynced bytes come back as
anything, an unsynced rename may be lost, an unsynced removal undone. `Artifact` holds the invariant of one artifact,
`Effects` the file and database effects with the lemma that each keeps it, and `ArtifactStore` the store as a class. Every
primitive step can succeed, fail, or end the process before or after it took effect, and every method keeps the invariant on
all its paths. `Store.Run` and `Store.Recovery` carry that over whole runs of init, put, publish, delete, sweep, kill, power
loss and restart. `Limits` is the quota and the session caps, `Chunks` the chunk grid with the client's resume arithmetic,
and `Upload` puts client and store together: after any run at all, a start and a resume without faults publish the source.

The field `calm` switches faults off. Clauses guarded by it say what an operation achieves when nothing fails; all others
hold whatever fails.

Acknowledgements are history: `acked` keeps every chunk whose upload was acknowledged, and the invariant says of each that
it is behind its receipt or that the payload is live for good. Where an operation breaks that for a chunk, the promise of that
chunk is withdrawn and of no other (`Artifact.StillHeld`), and the contracts of `Restart`, `Sweep`, `Do` and `Run` say exactly
where that can be. `Store.Run` leaves a trace of everything the store held between its commands.

### What turned out not to hold as such

* Publishing checks hashes, recovery checks sizes. What that does depends on the manifest. With true sizes all is well. With
  some file declared shorter than its content the upload can never be published, and its chunks are kept as well:
  `Payload.Dependable` is either of these. For every other manifest (no content longer than declared, some shorter)
  `CrashRuns` has runs that publish it without its payload being size-complete, that leave a second start something to do, and
  that lose an acknowledged chunk. So the promises hold exactly for dependable manifests.
* A start leaves a row unsettled exactly if a publish of it was cut short after the rename and its live tree fails the size
  check (`Artifact.HalfLive`); after two starts nothing is ever left (`ArtifactStore.Store.Recovery`).
* A start-up pass goes over the receipts of a publishing row before it makes the rename durable. Killed after a rename, started
  without a loss of power, and then losing power in the middle of that start, the store can lose acknowledged chunks. The
  condition is exact in `CrashWindows.ReceiptsOutliveTheNextCrashIff`. `CrashRuns.LoseStranded` goes there from any store with
  such an artifact and loses all it had, and `CrashRuns.Strand` is such a run from an empty store. Without faults in the
  pass nothing is lost, and a sweep breaks a promise only if it fails half-way through a doomed artifact.
* The branch of the start-up pass that adopts a live tree found beside an uploading row (manure/manure/storage.py:2011-2045) is
  never taken as long as the database loses no commit: no upload owns a whole payload in any reachable state
  (`Artifact.UploadOwnsNoPayload`). `AdoptOrDiscardLive` keeps the test and asserts that it fails.
* Not every hand-off that is kept is of an internal artifact: the store takes one-time grants for any, only the handler in
  front of it asks. `Grants.Store.CreateOneTime` says exactly when they all stay internal, and no other operation breaks that;
  a hand-off of another artifact yields nothing (`Grants.HandOffOfExternal`).
* The cap on content grants is enforced statement by statement, outside a transaction. `Grants.Store.Issue`, `Redeem` and
  `Unlock` keep it whatever fails if the artifact is below its cap before, and `Grants.CutIssue` leaves any artifact that is at
  its cap over it, by a failure after the insert. `Grants.CutTrim` is such a run for any cap. All other operations keep it.
* A restarted import finishes after any kills and losses of power on a file system that keeps the changes of one directory in
  order. On another one a loss of power can leave a destination that is refused for good. It can exactly while the copy's
  receipt has not reached the medium, or the payload's receipt and the completion marker both have not
  (`OfflineImport.Destination.TearsIffExposed`); `OfflineImport.TearCopy` gets there.
* A member with the key `__proto__` is lost in the privacy walk without being noted as a change, as assigning to that key adds no
  member. So an unchanged walk gives back its input exactly if there is no such member (`Redaction.UnchangedIsEqual`), and
  otherwise the raw line has a member that the record lacks (`Redaction.ParseLines`).
* Codex messages are matched by role and text joined with a separator, so a role that contains the separator can take another
  message away (`Transcript.CollidingKeys`). Without such roles the count is exact per role and text.

## The collector

`Spool` is the durable queue with transactions that leave no trace when any write throws. `Delivery` is the pair of spool and
server as a state machine: requests are lost, delayed and repeated, acknowledgements are lost, uploads are retried and dropped.
`Collector` is one pass of the collector over them: it accounts for every upload and candidate once, sends nothing that the
policy does not admit, and undisturbed archives everything that nothing stands in the way of. `Transcript` is the
deduplication of Codex transcripts, `Redaction` the privacy walk and the raw text kept beside the redacted records.

## The other parts

`OfflineImport` is the restartable import, `Paging` the artifact list, `RangeDownload` byte ranges on both sides, `Codec` the
schema-driven JSON codec, `Query` the search expressions, `ContentPath` manifest paths in URLs, `Throttle` the sliding-window
throttle, `Grants` passwords and access grants. `Decimal` and `Wrappers` are shared.

## Model

| member | source | states |
|---|---|---|
| ArtifactStore.Store.ReadyIsServed | manure/manure/storage.py:1455-1660 | In every reachable state a ready row has a durable, hash-verified live tree that no crash changes; it is size-complete exactly when the manifest is honest. |
| ArtifactStore.Store.AcknowledgedIsSafe | manure/manure/storage.py:1102-1233 | In every reachable state an acknowledged chunk of a dependable upload is behind its receipt in cache and on the medium, or the whole payload is live for good, and any crash leaves it so. |
| ArtifactStore.Store.Run | manure/manure/storage.py:256-2119 | Any run of commands with faults and crashes inside keeps the invariant and leaves a trace of moments each of which follows from the one before; nothing published is taken back, no removed id returns; every acknowledged chunk stays acknowledged, of a dependable upload with the same bytes, unless a command of the trace has broken its promise where it may. |
| ArtifactStore.Store.TraceKeepsAck | manure/manure/storage.py:1102-2119 | In every trace, an acknowledged chunk is still acknowledged at the end, of a dependable upload with the same bytes, or a faulty restart without power loss on its stranded artifact, or a faulty sweep of its doomed one, left it without its receipt. |
| ArtifactStore.Store.Recovery | manure/manure/storage.py:1993-2119 | After any run one start without faults leaves every row published or resumable, nothing live without a row, and nothing to do for any dependable row; after two nothing is left to do. |
| ArtifactStore.Store.Do | manure/manure/storage.py:256-2119 | Each command keeps the invariant and the history; only a put adds a receipt or an acknowledgement, and in a dependable upload never in place of another; the promise of a chunk is withdrawn exactly where it has been broken: on a stranded artifact at a restart without power loss, on a doomed one by a sweep, and never without a fault. |
| ArtifactStore.Store.Init | manure/manure/storage.py:733-860 | Succeeds without faults exactly when the manifest has no duplicate path and quota and both session caps leave room, and then has exactly the directories and empty files; a refusal names the quota before the sessions and leaves nothing, a failure at most the unfinished upload. |
| ArtifactStore.Store.PutChunk | manure/manure/storage.py:1102-1233 | Acknowledged only with a committed receipt over matching durable bytes, and then, for a repeated chunk as for a new one, the upload was last active now and nothing else of its row has changed; never acknowledged where another chunk has been received, and in a dependable upload never where another was acknowledged; no other receipt and no earlier acknowledgement changes; without faults a valid chunk is acknowledged, or refused exactly if it conflicts. |
| ArtifactStore.Store.KeptAfterPut | manure/manure/storage.py:1102-1233 | After a chunk acknowledged at a time, whatever is run, fails or crashes then, the upload is still there as long as it is not deleted, has not expired, and no sweep comes later than the idle limit after that time. |
| ArtifactStore.Store.TraceKeepsActive | manure/manure/storage.py:1897-1991 | In every trace that does not delete it, what was active at some time stays until it expires or a sweep comes later than the idle limit after that time. |
| ArtifactStore.Store.Publish | manure/manure/storage.py:1583-1660 | Success means a ready row; without faults it succeeds exactly when the staged hashes match, and a mismatch leaves only truthful receipts and no bytes beyond them. |
| ArtifactStore.Store.FinishPublish | manure/manure/storage.py:1455-1513 | From verified staging to ready through sync, rename, name sync and commit, safe at every point in between. |
| ArtifactStore.Store.Recover | manure/manure/storage.py:1531-1581 | A publishing row is finished exactly when its payload is complete live or verified in staging, else it is resumable again. |
| ArtifactStore.Store.Settle | manure/manure/storage.py:1662-1708 | A failed publish never reports success and never takes a ready row back. |
| ArtifactStore.Store.ReconcileFiles | manure/manure/storage.py:538-562 | No receipt that staged bytes bear out is lost; without faults only those remain and no bytes lie beyond them; nothing changes when there is nothing to do. |
| ArtifactStore.Store.AdoptOrDiscardLive | manure/manure/storage.py:2004-2037 | An uploading row's live tree is never the whole payload, so it is never adopted: it goes together with the receipts. |
| ArtifactStore.Store.ReconcilePublishing | manure/manure/storage.py:2045-2087 | A publishing row whose live tree fails the size check goes back to uploading and keeps that tree; every other is left with nothing to do. |
| ArtifactStore.Store.Reconcile | manure/manure/storage.py:1993-2119 | The start-up pass resolves every row, leaves no live tree without a row, changes a row exactly if something was to be done, and withdraws the promise of exactly the chunks it has lost, only where a rename was not durable and something fails. |
| ArtifactStore.Store.Restart | manure/manure/storage.py:1993-2119 | Without faults a start leaves a row nothing to do exactly if it was not half-way live, changes a row exactly if something was to be done, and breaks no promise; otherwise it withdraws those of exactly the chunks it has lost, only on stranded artifacts. |
| ArtifactStore.Store.Delete | manure/manure/storage.py:954-983 | Row and receipts go together, then the trees; a failure before the commit changes nothing. |
| ArtifactStore.Store.Sweep | manure/manure/storage.py:1897-1991 | Exactly the expired and idle artifacts go; all others are as they were, and exactly the chunks that a fault has cost a doomed artifact lose their promise; without faults aged staging trees without a row go, younger ones stay. |
| ArtifactStore.Store.PowerLoss | manure/manure/storage.py:1424-1529 | Whatever unsynced state a crash leaves, the invariant holds. |
| Artifact.ReadyIsSafe | manure/manure/storage.py:1342-1422 | A ready item is verified in cache and on the medium, and complete exactly when honest. |
| Artifact.ReadySurvivesCrash | manure/manure/storage.py:1424-1529 | A published artifact survives every crash byte for byte. |
| Artifact.CrashKeepsOk | manure/manure/storage.py:1424-1529 | The item invariant and the promise to acknowledged chunks survive every crash outcome. |
| Artifact.AckedIsSafe | manure/manure/storage.py:1102-1233 | The item invariant implies every acknowledged chunk of a dependable upload is safe. |
| Artifact.DependableLiveIsComplete | manure/manure/storage.py:1342-1422 | A dependable upload has no live tree, or a whole one of an honest manifest. |
| Artifact.UploadOwnsNoPayload | manure/manure/storage.py:2004-2034 | A live tree beside an uploading row is never complete, and its upload never dependable. |
| Payload.VerifiedIsCompleteIffHonest | manure/manure/storage.py:1342-1422 | A tree that passes the hash check passes the size check exactly when the declared sizes are true. |
| Payload.CompleteAndSoundIsVerified | manure/manure/storage.py:1378-1380 | Where no tree contradicts the digests, checking sizes alone is as good as hashing. |
| Effects.WriteKeepsOk | manure/manure/storage.py:1160-1205 | Writing a chunk, or any part of it, spoils no receipt. |
| Effects.RenameKeepsOk | manure/manure/storage.py:1478-1500 | Renaming a verified and synced tree keeps the invariant although the rename may be lost. |
| Effects.CommitKeepsOk | manure/manure/storage.py:1500-1513 | Committing ready on a size check alone is safe. |
| Effects.LiveRemovalKeepsOk | manure/manure/storage.py:2035-2037 | A live tree that is removed never belonged to a dependable upload. |
| CrashWindows.InterruptedPublishFinishesIffHonest | manure/manure/storage.py:1531-1581 | A publish killed after its rename can be finished exactly when the manifest is honest. |
| CrashWindows.ReceiptsOutliveTheNextCrashIff | manure/manure/storage.py:2045-2087 | Going over receipts before the rename is durable is harmless exactly when no rename is pending or the chunks are in staging. |
| CrashWindows.NoReceiptsNoBytes | manure/manure/storage.py:2062-2082 | An upload resumed without receipts has only empty files. |
| CrashRuns.PublishIncomplete | manure/manure/storage.py:1387-1422 | For every manifest that is not dependable a run publishes it without its payload being size-complete. |
| CrashRuns.PublishEmptyAsTwoBytes | manure/manure/storage.py:1583-1660 | Two publishes and no fault do that with an empty file declared to have two bytes. |
| CrashRuns.SecondStartChanges | manure/manure/storage.py:2004-2087 | For every manifest that is not dependable a run leaves a second start something to change. |
| CrashRuns.LoseAChunk | manure/manure/storage.py:2004-2037 | For every manifest that is not dependable a run loses an acknowledged chunk. |
| CrashRuns.Strand | manure/manure/storage.py:2045-2087 | A run from an empty store has an honest upload with an acknowledged, safe chunk, and ends with that chunk lost. |
| CrashRuns.LoseStranded | manure/manure/storage.py:2045-2087 | Any stranded artifact with content loses every chunk and all bytes if a start dies after going over its receipts, the power then takes the rename back, and a start without faults follows. |
| Limits.InsertStaysWithin | manure/manure/storage.py:803-822 | The three checks of an init keep quota, global and per-user session caps. |
| Limits.Measure | manure/manure/storage.py:803-822 | The sum and counts an init takes are those of all rows. |
| Chunks.AcceptsExactlyTheCells | manure/manure/storage.py:1084-1100 | The range check accepts exactly the cells of one grid. |
| Chunks.CellsEqualOrDisjoint | manure/manure/storage.py:1084-1100 | Two accepted ranges are equal or disjoint. |
| Chunks.Coalesce | manure/manure/storage.py:243-253 | The merged ranges cover the same positions and are sorted, apart and non-empty. |
| Chunks.Received | manure/manure/storage.py:722-731 | The reported ranges cover exactly the receipts and the total counts each received cell once. |
| Chunks.UncoveredIsMissing | manure/manure/client.py:1900-1928 | Read against the report, the client finds exactly the cells without a receipt. |
| Chunks.SendingTheMissingCompletes | manure/manure/client.py:1803-1810 | Sending them makes the report show the whole file. |
| Chunks.ResumePlan | manure/manure/client.py:1795-1810 | Status and plan together give exactly the missing cells. |
| Upload.ReportedInFullIff | manure/manure/storage.py:1293-1310 | A file is reported as wholly received exactly when every cell has its receipt. |
| Upload.ReceivedIsVerified | manure/manure/storage.py:1583-1660 | In every reachable state an upload whose every chunk has been received passes the hash check. |
| Upload.Resume | manure/manure/client.py:1795-1841 | Resuming sends what is missing and the publish succeeds. |
| Upload.ResumeAfterRun | manure/manure/client.py:1656-1841 | After any run in which what is put for the artifact is of the source, whatever failed or crashed in it, a start and a resume without faults end with the source's bytes published and durable. |
| Upload.UploadAndPublish | manure/manure/client.py:1656-1841 | Begun, sent and published, the durable live files are the source's bytes. |
| Spool.EnqueueKeepsInv | chronicle/collector/src/spool.ts:103-116 | Enqueueing keeps the two indexes inverse, origins bound and expected revisions at their heads. |
| Spool.AckKeepsInv | chronicle/collector/src/spool.ts:132-141 | Acknowledging keeps the invariant and never clears a tombstone. |
| Spool.DropKeepsInv | chronicle/collector/src/spool.ts:151-158 | Dropping sets the tombstone and leaves no pending entry for the source. |
| Spool.RescheduleKeepsInv | chronicle/collector/src/spool.ts:142-150 | Failing and retrying touch nothing the invariant speaks of. |
| Spool.OnePendingPerSource | chronicle/collector/src/spool.ts:103-116 | A source has at most one pending upload. |
| Spool.DurableSpool.Enqueue | chronicle/collector/src/spool.ts:103-116 | Refused in the source's order of checks; a throw anywhere leaves the store unchanged. |
| Spool.DurableSpool.Ack | chronicle/collector/src/spool.ts:132-141 | Advances the head exactly for the receipt of the pending entry; a throw leaves the store unchanged. |
| Spool.DurableSpool.Fail | chronicle/collector/src/spool.ts:142-147 | Counts the attempt and notes error and next time; a conflict is marked as such, another failure stops the upload exactly if it has been tried as often as allowed; nothing else of the store changes. |
| Spool.DurableSpool.Drop | chronicle/collector/src/spool.ts:151-158 | Tombstone, removal and audit entry together or not at all. |
| Spool.DurableSpool.PendingOrigin | chronicle/collector/src/spool.ts:119-129 | The origin found is the one the entry was enqueued with. |
| Spool.DurableSpool.NextReportSequence | chronicle/collector/src/spool.ts:160-166 | Numbers are issued once, in order, up to the last of 63 bits. |
| Spool.DurableSpool.ReportAccepted | chronicle/collector/src/spool.ts:167-171 | Accepted exactly when issued and newer than the last accepted. |
| Delivery.ExactlyOnceDelivery | chronicle/README.md:157 | For every run: the server is at the local head or one ahead by exactly the pending snapshot, everything is committed at most once and in order, and no conflict is ever answered. |
| Delivery.NeverAConflict | chronicle/README.md:157 | Any request on the wire, however late or often, is answered with its own receipt. |
| Delivery.ReceiptIsForPending | chronicle/collector/src/collector.ts:197-201 | A receipt for a pending upload is for its snapshot and the spool takes it. |
| Delivery.RunIsSafe | chronicle/collector/src/spool.ts:86-172 | Every run keeps the pair safe and only extends what was enqueued, committed and acknowledged. |
| Delivery.PendingCanBeDelivered | chronicle/collector/src/collector.ts:192-210 | From every reachable state a pending upload can get through, leaving both sides with one history. |
| Delivery.SnapshotCanBeArchived | chronicle/collector/src/collector.ts:165-200 | From every reachable state a new snapshot of a source that is not given up and has nothing pending can become the last of the server's history. |
| Collector.Engine.RunOnce | chronicle/collector/src/collector.ts:42-212 | A pass cut short anywhere keeps the pair safe, sends only what is due, waiting and admitted by the policy, and leaves what is stopped, in conflict or not yet due as it was; a finished one accounts for every upload and candidate once, has tried all that was due and leaves only uploads of the current policy; undisturbed it archives every candidate that nothing stands in the way of. |
| Collector.AdmissionIs | chronicle/collector/src/admission.ts:16-26 | A named profile is admitted unless excluded, the default one unless that is, and another or an unknown origin only if everything is. |
| Collector.Engine.EnqueueChanged | chronicle/collector/src/collector.ts:161-188 | Every candidate ends given up, archived, pending or too large and is counted once; one whose source had nothing queued and is not archived is queued with its origin; what was pending still is. |
| Collector.Engine.UploadAll | chronicle/collector/src/collector.ts:189-211 | Each due upload is tried once, acknowledged or rescheduled, and counted as such; others are untouched and not sent; undisturbed each gets through. |
| Collector.Engine.Conclude | chronicle/collector/src/collector.ts:201-208 | A receipt is acknowledged; after a failure that is not retryable the upload is stopped, after a retryable one exactly when its attempts have reached the policy's limit, and otherwise it waits for its next time; nothing else changes. |
| Collector.Engine.DropStale | chronicle/collector/src/collector.ts:90-96 | Exactly the uploads of another policy are dropped. |
| Collector.Engine.Exchange | chronicle/collector/src/ingest.ts:61-88 | A receipt that comes back is the server's, a failure has the meaning of some status other than the server's conflict, and a clear network brings the receipt. |
| OfflineImport.Destination.ImportBundle | manure/migration/offline.py:912-994 | Without a kill a run finishes exactly when nothing stands in its way, and then the data directory has exactly the bundle's files of both its trees, staging and live, byte for byte, and the database its rows; a killed one leaves a state the next goes on from; a finished one that found nothing unsynced leaves nothing unsynced. |
| OfflineImport.PayloadIsBothTrees | manure/migration/offline.py:804-810 | The payload of a bundle is what its staging and its live tree hold, and nothing else. |
| OfflineImport.EntriesTellApart | manure/migration/offline.py:804-810 | What a receipt records tells apart any two payloads that differ in a path, a kind or a byte. |
| OfflineImport.Destination.FinishAfter | manure/migration/offline.py:912-1015 | After any runs, killed at any durable step and with power lost anywhere, one more run finishes the bundle exactly when it may, and always if all were imports of it and the file system keeps order or no loss of power struck an exposed moment; the rows are in once; after writes began it is refused. |
| OfflineImport.Destination.Run | manure/migration/offline.py:912-1036 | Over whole runs with kills and losses of power a copy bound on the medium stays bound, rows are inserted at most once, the write boundary is not crossed back, and what was open to a bundle stays open unless a loss of power strikes an exposed moment. |
| OfflineImport.Destination.TearsIffExposed | manure/migration/offline.py:108-127 | Without order among the changes of a directory, a loss of power can tear a destination exactly while its copy receipt, or both its payload receipt and marker, are not on the medium. |
| OfflineImport.Destination.LosePower | manure/migration/offline.py:108-127 | Every outcome of a loss of power keeps the invariant and what was on the medium, and a whole destination whole if changes keep their order or it was not exposed. |
| OfflineImport.TearCopy | manure/migration/offline.py:923-966 | An import killed between the naming of the copy receipt and the directory sync, and a loss of power then, leave a destination that every later import refuses. |
| OfflineImport.Destination.VerifyDestination | manure/migration/offline.py:879-909 | From any state, even a tampered one, accepts exactly the finished destinations: both trees of the bundle, file by file, and nothing else on the bound directory, its rows, and both receipts. |
| OfflineImport.Destination.MarkWritable | manure/migration/offline.py:1018-1036 | Succeeds only on a finished destination. |
| OfflineImport.Destination.PlaceFiles | manure/migration/offline.py:923-966 | Files are copied, bound and renamed, or taken up where an earlier run left them; another bundle's copy is refused. |
| Paging.Walk | manure/manure/storage.py:868-952 | Following the cursors from the first page to the last gives the listing. |
| Paging.ListingIsExact | manure/manure/storage.py:882-952 | The listing is exactly the matching rows, each once, in the total order with absent values last. |
| Paging.FiltersAreExact | manure/manure/storage.py:896-930 | Listed is exactly what has not expired, unless that is asked for too, has the visibility and the state asked for, and in a search of the catalogue holds the text in its name or id. |
| Paging.ListingIsSorted | manure/manure/storage.py:888-895 | For each of the nine columns and both directions, two listed rows stand by their values and then by their ids; what never expires comes last. |
| Paging.LegacyIsSorted | manure/manure/storage.py:868-952 | The listing without a query goes by time of creation, then by id. |
| Paging.LessIff | manure/manure/storage.py:888-895 | Text compares by its first difference, and a beginning of a text comes before it. |
| Paging.RestOfListing | manure/manure/storage.py:901-919 | The rows beyond a cursor are the rest of the listing, for all sort fields and both directions. |
| Paging.BeyondIsAfter | manure/manure/storage.py:901-919 | The cursor condition says exactly: after the row it was made from. |
| Paging.CursorRoundTrip | manure/manure/domain.py:622-663 | A cursor stands for its row in its own query, and no other catalogue query accepts it. |
| RangeDownload.RangeRoundTrip | manure/manure/server.py:1510-1535 | A written range is read back exactly, cut at the end of the file; refused exactly when it starts beyond it or is empty. |
| RangeDownload.SuffixRoundTrip | manure/manure/server.py:1515-1524 | A suffix range is the last bytes, or all of a shorter file. |
| RangeDownload.OpenRoundTrip | manure/manure/server.py:1525-1535 | A range without an end goes to the end of the file, and is refused exactly when it starts beyond it. |
| RangeDownload.OneRangeOfBytes | manure/manure/server.py:1510-1528 | Other units, several ranges, and a range without a dash are refused. |
| RangeDownload.PyIntOfSpelling | manure/manure/server.py:1517-1531 | A bound is read the same with white space around it, a sign before it and underscores between its digits. |
| RangeDownload.ContentRangeRoundTrip | manure/manure/client.py:2647-2656 | The server's Content-Range is read back, and accepted exactly for the wanted start and size. |
| RangeDownload.RangesAreServed | manure/manure/server.py:1445-1471 | Each of the three forms of a range is answered with exactly its bytes of the file, in a form the client's check takes, if there are any, and otherwise refused with the size of the file. |
| RangeDownload.Download.FetchRest | manure/manure/client.py:2887-2947 | Each request strictly advances, and whatever interrupts it, also in the middle of a write, staging has only grown by the file's bytes at their places. |
| RangeDownload.Download.Run | manure/manure/client.py:2684-2978 | From a truthful prefix one undisturbed run installs the file; a spoiled staging is found out and thrown away; one without its sidecar is refused once and claimed; a kill anywhere leaves a truthful prefix truthful. |
| RangeDownload.Download.ThreeRuns | manure/manure/client.py:2684-2978 | From any staging at all, spoiled or without its sidecar, three undisturbed runs install the file. |
| RangeDownload.Download.ResumeAfter | manure/manure/client.py:2684-2978 | After any number of runs, interrupted or killed anywhere, one undisturbed run installs the file. |
| Codec.CodecIsTheForm | manure/manure/current_protocol.py:591-678 | Encoding and decoding find exactly what the form of each type says: 64-bit integers are canonical text, 32-bit ones numbers, both in their range, ids grouped lower-case hexadecimal, records exactly their fields, variants the one member of their tag. |
| Codec.EncodeIffDecode | manure/manure/current_protocol.py:591-678 | For every schema a value and a JSON tree correspond under encoding exactly when they do under decoding. |
| Codec.EncodingIsInjective | manure/manure/current_protocol.py:604-628 | Two values with one encoding are the same value. |
| Codec.IntOfRoundTrip | manure/manure/current_protocol.py:646-650 | Every accepted decimal text is the canonical text of its number. |
| Codec.ParseIdIff | manure/manure/current_protocol.py:665-667 | Exactly the canonical text of an id is read. |
| Codec.ResponseIsTheAnswer | manure/manure/current_protocol.py:689-693 | The client gets what the server answered exactly if it answers this request and is of a kind it waits for. |
| Query.ParseExpression | manure/manure/query.py:102-168 | The parser's one pass, each turn of which advances, accepts exactly the expressions of at most 4096 code units that are written in acceptable terms, and the plan is what those terms mean. |
| Query.ExpressionMeans | manure/manure/query.py:102-168 | Fields and bare terms in any order, with values as words or as JSON strings in any spelling, are accepted exactly if each field comes once with a value it can have and in a mode that has it, and text is given in one way; the search text is that of its field, or in the catalogue the texts of the bare terms and for retrieval the terms as written; a refusal names something that is wrong and marks where it stands. |
| Query.AcceptedIff | manure/manure/query.py:58-168 | Nothing but a row of acceptable terms is accepted, however the expression is made up. |
| Query.ClashesAreRefused | manure/manure/query.py:111-168 | A field that is repeated, and a text field beside a bare term, are refused wherever they stand. |
| Query.UnknownIsRefused | manure/manure/query.py:111-122 | A word with a colon that names no field is refused wherever it stands, and marked to the next white space unless a field was repeated before it. |
| Query.MissingIsRefused | manure/manure/query.py:73-99 | A field without a value is refused, and marked where the value should be. |
| Query.UnseparatedIsRefused | manure/manure/query.py:73-99 | A value that runs on into something else is refused, and marked from its beginning to what it runs into. |
| Query.UnclosedIsRefused | manure/manure/query.py:73-99 | A string without an end is refused, and marked to the end of the expression. |
| Query.PlanRoundTrip | manure/manure/query.py:102-168 | A valid plan written out means that plan: its text in a field or as bare words and strings anywhere among the fields, everything spelled in any legal way, fields in any order and case, defaults given or left out. |
| Query.PlanCanBeWritten | manure/manure/query.py:102-168 | Every plan can be written so. |
| Query.ScannedIsSpelled | manure/manure/query.py:73-94 | A string that is read up to its quote is such a spelling of what it is read as; halves of a surrogate pair beside one another are joined, and alone they are refused. |
| Query.ParsedIsValid | manure/manure/query.py:134-168 | Only valid plans come out. |
| Query.ErrorsAreInside | manure/manure/query.py:58-99 | Every error span lies inside the expression, in UTF-16 units. |
| Query.ScalarsOfUtf16 | manure/manure/query.py:66-70 | An expression means the same in UTF-16 code units as in scalars, and its length is counted in those units. |
| Query.ScanSpelled | manure/manure/query.py:73-94 | A JSON string, each character written as itself, by a short escape, by its code or by two surrogates, is read back up to its closing quote. |
| Query.Escaped | manure/manure/query.py:73-94 | Every text can be so written. |
| ContentPath.EncodedIsDecoded | manure/manure/server.py:312-336 | Every servable path survives the client's encoding and the server's decoding; it is taken for a directory exactly if a slash follows, and what comes after a question mark does not matter. |
| ContentPath.RootIsDecoded | manure/manure/server.py:312-336 | A lone slash names the root, with or without a query. |
| ContentPath.SpelledIsDecoded | manure/manure/server.py:312-336 | The same however the bytes of the path are written, as themselves or by two hexadecimal digits in either case. |
| ContentPath.ManifestPathIff | manure/manure/domain.py:460-486 | What a manifest may name, segment by segment: that the path is normal follows. |
| ContentPath.ManifestPathIsServable | manure/manure/domain.py:460-486 | Every path a manifest may name is servable. |
| ContentPath.DecodedIsServable | manure/manure/server.py:312-336 | Nothing else is ever decoded, whatever the request. |
| ContentPath.QuoteRoundTrip | manure/manure/client.py:2184 | A quoted segment is read back, and holds nothing but what needs no quoting and percent signs, so no slash and no question mark. |
| ContentPath.PlainIsQuotedAsItself | manure/manure/client.py:2184 | Letters, digits, hyphens, periods, underscores and tildes are left as they are. |
| ContentPath.DecodedIsUtf8 | manure/manure/server.py:322-325 | Strict decoding accepts only the encoding of what it returns. |
| Throttle.Table.Allow | manure/manure/server.py:69-91 | Allowed exactly when fewer than the limit are left in the window, and with steady time that is how often the key was let through in the last minute; the key comes last in the order, and of the others those used longest ago go first, only when a request is let through and only down to the cap; the order stays a duplicate-free listing of the table, within the cap exactly if the request was let through, its key was known or there was room, as with positive limits always. |
| Throttle.Table.WithinLimit | manure/manure/server.py:69-91 | With steady time no key in the table has been allowed more often in any minute than its highest limit. |
| Throttle.WindowHolds | manure/manure/server.py:79-86 | Entries a limit apart are a minute apart, so no window holds more than the limit. |
| Transcript.Messages | chronicle/collector/src/parsers.ts:159-180 | Every record with a text gives its message, in record order and with the policy applied to it, but for the first events of a key, exactly as many as response items tell it; so per key, and where no role contains the separator per role and text, there are as many messages as the more talkative of items and events tells plus all others. |
| Transcript.KeysAreDistinct | chronicle/collector/src/parsers.ts:163 | Keys tell role and text apart as long as no role contains the separator. |
| Transcript.CollidingKeys | chronicle/collector/src/parsers.ts:159-180 | An event whose key is that of an item of another role, which contains the separator, is left out. |
| Redaction.UnchangedIsEqual | chronicle/collector/src/privacy.ts:25-61 | A walk that notes no change gives back its input without its `__proto__` members, so exactly its input if it has none. |
| Redaction.WalkIsProper | chronicle/collector/src/privacy.ts:42-60 | What comes out has only keys that can be assigned, in the order of the input, so it can be written and read back. |
| Redaction.WalkIsClean | chronicle/collector/src/privacy.ts:25-61 | No secret field survives, also not in JSON held by strings, down to the depth limit. |
| Redaction.WalkShows | chronicle/collector/src/privacy.ts:25-61 | Every string comes out with the text patterns applied to it, a remote sanitized first, and JSON that it then holds redacted in its place; secret fields become the mark or stay null; everything else stays where and as it was. |
| Redaction.WalkIsScrubbed | chronicle/collector/src/privacy.ts:25-61 | If applying the patterns twice is applying them once, no string of the result, also in JSON held by strings, has anything left for them. |
| Redaction.ChangedIffHarmful | chronicle/collector/src/privacy.ts:25-61 | A change is noted exactly if somewhere a pattern alters a string, a remote is sanitized, a field is hidden, or JSON held by a string is. |
| Redaction.RefusalIs | chronicle/collector/src/parsers.ts:88-112 | A line is refused exactly if it is no JSON, no object, or nested deeper than 64, as written or in the walk. |
| Redaction.WalkRefusesDeep | chronicle/collector/src/privacy.ts:25-61 | The walk refuses exactly what is nested deeper than 64, counted through JSON held by strings and not below what it hides. |
| Redaction.ImagesAreHidden | chronicle/collector/src/privacy.ts:48-52 | An image generation keeps its fields, and every result in it is hidden or null. |
| Redaction.DeepIffNestedTooFar | chronicle/collector/src/parsers.ts:26-30 | The depth check refuses exactly what is nested beyond the limit. |
| Redaction.Redactor.Redact | chronicle/collector/src/privacy.ts:25-61 | The walk with its outside flag ends for all input, shows what `Redaction.WalkShows` says, and its flag is set exactly if something was to be taken out. |
| Redaction.ParseLines | chronicle/collector/src/parsers.ts:88-112 | Takes every transcript of whole lines none of which is refused, and refuses others for their first bad line; every record shows its line with everything taken out that is to be; the lines of the raw text decode to the redacted records one to one but for `__proto__` members, exactly if a line has none, and the raw text is the input, and nothing is counted as redacted, exactly if every line is harmless. |
| Grants.Store.GrantsAreBound | manure/manure/storage.py:985-1081 | In every reachable store a password is there exactly for an external artifact, a content grant is bound to its current password or to a user of an internal one, and a one-time grant has yielded at most one. |
| Grants.Store.Patch | manure/manure/storage.py:985-1051 | A change of visibility sets or clears the password and revokes every grant of that artifact and of no other, or nothing happens; before it is ready only the owner may. |
| Grants.Store.Rotate | manure/manure/storage.py:1053-1081 | A new password leaves no grant made under the old one. |
| Grants.Store.CreateOneTime | manure/manure/storage.py:1723-1738 | A fresh hand-off that has yielded nothing and lasts its time, under a value never used for one; with it all hand-offs are of internal artifacts exactly if they were before and this one is; no use and no yield of another changes. |
| Grants.Store.Redeem | manure/manure/storage.py:1765-1789 | A one-time grant that has yielded nothing yields at most one content grant, only while usable, for a live credential and a ready internal artifact, and without faults always then; the new grant is of this artifact and lasts its time or as long as the artifact; uses and yields never go back, others stay as they are, and an artifact below its cap keeps it. |
| Grants.Store.Unlock | manure/manure/storage.py:1791-1813 | Unlocks exactly with the current password of a ready, unexpired external artifact, for the lifetime of a grant or of the artifact; below the cap it adds exactly the new grant and the cap stays kept whatever fails. |
| Grants.Store.Ends | manure/manure/storage.py:1815-1823 | A content grant ends after its lifetime or with the artifact, whichever comes first. |
| Grants.Store.Issue | manure/manure/storage.py:1815-1841 | Issued grants end no later than the artifact and the youngest outlives the trim; below the cap exactly the new one is added and the cap stays kept whatever fails; otherwise it stays kept exactly if the issue succeeds or changes nothing. |
| Grants.Store.Trim | manure/manure/storage.py:1834-1840 | Only the oldest go, and only as many as the cap requires. |
| Grants.CutTrim | manure/manure/storage.py:1834-1840 | For every cap there is a run of unlocks of a ready artifact, the last cut short, that leaves it over its cap. |
| Grants.CutIssue | manure/manure/storage.py:1815-1841 | Whatever the store, an issue for an artifact at its cap that fails at the first statement of its trim leaves it over. |
| Grants.HandOffOfExternal | manure/manure/storage.py:1723-1738 | A hand-off of an external artifact is taken and yields nothing. |
| Grants.Store.Lookup | manure/manure/storage.py:1843-1862 | What is found is unexpired and bound to the current password or to an internal artifact; an expired grant that is asked for is removed, and nothing else. |
| Grants.Store.Revoke | manure/manure/storage.py:1874-1890 | A logout takes away exactly what the credential was granted. |

## Left out

- Upload.UploadAndPublish: takes a store without faults from start to end; `Upload.ResumeAfterRun` is the statement over any run.
- Upload.Resume: takes a store without faults whose receipts are of the source; `Upload.ResumeAfterRun` says how any run gets there.
- Collector.Engine.Exchange: assumes that nothing but the server itself answers 409; such an answer from anything between would be taken for a conflict and stop the upload.
- Collector.Engine.RunOnce: takes its candidates as given, one per source; discovery, parsing and copies of one source that differ are outside.
- Redaction.WalkIsClean: says of the result of an image generation only what `Redaction.ImagesAreHidden` says, as the kind of a record may itself be changed by a text pattern.
- Throttle.Table.Allow: limits are any numbers; the configuration refuses those below one, and with these the cap always holds.
- Collector.Engine.Conclude: takes no conflict, as by `Delivery.NeverAConflict` the server answers none.
- Spool.DurableSpool.Fail: the next time of a failed upload is whatever the caller says; how long the collector backs off is any number.
- Symbolic links, inodes, descriptor races, root pinning and the ownership claim: the file system is a map from paths to bytes with a durable copy and no outside tampering. Directories above a payload tree are durable once made.
- A removal that is undone by a crash brings back the tree where it was last durable, not under an earlier name.
- Sidecar files, progress side files and operator logging of the store; grant tables in delete and sweep, which `Grants` models on its own.
- A sweep's stop signal, and its half-done window between receipts and row other than as a crash.
- Manifest validation beyond distinct paths and path rules: counts, sizes and the conflict between a file and paths below it.
- Hashes are injective constructors, ids and secrets are drawn fresh, clocks are parameters.
- The Chronicle server is the compare-and-swap environment of chronicle/README.md:157, without purge and with one writer per source.
- Discovery, reading, git metadata, progress reports and diagnostics of a collector pass; what normalizes a record to a message.
- JSON text, URL sanitizing and text patterns are parameters of the redaction walk. JSON numbers are integers that are written as they were read; one that JavaScript reads as infinity and writes as null is outside. So are fields that an object inherits from what was assigned to its `__proto__`.
- OfflineImport: the temporary file of a receipt is synced before it gets its name, so a name stands for the whole receipt or is absent; a rename in the root directory is done or not done.
- PostgreSQL and SQLite are atomic transactions and ordered queries; SQL text is not modelled. Modification times of copied files are part of the tree and are copied with it.
- Floats in the codec, and lone surrogates in its strings.
- Lower case in field names is exact for letters whose lower-case form is ASCII; other letters cannot name a field.
- HTTP, the envelopes of refusals, TLS, cookies, sessions and routing around ranges, paths, grants and the throttle.
- Case folding in the artifact search: rows carry their folded name and id.
