# Verified model of LinuxReflect

LinuxReflect writes block backups as chains of images: a full image followed by
incrementals (delta manifests) and differentials (full manifests that refer to
ancestors). This project models the engine that writes, finds and reads such
chains, and the parts of its daemon that must stay right under concurrency, and
proves what they promise for all inputs, all histories and all interleavings.

The statement everything else leads up to is `EndToEnd.PublishedIsRestored`: from
a request, through the choice of a parent from a cached catalog, the comparison
with the parent chain, the manifest written, the publication, later publications
and lost caches, to a reader who knows only a file name and gets back what the
source held, exactly when the source kept its size and chunking.

How the modules build on each other:

| module | what it models |
|---|---|
| `Wrappers`, `Arithmetic`, `Sorting` | results and options, division and rounding, stable sorting |
| `Superblocks`, `Manifest` | the keyless image header; manifest entries, the change table, the merged meaning of a chain |
| `Chain` | the streaming cursors and the single-pass merged walk (classes with mutable fields and loops) |
| `UsedChunks` | rounding the used-block map and iterating over its chunks |
| `Backup` | one backup: store a chunk, write a full or delta manifest, patch its count, count what happened |
| `History`, `RoundTrip`, `Coverage` | whole chains: faithfulness of every recovery point, down to the bytes read from the device; what whole-chain verification reads |
| `Catalogs`, `CacheTruth`, `CatalogMeaning` | rebuilding the catalog from superblocks; when a cache may stand in for it; what both say about the scan |
| `Plans`, `Growth`, `Resolution`, `SetRuns` | choosing a parent, growing chains, resolving a chain; all runs of a set |
| `EndToEnd` | the two halves together |
| `KeyedRuns`, `Verification` | runs of a set with their keys; verifying an image and its chain |
| `Jobs`, `JobProtocol` | the job registry as a class; its steps as a state machine over all interleavings |
| `DrainWatch`, `Budget` | progress during a drain; the staged size limit of a verification result |
| `Keys` | one key regime per chain |
| `Pages`, `PageStreams` | nonces and sealed pages; streams of pages and their round trip |

What the environment decides is a parameter: what a read of the source returns
(a function from offset and length to bytes or failure), where a directory lists
a new file, fresh identifiers, clock values, the bytes drawn for keys. Content
hash, key wrapping and the cipher are function-valued parameters. What is assumed
of them stands in the `requires` of the lemma that needs it: `CollisionFree` only
where bytes rather than hashes are compared, `Authentic` for key wrapping,
`Correct` and `Binding` for the page cipher.

## What the proofs found

- `backup.rs:556-562` compares only the number of chunks with the parent, while
  `chain.rs:245-267` also wants equal chunk size and source size. A source that
  grows inside its last chunk is backed up successfully onto a chain that then no
  longer opens; the next backup on it is refused. `Coverage.ExtensionStaysLinked` and
  `EndToEnd.PublishedIsRestored` give the exact condition,
  `Coverage.SizeDriftBreaksChain` an input.
- `same_records` looks up every cached chain and member in the scanned catalog but
  not the other way round, and compares counts. A cache that repeats a chain or a
  member can therefore pass while hiding another. `CacheTruth.LoadTellsTheTruth`
  gives the exact condition, `CacheTruth.RepeatedChainHidesAnother` a family of
  inputs. Caches the engine writes itself never repeat anything
  (`Growth.Canonical`, kept by `SetRuns.InvKept`).
- The second `same_records` test in `load` (after carrying verification times over)
  always comes out as the first did (`Catalogs.CarryingChangesNoRecord`).
- On a device of size zero, rounding an extent of the first chunk gives a region
  although there is no chunk (`UsedChunks.ChunkAlignedPlanned`,
  `UsedChunks.PlansOnDevice`). `backup.rs:1223` refuses such a device before it calls
  `backup_block_with`, which itself does not; `Backup` models sources that are not empty.
- The member list in the extras is right for sequence numbers up to 255 and wrong
  for 256, the largest the 256-record bound admits (`SetRuns.MemberListExact`,
  `SetRuns.LineSaturates`). The error text speaks of 255 members; the code admits a
  chain of 257.
- The catalog's role for a file-tree incremental is "differential"
  (`Plans.RoleIsRecoverable`), as the comment on `ManifestEncoding` says.

## Model

| member | source | states |
|---|---|---|
| `EndToEnd.PublishedIsRestored` | crates/lr-engine/src/backup.rs:365-742 | In every run of a set of block images, at every later time, the file name of every image resolves to the files of its chain; they restore the image if and only if the source kept its size and chunking from the full up to that backup. Restoring means: the files open as one linked chain the walk accepts, and every chunk of the device comes back: unused exactly where no extent overlaps it, a bad sector exactly where it could not be read in full, zeros exactly where every byte read was zero, and bytes of the same hash everywhere else, which are the bytes that were read when the hash has no collisions |
| `EndToEnd.NameOpensGrown` | crates/lr-engine/src/chain.rs:577-615 | When the source kept its size and chunking, the files a name resolves to are, opened, a chain grown by the backup loop, linked by the superblocks the runs published |
| `EndToEnd.StackIsGrown` | crates/lr-engine/src/chain.rs:216-267 | Images that a healthy run put on top of one another are accepted as a chain when the source is steady; the link checks are derived, not assumed |
| `EndToEnd.PlannedSuperblock` | crates/lr-engine/src/backup.rs:439-464 | The superblock a block backup writes on top of the files its plan names is the one the plan gives: chain, set, parent, sequence and delta flag |
| `EndToEnd.BackUp` | crates/lr-engine/src/backup.rs:409-630 | A block backup planned from the loaded catalog opens the named files in sequence order. It is refused exactly when the plan is, when those files do not link or do not fit the source, or when a chunk ends it; otherwise it returns a backup of the source on top of exactly those files, with the planned superblock |
| `EndToEnd.SteadyIsBackedUp` | crates/lr-engine/src/backup.rs:409-630 | In every run, at every time, a request to extend a chain with a source that kept its size and chunking is planned exactly when its parent resolves and the chain has room or has reached its limit, and is then refused exactly when one of its chunks ends the backup |
| `EndToEnd.PlannedIsBackedUp` | crates/lr-engine/src/backup.rs:409-630 | Such a backup, once in place, is what the runs of the main theorem ask of a publication |
| `EndToEnd.BackedUpUnderItsKeys` | crates/lr-engine/src/keys.rs:140-195 | Members written under the keys that a keyed chain gives them are backups under the one hash of their full, whatever nonces and compression they used |
| `KeyedRuns.ChainsKeepTheirRegime` | crates/lr-engine/src/backup.rs:419-429 | Over every run of a set, at every time, each chain is a keyed chain of superblocks: all images are encrypted or none is, all were written with the dedup key of the full, and each was asked for with a passphrase exactly if the chain is encrypted |
| `KeyedRuns.KeyedIsRestored` | crates/lr-engine/src/backup.rs:409-630 | When every image was written under its own keys, taken from the superblock of its plan's parent, a reader who hashes with the dedup key of the full restores it if and only if the source kept its size and chunking; that the images share a hash is derived, not assumed |
| `Verification.VerifyImage` | crates/lr-engine/src/verify.rs:518-617 | Verifying an image succeeds exactly when its name resolves, the opened chain links and walks, and every record the recovery point refers to, or for a whole-chain verification any member stores, is there, is no longer than a chunk and has the recorded hash; the report counts the records and bytes read and the recorded bad chunks, with the first of them |
| `Verification.VerificationIsExact` | crates/lr-engine/src/verify.rs:518-617 | In every run, at every later time, that is the case exactly when the source kept its size and chunking, in either mode; the report on the recovery point then counts the chunks of the device that held data at that backup and those that could not be read in full, and names the first of these |
| `Manifest.MergedIsLastMention` | crates/lr-engine/src/chain.rs:410-417 | The merged state of a chunk is the entry of the last manifest that mentions it, and unused if none does |
| `Chain.Cursor.Open` | crates/lr-engine/src/chain.rs:451-472 | A cursor starts ready for chunk 0; it is refused only for a manifest of the other form or one no chunk count makes acceptable |
| `Chain.Cursor.ReadDelta` | crates/lr-engine/src/chain.rs:474-481 | Yields the next delta entry while the declared count lasts, then nothing; a stream shorter than declared is an error |
| `Chain.Cursor.StateAt` | crates/lr-engine/src/chain.rs:484-513 | Asked for the chunks in order, the one-entry look-ahead cursor answers the entry that mentions the chunk or the state it was given, and fails only on a manifest that is not acceptable |
| `Chain.DrainedIffAccepted` | crates/lr-engine/src/chain.rs:420-435 | After all chunks, a cursor is exhausted exactly when its manifest has one entry per chunk (full) or strictly ascending chunk numbers below the count (delta) |
| `Chain.ChainWalk.New` | crates/lr-engine/src/chain.rs:216-288 | Opened members are accepted exactly when, sorted, they are gapless from a full, linked by parent id, and agree on chunk size, source size, image kind and set |
| `Chain.LinkedIff` | crates/lr-engine/src/chain.rs:222-267 | Such a chain, member against member: numbered from zero without gaps, each naming the one before it as its parent, and no two of another chunk size, source size, image kind or set |
| `Chain.ChainWalk.WalkWith` | crates/lr-engine/src/chain.rs:334-436 | Either walk succeeds exactly when every header agrees and every manifest is acceptable, so both modes accept the same chains; a merged walk yields the merged state of every chunk in order, an own-payload walk the own payloads of every member |
| `Chain.WalkableIff` | crates/lr-engine/src/chain.rs:334-436 | Acceptable members, one by one: the form the superblock announces, the chunk count and size of the chain, and either one entry per chunk or strictly ascending chunk numbers below the count |
| `Chain.OwnVisitsExact` | crates/lr-engine/src/chain.rs:321-332 | The own-payload walk visits a state exactly when some member records it as stored in that very member, and no visit repeats |
| `UsedChunks.ChunkAlignedPlanned` | crates/lr-fsmap/src/lib.rs:81-98 | The rounded regions are sorted, disjoint, chunk-aligned and end at a chunk or device end, for all inputs except exactly this family: an empty device whose map has an extent in the first chunk |
| `UsedChunks.ChunkAlignedCovers` | crates/lr-fsmap/src/lib.rs:81-98 | For every device, empty ones included: rounding covers a byte exactly when some extent touches its chunk and it lies on the device, an empty device counting as one of one byte |
| `UsedChunks.Merge` | crates/lr-fsmap/src/extents.rs:49-59 | The in-place merge loop computes the merged regions of which the two lemmas above speak |
| `UsedChunks.PlansExact` | crates/lr-blocksource/src/plan.rs:85-104 | The iteration yields whole chunks of the device in strictly ascending order below the chunk count, one for each chunk whose first byte the regions cover and none for any other |
| `UsedChunks.PlansAccounted` | crates/lr-blocksource/src/plan.rs:66-82 | The iteration yields as many chunks as planned_chunks announces and, when lengths fit 32 bits, as many bytes as planned_bytes announces |
| `UsedChunks.PlansOnDevice` | crates/lr-blocksource/src/plan.rs:38-104 | Every map rounds to regions the iteration can walk; it names only chunks of the device exactly outside the empty-device family, where it names chunk 0 of no chunks with nothing to read |
| `UsedChunks.UsedChunks.New` | crates/lr-blocksource/src/plan.rs:38-52 | Refuses exactly a zero chunk size; otherwise, whatever the map and the size, the whole plan is still to be yielded |
| `UsedChunks.UsedChunks.NextChunk` | crates/lr-blocksource/src/plan.rs:85-104 | On every plan, each call yields the head of what remains and leaves the tail, or yields nothing once nothing remains; the loop over regions ends |
| `Backup.ImageWriter.AppendChunk` | crates/lr-format/src/writer.rs:167-205 | Appends the payload behind all earlier records, which it keeps; records lie apart, each as long as its header, stored payload and tag |
| `Backup.StoreChunk` | crates/lr-engine/src/backup.rs:972-1028 | What one chunk becomes follows the change table: unchanged exactly when it does not differ from its parent state, otherwise a new entry of the right kind, with the payload recorded only if it is new |
| `Backup.WriteFullEntries` | crates/lr-engine/src/backup.rs:1032-1091 | Writes exactly one entry per chunk of the device, each following the change table against an empty parent; fails exactly when some chunk ends the backup |
| `Backup.WriteChanges` | crates/lr-engine/src/backup.rs:565-622 | The scan merged with the parent walk decides every chunk by the change table, spools deltas or full entries accordingly, counts what it did, and fails exactly when some chunk ends the backup |
| `Backup.Accounting` | crates/lr-engine/src/backup.rs:522-628 | With a parent, inherited plus changed is the chunk count, changed is stored plus zero plus bad plus chunks that left the map, and the number of delta entries is changed |
| `Backup.LeftTheMap` | crates/lr-engine/src/backup.rs:1117-1133 | An unused entry means a chunk that was recorded before and holds no data now, a bad-sector entry a chunk unreadable now; an inherited state is never a bad sector |
| `Backup.BackupFull` | crates/lr-engine/src/backup.rs:522-542 | A full backup fails exactly when a chunk ends it; else the published manifest, records, superblock and counters are those of one scan |
| `Backup.WalkParent` | crates/lr-engine/src/backup.rs:543-564 | The walk of the parent chain gives the merged state of every chunk, and is refused exactly for a chain that does not link, has another chunk count, is too long, or is one no reader accepts |
| `Backup.BackupOnto` | crates/lr-engine/src/backup.rs:543-630 | For any members in sequence order, a backup with a parent fails exactly when the chain does not link, is unfit, or a chunk ends the backup; else the member published is the scan of the source against that chain |
| `History.DeltaIsMinimal` | crates/lr-engine/src/chain.rs:193-201 | A delta leaves a chunk out exactly when the merged state of the ancestors already tells what the source holds, by hash where it holds data, and is not a bad sector; an entry tells what the source holds |
| `RoundTrip.UnchangedCostsNothing` | crates/lr-engine/src/backup.rs:565-622 | An incremental of a source that returns for every chunk what it returned at the last backup, all of it readable, has no entries, stores no payload and counts every chunk as inherited |
| `RoundTrip.EndsIffUnreadable` | crates/lr-engine/src/backup.rs:985-1027 | A backup whose member number fits an entry is ended by a chunk exactly when bad sectors are not to be recorded and some chunk in use could not be read in full |
| `RoundTrip.FullCounts` | crates/lr-engine/src/backup.rs:1046-1091 | A full reports as stored, zero and bad exactly the number of chunks of the device that hold a byte other than zero, hold only zeros, and could not be read in full |
| `History.WroteAccepted` | crates/lr-engine/src/backup.rs:522-628 | Every manifest a backup writes is one every reader of the image accepts: the patched count is the number of entries |
| `History.NewestIsFaithful` | crates/lr-engine/src/backup.rs:565-622 | After any history of fulls, incrementals and differentials, the merged state of every chunk tells what the source held at the last backup, and each stored state names a member at or before it that recorded that offset and hash itself |
| `History.EveryPointIsFaithful` | crates/lr-engine/src/chain.rs:334-436 | The same for the chain cut at any member: it links, walks, and tells what the source held then; later members have no part in it |
| `History.RestoredPayload` | crates/lr-engine/src/chain.rs:537-566 | Reading the stored state of a chunk at any recovery point succeeds with a payload of the hash of what the source held, and with the very bytes when the hash has no collisions |
| `History.ReadsExactlyWhatResolves` | crates/lr-engine/src/chain.rs:537-566 | Reading is honest on every chain: a state is read exactly when it is stored, its record is there, is no longer than allowed and has the recorded hash, and what is read is that record |
| `RoundTrip.BackedUpIsGivenBack` | crates/lr-engine/src/chain.rs:537-566 | Backup and restore compose to the identity on bytes, chunk by chunk, for every recovery point of a grown chain |
| `Coverage.EveryRecordIsRead` | crates/lr-engine/src/chain.rs:397-409 | Whole-chain verification reads every record every member appended |
| `Coverage.EveryReadIsARecord` | crates/lr-engine/src/chain.rs:397-409 | It reads nothing but records that the visited member appended itself, and expects of each the hash of its content |
| `Coverage.NoRecordIsReadTwice` | crates/lr-engine/src/chain.rs:397-409 | It reads no record twice |
| `Coverage.EveryPointIsCovered` | crates/lr-engine/src/chain.rs:321-332 | Every stored reference of every recovery point, superseded ones included, is among what it reads |
| `Coverage.ExtensionStaysLinked` | crates/lr-engine/src/backup.rs:556-562 | A backup compares only chunk counts with its parent; the chain with the new member still opens exactly when chunk size and source size are also unchanged |
| `Coverage.SizeDriftBreaksChain` | crates/lr-engine/src/backup.rs:556-562 | A device wholly in use that grows from 512 to 1024 bytes inside its only chunk: the incremental is not refused, and the chain with it no longer opens |
| `Jobs.EndedGivesEvent` | crates/lr-daemon/src/jobs.rs:56-81 | The terminal event recomputed from an ended entry is the event its end publishes, for every outcome of ordinary and verification work |
| `Jobs.Registry.RegisterFor` | crates/lr-daemon/src/jobs.rs:270-323 | Refused exactly while draining, for a job id that is pending or running and for a set with such a job, changing nothing; otherwise exactly one entry is added, running, not cancelled, with this set and owner and nothing to report, and exactly one Started is published |
| `Jobs.Registry.Finish` | crates/lr-daemon/src/jobs.rs:329-382 | Fails for an unknown job and changes nothing; otherwise the job is finished exactly for a report or a recorded, complete verification and cancelled exactly for a cancellation, keeps what it reports, and the event that says so is published and can be recomputed from the entry |
| `Jobs.Registry.Cancel` | crates/lr-daemon/src/jobs.rs:426-438 | Sets the cancel flag of one known job and ends it at once if it has not started; other jobs are untouched, an unknown id changes nothing |
| `Jobs.Registry.CancelAll` | crates/lr-daemon/src/jobs.rs:231-237 | The loop over the entries raises the cancel flag of exactly the pending and running jobs and touches nothing else of any entry |
| `Jobs.Registry.ActiveJobs` | crates/lr-daemon/src/jobs.rs:219-228 | Exactly the pending and running jobs, each with the name of its set |
| `JobProtocol.InvKept` | crates/lr-daemon/src/jobs.rs:270-382 | Every step of a registrant, worker, canceller, drain or observer keeps the protocol invariant |
| `JobProtocol.OneActiveJobPerSet` | crates/lr-daemon/src/jobs.rs:284-296 | In every interleaving a set has at most one active job |
| `JobProtocol.OutcomeIsNeverLost` | crates/lr-daemon/src/service.rs:482-625 | In every interleaving a worker about to finish finds its job registered, so no outcome is dropped |
| `JobProtocol.RetainedEventIsPublished` | crates/lr-daemon/src/jobs.rs:56-81 | In every interleaving a snapshot gives a terminal event exactly for a terminal state, and when the lock is free it is the last terminal event of the job on the bus |
| `JobProtocol.BusIsBlocks` | crates/lr-daemon/src/jobs.rs:270-382 | In every interleaving the events of a job id on the bus are whole Started, progress, terminal blocks followed by at most one block still open, ids reused or not, although Started is published after the lock is released |
| `JobProtocol.DrainIsFinal` | crates/lr-daemon/src/main.rs:249-259 | Once the flag is set and an observer holding the lock saw no active job, no job is active at any later step, whatever registrations had begun |
| `JobProtocol.CancelHasACause` | crates/lr-daemon/src/jobs.rs:231-237 | In every interleaving the cancel flag of a job is up if and only if it was asked to stop, or every active job was while it was one, since it was last admitted; an admitted job starts with the flag down |
| `JobProtocol.RegisterAlone` | crates/lr-daemon/src/jobs.rs:270-323 | A registration run without interference has the effect that the registry method promises, admitted or refused |
| `JobProtocol.FinishAlone` | crates/lr-daemon/src/jobs.rs:329-382 | An end of work run without interference has the effect that the registry method promises |
| `JobProtocol.FinishAloneInRun` | crates/lr-daemon/src/service.rs:482-625 | In every interleaving a worker that begins to end finds its entry, so if nothing comes between its steps they have that effect |
| `DrainWatch.DrainWatch.Observe` | crates/lr-daemon/src/shutdown.rs:48-89 | The watch state stays the replay of all observed events |
| `DrainWatch.AdvancedIsLastAdvance` | crates/lr-daemon/src/shutdown.rs:91-95 | The time kept for a job is that of the last event since its last terminal event that changed its phase or byte count, or the start of the watch |
| `DrainWatch.LastAdvanceUnique` | crates/lr-daemon/src/shutdown.rs:91-95 | That time is determined by the event history |
| `DrainWatch.DrainWatch.ShouldExtend` | crates/lr-daemon/src/shutdown.rs:99-103 | The drain is extended exactly when some active job advanced within the stall limit according to the event history |
| `Catalogs.BuildCatalog` | crates/lr-engine/src/catalog.rs:111-158 | The map-building loops give one record per scanned chain by ascending id, each with its members in sequence order and dated by its first |
| `CatalogMeaning.BuiltTellsTheScan` | crates/lr-engine/src/catalog.rs:111-158 | Each chain of the rebuilt catalog is dated by the earliest creation time of its superblocks and holds one record for every listed image of the chain, with every field as its superblock and file say, by ascending sequence number and without verification times |
| `Sorting.SortByIsStable` | crates/lr-engine/src/catalog.rs:127 | Members of one sequence number keep their listing order |
| `CatalogMeaning.WarningsAreExact` | crates/lr-engine/src/catalog.rs:165-185 | A warning is raised exactly for two neighbours of a chain with one sequence number or a broken parent link |
| `Catalogs.CarryVerification` | crates/lr-engine/src/catalog.rs:356-370 | Rewrites exactly the verification times of the members whose id, file name and size the cache knows |
| `CatalogMeaning.RebuildKeepsTimes` | crates/lr-engine/src/catalog.rs:332-370 | On a rebuild that decides the verification time of every member |
| `CatalogMeaning.TimesAreKept` | crates/lr-engine/src/catalog.rs:356-370 | The first cached record of an image id decides: its time is kept exactly if it has the file name and size of the image |
| `Catalogs.Load` | crates/lr-engine/src/catalog.rs:300-352 | The catalog used is the cache if it agrees with the superblocks, else the scanned one with verification times carried over |
| `Growth.BuiltIsUnique` | crates/lr-engine/src/catalog.rs:111-158 | A scan and a time determine the rebuilt catalog, so every member stated for a built catalog speaks of the one catalog that load and its callers use |
| `Catalogs.CarryingChangesNoRecord` | crates/lr-engine/src/catalog.rs:332-344 | Carrying verification times never changes the outcome of the agreement test, so the second test in load always disagrees |
| `CacheTruth.AgreementIsSound` | crates/lr-engine/src/catalog.rs:191-223 | A cache that passes the agreement test tells no fact the superblocks do not tell |
| `CacheTruth.AgreementIsComplete` | crates/lr-engine/src/catalog.rs:191-223 | If it also repeats no chain id and no image id within a chain, it tells all of them |
| `CacheTruth.LoadTellsTheTruth` | crates/lr-engine/src/catalog.rs:300-352 | The loaded catalog tells exactly what the superblocks tell if and only if it is not the case that a cache passed the test while repeating a chain or a member |
| `CacheTruth.GoodCacheIsUsed` | crates/lr-engine/src/catalog.rs:191-223 | A cache without repeats and empty chains is used as it is if and only if it has the version, the set id and the facts of the scanned catalog; what is used always has that version and set id |
| `CatalogMeaning.StripForgetsOnlyTheTime` | crates/lr-engine/src/catalog.rs:208-216 | The test compares every field of a member except the verification time |
| `CacheTruth.RepeatedChainHidesAnother` | crates/lr-engine/src/catalog.rs:191-223 | The failing family at work: a cache that lists one chain twice passes for a set of two chains and hides the other |
| `CacheTruth.VerificationComesFromTheCache` | crates/lr-engine/src/catalog.rs:356-370 | A verification time appears only on a member for which the cache held it under the same image id, file name and size |
| `CacheTruth.LoadedFromScan` | crates/lr-engine/src/catalog.rs:300-352 | Both statements for any scan without repeated image ids inside a chain and any cache |
| `Plans.LatestIsDecided` | crates/lr-engine/src/catalog.rs:391-416 | "latest" resolves exactly when one complete chain is strictly newer than every other complete chain, and then to that chain's newest member |
| `CatalogMeaning.LatestOverTheScan` | crates/lr-engine/src/catalog.rs:391-416 | Over the superblocks: "latest" resolves if and only if one gapless chain was started after every other gapless chain, and then to the image of that chain with the largest sequence number; for the rebuilt catalog and every cache that agrees with the scan |
| `Plans.ParentIsNewest` | crates/lr-engine/src/catalog.rs:423-454 | Whatever the catalog and the reference, a resolved parent is the newest member of a complete chain |
| `CatalogMeaning.LatestIsLastOfLargest` | crates/lr-core/src/catalog.rs:81-83 | Of members that share the largest sequence number the last listed is the latest |
| `CatalogMeaning.HolderIsFirst` | crates/lr-engine/src/backup.rs:885-892 | Of several chains that list an image the first is taken |
| `Plans.ResolveParentChain` | crates/lr-engine/src/backup.rs:860-941 | A request gets no parent exactly when it is a plain full or its parent's chain has reached the limit. A parent it does get is the newest member of a complete chain, comes with at most 256 files in sequence order that are exactly the members of its chain up to it, indexed from zero, and with the superblock of the image of its name, whose set id it passes on |
| `Plans.Resolve` | crates/lr-engine/src/backup_plan.rs:58-139 | A stream differential is refused before the set is read. A plan made from the loaded catalog puts its member either at the start of a chain of its own or right after a parent as above: next sequence number within 32 bits, parent link, chain id and set id |
| `Plans.RoleIsRecoverable` | crates/lr-engine/src/chain.rs:172-184 | The role read back from a superblock is the planned one exactly when the image is not an incremental file tree |
| `Plans.ModesAndEncodings` | crates/lr-engine/src/backup_plan.rs:77-128 | Only a stream differential is refused for its mode, and a plan is encoded as a block delta, a full block manifest, a file tree or a send stream exactly as its mode and role say |
| `Plans.ImageSays` | crates/lr-engine/src/backup.rs:442-464 | Every field of a published superblock is the one planned, asked for or measured |
| `Growth.LoadedAgreesExactly` | crates/lr-engine/src/catalog.rs:300-352 | In a set in good health, for every cache, the loaded catalog agrees with the scanned images position by position if and only if it is not the case that a cache out of chain or sequence order passed the agreement test |
| `Growth.ResolvedChain` | crates/lr-engine/src/backup.rs:875-941 | A request with a resolved parent starts a new chain at the limit, is refused when the chain already has more than 256 members, and otherwise gets the whole chain up to its last member, with that member's superblock and set id |
| `Growth.OrderedListed` | crates/lr-engine/src/catalog.rs:127-137 | Wherever a listing shows a new image with the largest sequence number, its chain grows at the end and no other chain changes |
| `SetRuns.NamedIsDecided` | crates/lr-engine/src/catalog.rs:430-454 | In a set in good health a named parent resolves exactly when it is the last image of a chain |
| `SetRuns.PlannedIff` | crates/lr-engine/src/backup.rs:865-941 | In a set in good health a request that extends is planned exactly when its mode allows it, its parent resolves, and the chain is rolled over or has at most 256 members |
| `SetRuns.InvKept` | crates/lr-engine/src/backup.rs:360-742 | Every publication, recorded verification or loss of the cache keeps the set in good health |
| `SetRuns.ChainsStaySound` | crates/lr-engine/src/catalog.rs:111-185 | In every run, after every step, each chain of the rebuilt and of the loaded catalog is complete and raises no warning, and all members of a chain carry one set id |
| `SetRuns.LimitHolds` | crates/lr-engine/src/backup.rs:894-910 | Under nonzero limits of at most L, no chain ever holds more than L members after its full |
| `SetRuns.RecoveryPointsStay` | crates/lr-engine/src/chain.rs:577-615 | In every run an image resolves at every later time to the very files it resolved to when it was published |
| `SetRuns.WriterAndReaderAgree` | crates/lr-engine/src/backup.rs:911-941 | In every run the ancestry a backup takes from the catalog is the one a reader resolves from the superblocks |
| `SetRuns.MemberListExact` | crates/lr-engine/src/backup.rs:657-680 | The member list written into an image gives every image of its chain its own position exactly when the new sequence number is at most 255 |
| `SetRuns.MemberListSaturates` | crates/lr-engine/src/backup.rs:657-680 | On top of any chain of 256 images without a limit below 256 the 257th is planned, and the last two lines of its member list carry one index |
| `SetRuns.LineSaturates` | crates/lr-engine/src/backup.rs:657-680 | A concrete set where that happens: one chain of 256 images and an incremental of the latest |
| `Resolution.ResolveChain` | crates/lr-engine/src/chain.rs:577-615 | Collecting, sorting and checking the candidates gives the cut of the chain at the target, or an error for a gap or an unreadable target |
| `Resolution.EveryMemberResolves` | crates/lr-engine/src/chain.rs:577-615 | In a chain the catalog calls complete, every member resolves to the chain up to it |
| `Resolution.CompleteIffNewestResolves` | crates/lr-core/src/catalog.rs:94-111 | On every scan the catalog calls a chain complete exactly when its newest image resolves |
| `Budget.VarintExact` | crates/lr-daemon/src/verification.rs:258-264 | A varint length is the least number of 7-bit groups that holds the value ("Base 128 Varints", Protocol Buffers encoding specification) |
| `Budget.MessageLength` | crates/lr-daemon/src/verification.rs:258-264 | The length all checks work with is the number of bytes of the whole progress message, written out as nested fields of tag, varint length and body; the varints read back |
| `Budget.CheckObservationSize` | crates/lr-daemon/src/verification.rs:335-352 | The running check with early exit accepts exactly the observations whose whole encoding fits |
| `Budget.ReportCapacity` | crates/lr-daemon/src/verification.rs:266-300 | The binary search fails exactly when the message without a report is over the limit; otherwise it returns the largest report length that fits if even an empty report fits, and zero if none does |
| `Budget.WriteBounded` | crates/lr-daemon/src/verification.rs:183-206 | The bounded writer accepts a report exactly when its total length is within the capacity |
| `Budget.FromAttempt` | crates/lr-daemon/src/verification.rs:87-126 | The staged checks together admit a result exactly when its member count is allowed and the whole encoded progress message fits |
| `Keys.RegimeIsShared` | crates/lr-engine/src/keys.rs:140-195 | Over every run each member shares its chain's regime: wrapped under the same key-encryption key, or plain |
| `Keys.OneRegime` | crates/lr-engine/src/keys.rs:93-195 | All members of a chain are encrypted or none is, and all are written with one dedup key |
| `Keys.UnlocksToTheRoot` | crates/lr-engine/src/keys.rs:47-71 | A request that unlocks one member of a chain unlocks every member, to the chain key of the full; the request that started the chain always does |
| `Keys.OneDerivationIsEnough` | crates/lr-engine/src/keys.rs:204-263 | Unlocking members with the chain key of the full gives each the keys that unlocking it alone gives, which are those it was written with |
| `Keys.RequestsMatchTheChain` | crates/lr-engine/src/keys.rs:140-195 | A passphrase request never extends a plain chain, nor a plain request an encrypted one |
| `Keys.DataKeyIffEncrypted` | crates/lr-engine/src/keys.rs:265-279 | Exactly an encrypted image has a data key, when it is written and whenever it is unlocked |
| `Keys.DrawsAreUsed` | crates/lr-engine/src/keys.rs:93-195 | Every encrypted member wraps under a nonce of its own draw, the full takes salt and chain key from its draw, later members keep the salt, and plain members record zeros |
| `Keys.RefusalsAreExact` | crates/lr-engine/src/keys.rs:47-222 | Keys are refused exactly for a superblock of another chain, for a request of the other regime, and when deriving, unwrapping or wrapping fails |
| `Pages.NonceSeq.NextNonce` | crates/lr-crypto/src/nonce.rs:54-64 | Emits the big-endian form of the counter and advances it, and refuses after the last counter value for good |
| `Pages.NonceInjective` | crates/lr-crypto/src/nonce.rs:54-64 | Different counters below 2^96 give different 12-byte nonces |
| `Pages.NonceIsCounter` | crates/lr-crypto/src/nonce.rs:54-64 | A nonce read highest byte first is its counter |
| `Pages.NoncesNeverRepeat` | crates/lr-crypto/src/nonce.rs:54-64 | All nonces one sequence emits are pairwise distinct (section 3.1 of RFC 5116) |
| `Pages.SealPage` | crates/lr-crypto/src/page.rs:81-108 | Appends one record under a fresh nonce, or refuses an oversized page or an exhausted sequence |
| `Pages.SealedPageOpens` | crates/lr-crypto/src/page.rs:117-154 | A sealed page opens under its own stream and number to its payload |
| `Pages.RecordLayout` | crates/lr-crypto/src/page.rs:98-108 | A page record is its magic, a four-byte length, the nonce, the ciphertext and the tag, byte for byte |
| `Pages.AdLayout` | crates/lr-crypto/src/page.rs:66-71 | The associated data is the stream number followed by the page number, lowest byte first |
| `Pages.OpensExactly` | crates/lr-crypto/src/page.rs:117-154 | A record opens exactly when it has the magic, a header length of at most 4 MiB that accounts for all other bytes, and parts the cipher accepts under the stream and number, and then to what the cipher returns |
| `PageStreams.PageStream.FlushPage` | crates/lr-format/src/stream.rs:125-144 | Sealing the buffer as the next page keeps the stream: its pages, opened in order, and the buffer are what was written, and no two pages carry one nonce. Pages and handed-out nonces only grow, and the nonces of new pages were never handed out before |
| `PageStreams.PageStream.Write` | crates/lr-format/src/stream.rs:92-103 | Bytes written in any portions are appended to what was written, sealing every page that fills; a failure leaves a prefix; pages and nonces only grow, and new pages carry new nonces |
| `PageStreams.PageStream.Finish` | crates/lr-format/src/stream.rs:109-111 | The pages of a finished stream, opened in order from zero, give back all that was written, and the nonces in their records are pairwise different; nonces handed out before are not used again |
| `PageStreams.ValidSurvives` | crates/lr-format/src/stream.rs:125-144 | A stream stays valid while other streams seal pages under the same nonce sequence |
| `PageStreams.WriteStreams` | crates/lr-engine/src/backup.rs:640-684 | All metadata streams of an image share one nonce sequence: each reads back what was written to it, and no two pages of the image, of whichever streams, carry the same nonce |
| `Pages.PageAdInjective` | crates/lr-crypto/src/page.rs:66-71 | Stream and page number are determined by the associated data |
| `Pages.MovedPageIsRejected` | crates/lr-crypto/src/page.rs:117-154 | A page moved to another stream or number does not open |
| `Pages.ResizedPageIsRejected` | crates/lr-crypto/src/page.rs:117-154 | A record whose length is not the one its header gives does not open |

## Left out

- Devices, files, network destinations, snapshots, sockets and the set lock with its leases: reads are a function, publication is one atomic step, and the lock is held for the length of a step.
- Byte layouts of superblocks, manifest entries and footers: headers and entries are abstract values, and patching the entry count rewrites a field, not bytes. A manifest stream that ends early is a sequence shorter than its declared count.
- Compression, BLAKE3, Argon2, AES-GCM and ChaCha20: function-valued parameters with the stated assumptions.
- 64-bit overflow of offsets, sizes and counters: numbers are unbounded except where a bound is part of the behaviour (14-bit and 16-bit member indices, one-byte list indices, 32-bit sequence and chunk lengths, the 96-bit nonce counter).
- Whole-disk, file-tree and Btrfs stream producers, restore to a target, retention, `catalog.json` parsing: the walk, the catalog and the plan cover what they share with block images; deleting a chain is not a step of `SetRuns`.
- Damaged superblocks during a scan: a scan is the list of readable images; `scan_set` warnings are not modelled.
- `source_label`, `set_name`, consistency ordering, error texts, progress reports, the `visited` counter and the order of `active_jobs`: they take no part in any property here.
- The check in `open_chain` that all members have the target's chain id: members reach a walk through `resolve_chain`, which selects by chain id.
- How long a cancelled engine run takes to notice its flag: a worker may end its job at any step after it started.
- The interleaving of walking and reading in a verification: a walk hands over all its states, then their payloads are read; a verification that fails may have read less in the engine. Progress, the recorder and the warning text of a report are not modelled.
- Lagging bus subscribers: the drain watch replays the events it was given.
- Smallest: the ordered map that groups a scan by chain is modelled by choosing the smallest remaining id.
- PatchEntryCount: does not model the seek to the header offset, because entries are not bytes here.
- FromAttempt: takes the lengths of the encoded parts instead of the messages; requires the limit to be at most one mebibyte, which `verification_policy.rs:17,115` enforces, so that the length fields it frames keep to the sizes the checks assume.
- Step: in `SetRuns` a request that fails leaves the set as it is, so only successful publications are steps; a left-over temporary file is not an image.
