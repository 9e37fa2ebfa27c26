# Verification of the Imixs archive

A Dafny 4.11 model of the parts of the Imixs archive that must not lose data, with proofs of what
they keep over whole runs. `dafny verify dfyconfig.toml` checks everything.

The model follows the program's components:

* **Archive** (`Splitter`, `ArchiveTables`, `ArchiveInvariant`, `ArchiveRuns`, `ArchiveHistory`,
  `ArchiveReclaim`, `DataService`, `SaveOutcomes`). The archive keeps six tables: snapshots, two
  indexes, references, a chunk directory and chunk bytes. `ArchiveTables` says what each operation does to them as a
  value; the class `DataService` performs the operations statement by statement, with the loops over
  rows, files and chunks, and is proved to have exactly these effects. One invariant ties the tables
  to the simple view of an archive as a map from ids to documents with their bytes, over all runs.
* **Snapshots** (`Items`, `Ids`, `VersionNames`, `Snapshots`, `SnapshotRuns`, `VersionClashes`,
  `SnapshotSafety`, `WorkitemRuns`, `ClockedRuns`, `SnapshotService`, `SnapshotRestore`,
  `SaveFacts`). Saving a workitem copies its contents into a new snapshot, keeps overwritten versions, empties the origin
  and prunes the history; posting a snapshot undoes that. The results are about unbounded runs of
  edits, saves and restores.
* **Compaction** (`Compactor`, `Lifecycle`): removing local snapshots that the archive can return, and
  what a workitem finds over runs of saves, pulls and compactions together.
* **Scanning and synchronisation** (`RestoreScheduler`, `Resync`, `SyncService`, `BackupLoop`,
  `BackupProtocol`, `FullBackup`): loops and step systems with a cursor or an event log. The backup
  workers are a state machine over all interleavings of locks, pulls, stores, removals, crashes and
  releases of dead locks, and the loop of one service is proved to be a run of it.

`Order` holds sorted enumeration of sets and the text order of ids, `EventLog` the log entries.

## Assumptions

* The checksum is a parameter; it is never empty and separates the contents in play. Generated ids do
  not repeat. Time stamps in version names have their fixed shape and separate dates.
* For `WorkitemRuns.NothingIsLost`: an upload or a new file does not use a version name, an edited file
  that keeps its bytes keeps their checksum or has none, and the date a file carries is not the stamp
  of one of its versions; an increasing clock gives such dates (`ClockedRuns`). Later rounds remove no
  file and replace none by a single byte with the old checksum; `WorkitemRuns.OverwriteKeepsExactly`
  says for every edit when content survives. `WorkitemRuns.ContentChain` needs none of this.
* Queries are exact filters with order and limit. Text is ordered by code units, days are UTC days.
* Documents key their files by name (`ItemCollection` is a map of items and such a list). Sending a
  document over REST or writing it as XML changes nothing.
* Archive operations run to completion; their files have at most 2^31 - 2^20 bytes, the limit that
  `Splitter.SplitAll` shows to be exact.

## What the proofs found

* A history of one deletes the first snapshot of a workitem in the same save that writes it
  (`ArchiveHistory.NewestSurvives`), although the history is described as the number of snapshots kept.
* Deleting a snapshot can leave references and documents behind for three reasons: the walk ends at
  the first shared attachment, it skips a content that no checksum attribute leads to, such as a
  single byte, and it does not begin if neither a date nor the id gives a time
  (`ArchiveReclaim.DeleteReclaimsAll`, `ArchiveReclaim.OneByteStays`).
* A version file can take the name of another attachment; the new snapshot and its origin then list
  different files (`VersionClashes.TakenNameDiffers`), and posting the snapshot does not rebuild the
  origin (`SnapshotRestore.RestoreUndoesSave`); a content is lost (`VersionClashes.TakenNameLosesContent`).
  An upload that brings a modification date in use leads there; dates that differ exclude it.
* The flag that should load a snapshot without its contents is ignored.
* A snapshot whose `$modified` is not a date is half saved: the main table and one index have it.
* A one-byte upload with the old attributes loses the previous content
  (`WorkitemRuns.OneByteUploadLosesContent`), and one-byte contents do not come back from the archive
  unless they were uploaded with their own checksum (`Compactors.ServiceSnapshotsLoadBack`).
* The documented items with the number and the names of the files are not written when a document is
  saved.
* The archive answers a request for an unknown id with an empty document, so the compactor removes
  snapshots that were never archived (`Compactors.UnarchivedIsLost`).
* A restore compares ids as texts, so a start with fewer than thirteen digits can exclude newer
  snapshots and such an end can admit newer ones (`RestoreSchedulers.AdmittedTimes`,
  `RestoreSchedulers.ShortEndAdmitsLater`); its last partial day may not be scanned; the error count
  is not reset.
* A cancelled resync skips the rest of the time stamp it reached, and the cancelled status is never
  taken back (`Resyncs.ResumeAfterCancel`, `Resyncs.CancelIsSticky`). One invalid id ends a resync.
* A snapshot that the archive's own history cleanup removes while saving it is backed up all the same
  (`SyncServices.PrunedIsFannedOut`), and one whose save fails half way
  is archived and never backed up (`BackupLoop.SavedSnapshotReachesArchive`).
* A removal event in a batch is answered with backup events if the latest add event before it pulled
  an unmarked snapshot (`SyncServices.RemovalIsFannedOut`).
* A mirror id configured with a space in front or behind is never served (`BackupProtocol.MirrorIsServed`).
* A full backup repeats a page for ever if a second is crowded or two documents share the last second,
  and it can stop before the newest document, always if that is the only one; one of two documents on
  the same whole second can be skipped (`FullBackups.StopsExactly`, `FullBackups.WholeSecondsMiss`,
  `FullBackups.SingleDocumentIsMissed`, `FullBackups.MissedTwin`).

## Model

| member | source | states |
|---|---|---|
| ArchiveRuns.RunKeepsRep | imixs-archive-service/src/main/java/org/imixs/archive/service/cassandra/DataService.java:110-481 | in every state reached by any sequence of saves with history cleanup, deletions and metadata updates, the six tables represent the simple map from snapshot ids to documents: gap-free chunk directories, all chunk bytes, a reference row for every file with content, and exact indexes |
| ArchiveRuns.StepKeepsRep | imixs-archive-service/src/main/java/org/imixs/archive/service/cassandra/DataService.java:110-162 | one save, deletion or metadata update keeps that representation and changes the view as the simple operation does |
| ArchiveRuns.LoadReturnsSaved | imixs-archive-service/src/main/java/org/imixs/archive/service/cassandra/DataService.java:205-233 | a stored snapshot is loaded exactly as it was saved if and only if the checksum attribute of each of its files leads to that file's own content (or, for a file without content, to nothing stored) |
| ArchiveRuns.RunLoadsWhatWasSaved | imixs-archive-service/src/main/java/org/imixs/archive/service/cassandra/DataService.java:205-233 | over any run from the empty archive, a snapshot still stored loads exactly as it was saved if and only if the checksum attributes of its files lead to their contents, and an id that is not stored loads as the empty document |
| ArchiveRuns.SaveThenLoad | imixs-archive-service/src/main/java/org/imixs/archive/service/cassandra/DataService.java:110-233 | a snapshot loads right after its save as it was saved if and only if its own history cleanup leaves it and the checksum attributes lead to the contents |
| ArchiveRuns.DeleteLeavesOthers | imixs-archive-service/src/main/java/org/imixs/archive/service/cassandra/DataService.java:443-481 | deleting one snapshot does not change what another one loads as, shared attachments included, if each checksum attribute of the other is missing or that of the file's own content |
| ArchiveReclaim.DeleteLeavesExactly | imixs-archive-service/src/main/java/org/imixs/archive/service/cassandra/DataService.java:443-481 | for all snapshots: another one loads as before if and only if none of its checksum attributes names a document that the deletion reclaims |
| ArchiveRuns.RunKeepsIndexes | imixs-archive-service/src/main/java/org/imixs/archive/service/cassandra/DataService.java:129-153 | over any run, an id other than the metadata id is in the main table exactly when it is in the by-uniqueid index under its own prefix, it is in the by-modified index exactly under the day of its stored date, and there are no other index rows |
| ArchiveRuns.DeleteAbsentChangesNothing | imixs-archive-service/src/main/java/org/imixs/archive/service/cassandra/DataService.java:443-481 | deleting an id that is not stored changes no table |
| ArchiveInvariant.BlocksReadBack | imixs-archive-service/src/main/java/org/imixs/archive/service/cassandra/DataService.java:335-385 | chunks stored under consecutive sort ids are read back and joined to the original bytes |
| ArchiveInvariant.StoreKeeps | imixs-archive-service/src/main/java/org/imixs/archive/service/cassandra/DataService.java:868-891 | storing a new content adds one complete document with fresh data ids and leaves every other document intact |
| ArchiveInvariant.ExtractKeeps | imixs-archive-service/src/main/java/org/imixs/archive/service/cassandra/DataService.java:718-767 | extraction stores every content at most once per checksum, adds the reference row of each file with content, and touches nothing else |
| ArchiveInvariant.DropFilesKeeps | imixs-archive-service/src/main/java/org/imixs/archive/service/cassandra/DataService.java:776-855 | the deletion walk never removes a reference of another snapshot nor a document that a reference leads to |
| ArchiveReclaim.DropFilesEffect | imixs-archive-service/src/main/java/org/imixs/archive/service/cassandra/DataService.java:776-855 | the exact effect of the deletion walk: the references up to the first shared content disappear, and of those contents exactly the unshared ones are reclaimed |
| ArchiveReclaim.DeleteReclaimsAll | imixs-archive-service/src/main/java/org/imixs/archive/service/cassandra/DataService.java:776-855 | for every stored snapshot: no reference of it stays behind if and only if the walk over its loaded files reaches each of its contents, and none is reached if its deletion ends early; a document disappears exactly if it is reached and not shared |
| ArchiveReclaim.UnlabelledStays | imixs-archive-service/src/main/java/org/imixs/archive/service/cassandra/DataService.java:791-792 | a content whose checksum no attribute of the snapshot names stays behind with its reference |
| ArchiveReclaim.OneByteStays | imixs-archive-api/src/main/java/org/imixs/archive/core/SnapshotService.java:696 | a snapshot with a one-byte file without a checksum, saved to the empty archive and deleted, leaves a reference and a document |
| ArchiveReclaim.DeleteUndoesSave | imixs-archive-service/src/main/java/org/imixs/archive/service/cassandra/DataService.java:443-481 | saving a new snapshot without history and deleting it restores all six tables if and only if the deletion reaches no content with an earlier reference of the same id and none stored before unless another snapshot refers to it, and every content that is not reached had its reference before |
| ArchiveReclaim.DeleteUndoesNewSave | imixs-archive-service/src/main/java/org/imixs/archive/service/cassandra/DataService.java:443-481 | in particular if all files carry their checksums and no content was stored before |
| ArchiveHistory.VictimsAreOldest | imixs-archive-service/src/main/java/org/imixs/archive/service/cassandra/DataService.java:638-706 | a cleanup selects exactly the oldest ids of the workitem: none if there are fewer than the history, else the surplus, at least one and at most a hundred |
| ArchiveHistory.SavePrunesOldest | imixs-archive-service/src/main/java/org/imixs/archive/service/cassandra/DataService.java:638-706 | a save removes only older snapshots of its own workitem and changes nothing else; of n snapshots it removes none if n < h, else min(100, max(1, n - h)), or a part of these if the deletion of one ends early at a snapshot with neither a date nor a time in its id |
| ArchiveHistory.NewestSurvives | imixs-archive-service/src/main/java/org/imixs/archive/service/cassandra/DataService.java:672 | the snapshot just saved survives its own cleanup if and only if it is not the case that the history is one and it is the only snapshot |
| DataServices.DataService.SaveSnapshot | imixs-archive-service/src/main/java/org/imixs/archive/service/cassandra/DataService.java:110-162 | changes the six tables exactly as specified and reports invalid ids, missing dates, stored ids and aborted cleanups exactly when they occur |
| SaveOutcomes.UuidIsSaved | imixs-archive-service/src/main/java/org/imixs/archive/service/cassandra/DataService.java:110-155 | a dated snapshot without a history whose id is a UUID of the 8-4-4-4-12 form, a dash and a time, and which is not stored yet, is saved completely and is in the archive afterwards |
| DataServices.DataService.ExistSnapshot | imixs-archive-service/src/main/java/org/imixs/archive/service/cassandra/DataService.java:170-177 | is true exactly for ids in the main table |
| DataServices.DataService.ExtractDocuments | imixs-archive-service/src/main/java/org/imixs/archive/service/cassandra/DataService.java:718-767 | stores contents and references of all files and returns the document stripped of all bytes |
| DataServices.DataService.ExtractContent | imixs-archive-service/src/main/java/org/imixs/archive/service/cassandra/DataService.java:727-756 | stores a content unless its checksum has a row and adds the reference row |
| DataServices.DataService.StoreDocument | imixs-archive-service/src/main/java/org/imixs/archive/service/cassandra/DataService.java:868-891 | writes all chunks of a content under consecutive sort ids with new data ids |
| DataServices.DataService.LoadFileContent | imixs-archive-service/src/main/java/org/imixs/archive/service/cassandra/DataService.java:335-399 | returns the joined chunks of a checksum in the order of their sort ids, nothing for an empty checksum |
| DataServices.DataService.ReadRows | imixs-archive-service/src/main/java/org/imixs/archive/service/cassandra/DataService.java:345-385 | joins the data rows in the order of the directory |
| DataServices.DataService.InsertBlock | imixs-archive-service/src/main/java/org/imixs/archive/service/cassandra/DataService.java:875-887 | writes one data row and its directory row under a new data id |
| DataServices.DataService.LoadSnapshot | imixs-archive-service/src/main/java/org/imixs/archive/service/cassandra/DataService.java:205-233 | returns the stored document with the contents of its empty files merged in, whatever the merge flag |
| DataServices.DataService.MergeDocumentData | imixs-archive-service/src/main/java/org/imixs/archive/service/cassandra/DataService.java:902-917 | fills every file without content from its checksum and keeps all others |
| DataServices.DataService.LoadSnapshotsByUniqueID | imixs-archive-service/src/main/java/org/imixs/archive/service/cassandra/DataService.java:245-276 | returns ids of the workitem without repetition, all of them unless a positive maximum is smaller |
| DataServices.PageOrder | imixs-archive-service/src/main/java/org/imixs/archive/service/cassandra/DataService.java:245-276 | a limited query gives the least or the greatest ids of the workitem in the order asked for |
| DataServices.DataService.LoadSnapshotsByDate | imixs-archive-service/src/main/java/org/imixs/archive/service/cassandra/DataService.java:285-303 | returns exactly the ids indexed under a day, in order |
| DataServices.DataService.LoadMetadata | imixs-archive-service/src/main/java/org/imixs/archive/service/cassandra/DataService.java:414-418 | returns the metadata document |
| DataServices.DataService.SaveMetadata | imixs-archive-service/src/main/java/org/imixs/archive/service/cassandra/DataService.java:429-433 | replaces the metadata document and nothing else |
| DataServices.DataService.DeleteSnapshot | imixs-archive-service/src/main/java/org/imixs/archive/service/cassandra/DataService.java:443-481 | removes the rows of a snapshot from the tables exactly as specified; stops before the by-modified index if no time can be found |
| DataServices.DataService.DeleteDocuments | imixs-archive-service/src/main/java/org/imixs/archive/service/cassandra/DataService.java:776-855 | walks over the files of a deleted snapshot and ends at the first content that is still referred to |
| DataServices.DataService.DeleteRows | imixs-archive-service/src/main/java/org/imixs/archive/service/cassandra/DataService.java:822-847 | removes all directory and data rows of one document |
| DataServices.DataService.CleanupHistory | imixs-archive-service/src/main/java/org/imixs/archive/service/cassandra/DataService.java:638-706 | deletes the selected old snapshots one by one until an exception ends the walk |
| DataServices.DataService.SelectVictims | imixs-archive-service/src/main/java/org/imixs/archive/service/cassandra/DataService.java:640-706 | the two limited queries select the specified victims |
| Splitter.ChunkIterator.NextChunk | imixs-archive-service/src/main/java/org/imixs/archive/service/cassandra/DocumentSplitter.java:40-55 | the next chunk and the cursor after it, with the 32-bit wrap of the comparison |
| Splitter.ChunkIterator.HasNext | imixs-archive-service/src/main/java/org/imixs/archive/service/cassandra/DocumentSplitter.java:36-38 | there is a next chunk exactly while the cursor is before the end |
| Splitter.SplitAll | imixs-archive-service/src/main/java/org/imixs/archive/service/cassandra/DocumentSplitter.java:36-55 | the chunks are complete if and only if the data has at most 2^31 - 2^20 bytes |
| Splitter.JoinChunks | imixs-archive-service/src/main/java/org/imixs/archive/service/cassandra/DocumentSplitter.java:40-55 | joining the chunks of any byte array gives the array |
| Splitter.ChunkCountIsCeiling | imixs-archive-service/src/main/java/org/imixs/archive/service/cassandra/DocumentSplitter.java:46-53 | the number of chunks is the length divided by 1048576, rounded up |
| Splitter.Chunks | imixs-archive-service/src/main/java/org/imixs/archive/service/cassandra/DocumentSplitter.java:46-53 | as many chunks as the length divided by 1048576, rounded up |
| Splitter.Chunk | imixs-archive-service/src/main/java/org/imixs/archive/service/cassandra/DocumentSplitter.java:46-53 | a chunk is not empty and has at most 1048576 bytes; only the last may have fewer |
| Ids.IdRoundTrip | imixs-archive-service/src/main/java/org/imixs/archive/service/cassandra/DataService.java:564-585 | taking a snapshot id apart recovers the workitem id and the time it was built from; a time beyond a long is no time |
| Ids.SnapshotIdsHaveOrigins | imixs-archive-service/src/main/java/org/imixs/archive/service/cassandra/DataService.java:544-570 | every id the archive accepts has an origin part |
| Ids.AcceptedIds | imixs-archive-service/src/main/java/org/imixs/archive/service/cassandra/DataService.java:51-52 | an id is accepted if and only if it is eight or eleven of the characters 0 to 9 and a to f, a dash, and any text without a line terminator |
| Ids.IdOrder | imixs-archive-api/src/main/java/org/imixs/archive/core/SnapshotService.java:268 | for thirteen-digit times the text order of a workitem's snapshot ids is the order of their times |
| Ids.RangeStaysInWorkitem | imixs-archive-api/src/main/java/org/imixs/archive/core/SnapshotService.java:518-520 | a range query on ids selects no snapshot of another workitem whose id has the same length |
| Ids.RangeIsTimeRange | imixs-archive-api/src/main/java/org/imixs/archive/core/SnapshotService.java:518-520 | for thirteen-digit times a range query selects exactly the workitem's snapshots in the time range, with an upper end that belongs to it or not |
| VersionNames.VersionNameInjective | imixs-archive-api/src/main/java/org/imixs/archive/core/SnapshotService.java:639-661 | versions of different files, or of one file with different stamps, never share a name, for all names with or without extension or leading dot |
| VersionNames.VersionNameShape | imixs-archive-api/src/main/java/org/imixs/archive/core/SnapshotService.java:639-661 | the stamp stands in front of the last dot, or at the end of a name without a dot or with a leading one only |
| SnapshotRuns.CopyClosedForm | imixs-archive-api/src/main/java/org/imixs/archive/core/SnapshotService.java:563-671 | if no version name is in use, the in-place copying equals a closed form: every file keeps its place and gets its bytes, and one version file per protected content is appended to both documents |
| VersionClashes.FilesAgreeExactly | imixs-archive-api/src/main/java/org/imixs/archive/core/SnapshotService.java:563-671 | for any copying: the origin and the new snapshot have the same files, up to the bytes, if and only if no version takes the name of a file that is filled after it, unless a later version takes it again or the entries are alike |
| VersionClashes.TakenNameDiffers | imixs-archive-api/src/main/java/org/imixs/archive/core/SnapshotService.java:632-661 | a version that takes the name of another listed file leaves different entries in the two documents |
| VersionClashes.TakenNameLosesContent | imixs-archive-api/src/main/java/org/imixs/archive/core/SnapshotService.java:608-656 | and the previous content of the uploaded file is then in the new snapshot no more, unless one of the two files holds the same bytes |
| SnapshotSafety.SaveHasNoClash | imixs-archive-api/src/main/java/org/imixs/archive/core/SnapshotService.java:632-661 | under the invariant, for uploads with whatever attributes whose dates differ from the stamps of the file's versions, a save gives no version file a name that is in use |
| SnapshotSafety.SaveKeepsInv | imixs-archive-api/src/main/java/org/imixs/archive/core/SnapshotService.java:206-375 | every such save of additions, removals, uploads and changed attributes re-establishes the invariant on checksums, dates and version stamps |
| SnapshotSafety.SaveKeepsReadable | imixs-archive-api/src/main/java/org/imixs/archive/core/SnapshotService.java:563-671 | with overwriting off, what could be read before such a save under a name or one of its version names can be read after it, unless a file is removed or a single byte replaces it unnoticed |
| SnapshotSafety.SaveKeepsLatest | imixs-archive-api/src/main/java/org/imixs/archive/core/SnapshotService.java:572-593 | after a save a file has the bytes uploaded with it, else those it had |
| SnapshotSafety.CreatorIsKept | imixs-archive-api/src/main/java/org/imixs/archive/core/SnapshotService.java:685-728 | an upload of other bytes keeps creator and creation date and records editor and date of the change; the same bytes renew the creator |
| WorkitemRuns.RoundEffect | imixs-archive-api/src/main/java/org/imixs/archive/core/SnapshotService.java:293-356 | one save of a run leaves the origin without bytes, referring to a stored snapshot that holds the copied files |
| WorkitemRuns.NothingIsLost | imixs-archive-api/src/main/java/org/imixs/archive/core/SnapshotService.java:206-375 | over any run of edits and saves with overwriting off in which the dates of the contents of one name differ and no upload uses a version name, every content of more than one byte ever uploaded under a name is still readable from the current snapshot, under that name or a time-stamped version name, until a later round removes a file or replaces one by a single byte unnoticed |
| ClockedRuns.ClockedRunIsGood | imixs-archive-api/src/main/java/org/imixs/archive/core/SnapshotService.java:206-375 | runs whose event dates and version dates come from an increasing clock are such runs |
| ClockedRuns.UploadsAreDated | imixs-archive-api/src/main/java/org/imixs/archive/core/SnapshotService.java:697-720 | an upload is dated by the clock if it comes without checksum and dates, with those it has in the snapshot, with the checksum of other bytes, or without a date of modification |
| WorkitemRuns.ContentChain | imixs-archive-api/src/main/java/org/imixs/archive/core/SnapshotService.java:293-356 | after every save of any run, whatever labels and dates files come with and whatever is removed, overwritten or pruned, the origin carries no bytes, its reference names a stored snapshot, and that snapshot holds the most recently uploaded bytes of every attached name that is no version name |
| WorkitemRuns.OverwriteKeepsExactly | imixs-archive-api/src/main/java/org/imixs/archive/core/SnapshotService.java:608-656 | with overwriting off a save keeps the previous bytes of a file if and only if the edit brings no bytes, the same bytes, or a different checksum attribute |
| WorkitemRuns.OneByteUploadLosesContent | imixs-archive-api/src/main/java/org/imixs/archive/core/SnapshotService.java:696 | a single byte uploaded with the old attributes overwrites a longer content without a version |
| WorkitemRuns.LocalHistory | imixs-archive-api/src/main/java/org/imixs/archive/core/SnapshotService.java:509-545 | if no removal is denied the new snapshot and the newest h - 1 others of the text range remain, only the oldest of the range go, nothing else changes |
| WorkitemRuns.NoHistoryKeepsAll | imixs-archive-api/src/main/java/org/imixs/archive/core/SnapshotService.java:508-511 | with a history of zero a save removes nothing |
| WorkitemRuns.DeniedStays | imixs-archive-api/src/main/java/org/imixs/archive/core/SnapshotService.java:528-545 | a snapshot whose removal is denied stays, and the others go as if no removal was denied |
| WorkitemRuns.OlderIsEarlier | imixs-archive-api/src/main/java/org/imixs/archive/core/SnapshotService.java:518-520 | for thirteen-digit times and ids of equal length that range holds exactly the earlier snapshots of the same workitem |
| WorkitemRuns.SavedDocuments | imixs-archive-api/src/main/java/org/imixs/archive/core/SnapshotService.java:263-353 | a save that takes a snapshot leaves both the origin and the snapshot in the store, whatever the history removes |
| SnapshotServices.SnapshotService.OnSave | imixs-archive-api/src/main/java/org/imixs/archive/core/SnapshotService.java:206-375 | skips snapshots, models and flagged documents, uses up the skip flag, rejects old blob documents, and otherwise takes a snapshot exactly as specified |
| SaveFacts.SaveCases | imixs-archive-api/src/main/java/org/imixs/archive/core/SnapshotService.java:213-262 | snapshots, models and documents with the no-snapshot flag are stored as they are, the skip flag is used up, an old blob document is rejected unless allowed, and every other document gets a snapshot under its id and the time |
| SaveFacts.SavedItemsAre | imixs-archive-api/src/main/java/org/imixs/archive/core/SnapshotService.java:251-347 | the snapshot has all items of the document but id, type and two flags, the origin all but its reference and the list of files to overwrite |
| BackupProtocol.SaveWritesEvent | imixs-archive-api/src/main/java/org/imixs/archive/core/SnapshotService.java:358-374 | a save writes exactly one event for the new snapshot: the archive's if there is an archive, else that of a backup service without a mirror id if there is one, and none with neither |
| SnapshotServices.SnapshotService.CreateSnapshot | imixs-archive-api/src/main/java/org/imixs/archive/core/SnapshotService.java:242-375 | stores the new snapshot, prunes the history, writes the archive or backup event, and returns the stripped origin |
| SnapshotServices.SnapshotService.MakeDocuments | imixs-archive-api/src/main/java/org/imixs/archive/core/SnapshotService.java:251-347 | computes the new snapshot and the origin without content that refers to it |
| SnapshotServices.SnapshotService.UpdateCustomAttributes | imixs-archive-api/src/main/java/org/imixs/archive/core/SnapshotService.java:685-728 | labels every file that came with more than one byte and no other |
| SaveFacts.SavedLabels | imixs-archive-api/src/main/java/org/imixs/archive/core/SnapshotService.java:685-728 | in the new snapshot an upload of more than one byte has its checksum, size and name, and creator or editor with the date of the last event or of the clock; all other attributes and the content type are those of the document's file |
| SnapshotServices.SnapshotService.CopyFilesFromItemCollection | imixs-archive-api/src/main/java/org/imixs/archive/core/SnapshotService.java:563-671 | copies missing contents, keeps overwritten ones under version names in both documents, and clears the overwrite list |
| SaveFacts.EarlierContentIsKept | imixs-archive-api/src/main/java/org/imixs/archive/core/SnapshotService.java:608-661 | with overwriting off and no version name in use, an upload with another checksum leaves the earlier content with its type and attributes under the name stamped with that content's date of modification, or else of creation |
| SaveFacts.OverwritingMakesNoVersion | imixs-archive-api/src/main/java/org/imixs/archive/core/SnapshotService.java:608-615 | if overwriting is on, or all uploaded files are listed for it, a save makes no version file |
| SnapshotServices.SnapshotService.DropContents | imixs-archive-api/src/main/java/org/imixs/archive/core/SnapshotService.java:325-340 | empties every file and changes nothing else |
| SnapshotServices.SnapshotService.CleanSnapshotHistory | imixs-archive-api/src/main/java/org/imixs/archive/core/SnapshotService.java:499-546 | removes the oldest snapshots while too many are left and skips denied ones |
| SnapshotServices.SnapshotService.FindAllSnapshots | imixs-archive-api/src/main/java/org/imixs/archive/core/SnapshotService.java:424-431 | returns ids of the workitem's range, all of them or the newest 999, or fails for an empty id |
| SnapshotServices.SnapshotService.OnDelete | imixs-archive-api/src/main/java/org/imixs/archive/core/SnapshotService.java:380-413 | removes the found snapshots of a deleted document |
| SnapshotServices.DeletionIsLimited | imixs-archive-api/src/main/java/org/imixs/archive/core/SnapshotService.java:424-431 | a deletion removes the newest 999 ids of the text range of a workitem and nothing else; the surplus of older ones stays behind |
| SnapshotServices.RangeIsWorkitem | imixs-archive-api/src/main/java/org/imixs/archive/core/SnapshotService.java:428-429 | for thirteen-digit times and ids of equal length the delete range holds exactly the workitem's snapshots, but for one of the last of these milliseconds |
| SnapshotServices.SnapshotService.PostSnapshot | imixs-archive-api/src/main/java/org/imixs/archive/core/api/SnapshotRestService.java:276-334 | stores a posted snapshot if it is missing and rebuilds and saves its origin |
| SnapshotServices.SnapshotService.RebuildOrigin | imixs-archive-api/src/main/java/org/imixs/archive/core/api/SnapshotRestService.java:291-334 | rebuilds the origin document from a snapshot and writes the archive event |
| SnapshotRestore.RestoreUndoesSave | imixs-archive-api/src/main/java/org/imixs/archive/core/api/SnapshotRestService.java:287-334 | posting the snapshot of any save to any later state gives the origin the items the save left it, up to flags and overwrite list, adds the snapshot if missing, changes no other document and takes no further snapshot; the files too are as the save left them if and only if no version took the name of a file filled after it |
| SnapshotRestore.RestoredReads | imixs-archive-api/src/main/java/org/imixs/archive/core/api/SnapshotRestService.java:287-334 | after the restore of any saved snapshot the document reads the files of that snapshot, and its next save takes a snapshot again |
| SnapshotRestore.RestoreRebuildsOrigin | imixs-archive-api/src/main/java/org/imixs/archive/core/api/SnapshotRestService.java:287-334 | posting the snapshot of any round of a run rebuilds the origin with its files as that save left it |
| SnapshotRestore.RestoreResumesRun | imixs-archive-api/src/main/java/org/imixs/archive/core/api/SnapshotRestService.java:287-334 | after the restore of a round of a run the invariant holds for the files the document refers to, so the run can go on |
| SnapshotRestore.PostingMovesReference | imixs-archive-api/src/main/java/org/imixs/archive/core/api/SnapshotRestService.java:287-334 | posting any snapshot of an ordinary document makes it the one its origin refers to and changes no other reference |
| Compactors.CompactorJob.ProcessSnapshotBatch | imixs-archive-api/src/main/java/org/imixs/archive/core/SnapshotCompactorJob.java:110-147 | removes the snapshots of a batch that the archive returns and whose removal is not denied, counts them, and saves the document taken for the origin of each that the archive does not have |
| Compactors.CompactorJob.ProcessSnapshotBatchWithFinding | imixs-archive-api/src/main/java/org/imixs/archive/core/SnapshotCompactorJob.java:79-105 | refuses a grace period below a year and otherwise processes the found batch |
| Compactors.CompactAllRemoves | imixs-archive-api/src/main/java/org/imixs/archive/core/SnapshotCompactorJob.java:110-147 | a run changes nothing but the removed snapshots unless a document has as its id the time stamp of a snapshot that the archive does not have |
| Compactors.RemovedExactly | imixs-archive-api/src/main/java/org/imixs/archive/core/SnapshotCompactorJob.java:118-142 | a snapshot of the batch is removed if and only if deletion is on, the archive answers with a document and the removal is not denied |
| Compactors.CountIsExact | imixs-archive-api/src/main/java/org/imixs/archive/core/SnapshotCompactorJob.java:110-147 | the count of a run is the number of documents it removes |
| Compactors.OnlyOldAreRemoved | imixs-archive-api/src/main/java/org/imixs/archive/core/SnapshotCompactorJob.java:160-168 | what a run removes is a snapshot of an archived or deleted workitem modified before the given date |
| Compactors.MissingIsRefreshed | imixs-archive-api/src/main/java/org/imixs/archive/core/SnapshotCompactorJob.java:128-137 | if the archive does not have a snapshot, the document whose id is the time of its id, if there is one, gets a new snapshot |
| Compactors.TimeIsTakenForOrigin | imixs-archive-api/src/main/java/org/imixs/archive/core/SnapshotCompactorJob.java:131 | the part of a snapshot id that is taken for the id of the origin is the time |
| Compactors.CompactionOverArchive | imixs-archive-api/src/main/java/org/imixs/archive/core/SnapshotService.java:442-463 | against the archive tables a run is invisible if and only if every removed snapshot is archived and loads back as stored locally |
| Compactors.ArchivedCompaction | imixs-archive-api/src/main/java/org/imixs/archive/core/SnapshotCompactorJob.java:110-147 | if every removed snapshot was archived as stored locally, a run is invisible if and only if the checksum attributes of all their files lead to their contents |
| Compactors.UnarchivedIsLost | imixs-archive-service/src/main/java/org/imixs/archive/service/api/ArchiveRestService.java:91-113 | a snapshot that was never archived is removed too, and is found as an empty document from then on |
| Compactors.ServiceSnapshotsLoadBack | imixs-archive-api/src/main/java/org/imixs/archive/core/SnapshotService.java:696 | an archived snapshot with files made by the snapshot service loads back unchanged if and only if each of its contents carries a checksum, and a single byte that of its own |
| Lifecycle.LookupAnswers | imixs-archive-api/src/main/java/org/imixs/archive/core/SnapshotService.java:442-463 | over any run of saves, other changes of documents, pulls into the archive, compactions and deletions in the archive, a workitem finds exactly the snapshot that a save made if and only if the instance still has it, or the archive holds it and its checksum attributes lead to its contents |
| Lifecycle.SavedIsFound | imixs-archive-api/src/main/java/org/imixs/archive/core/SnapshotService.java:293-356 | in particular the snapshot of a given save, whatever run follows it |
| Lifecycle.CompactRemoves | imixs-archive-api/src/main/java/org/imixs/archive/core/SnapshotCompactorJob.java:118-127 | a compaction leaves of its batch what is denied or what the archive does not return |
| RestoreSchedulers.RestoreScheduler.Start | imixs-archive-service/src/main/java/org/imixs/archive/service/restore/RestoreScheduler.java:168-180 | stores range, point and count of a new restore; the error count of an earlier one stays |
| RestoreSchedulers.RestoreScheduler.OnTimeout | imixs-archive-service/src/main/java/org/imixs/archive/service/restore/RestoreScheduler.java:258-349 | restores and counts exactly as the day-by-day walk over the range in the metadata defines, records point and counters, and changes no other table row |
| RestoreSchedulers.RestoreScheduler.Restore | imixs-archive-service/src/main/java/org/imixs/archive/service/restore/RestoreScheduler.java:146-349 | a restore started for a range whose attempts all succeed leaves every workitem with a snapshot on a day walked from the start towards the end, and a matching latest snapshot in the range, at that snapshot, changes no other, and counts those that changed |
| RestoreSchedulers.RestoreScheduler.RestoreLatest | imixs-archive-service/src/main/java/org/imixs/archive/service/restore/RestoreScheduler.java:293-325 | handles one found snapshot: the workitem's latest snapshot is restored unless it does not match or is current |
| RestoreSchedulers.RestoreScheduler.RestoreDay | imixs-archive-service/src/main/java/org/imixs/archive/service/restore/RestoreScheduler.java:285-331 | handles all snapshots indexed under one day in order |
| RestoreSchedulers.RestoreScheduler.FindLatestSnapshotID | imixs-archive-service/src/main/java/org/imixs/archive/service/restore/RestoreScheduler.java:380-411 | returns the greatest id of the workitem in the text range |
| RestoreSchedulers.RestoreScheduler.MatchFilterOptions | imixs-archive-service/src/main/java/org/imixs/archive/service/restore/RestoreScheduler.java:427-455 | is true exactly if every value of every filtered item matches; an item without values always does |
| RestoreSchedulers.RestoreCompletes | imixs-archive-service/src/main/java/org/imixs/archive/service/restore/RestoreScheduler.java:258-349 | if all attempts succeed every workitem with a snapshot on a scanned day and a matching latest snapshot ends at it, each is restored at most once, no other is touched, and the count rises by the number that were out of date |
| RestoreSchedulers.FailuresAreCounted | imixs-archive-service/src/main/java/org/imixs/archive/service/restore/RestoreScheduler.java:307-324 | whatever attempts fail, a workitem is at its goal or as before, is restored at most once, and every attempt is counted as restored or as an error |
| RestoreSchedulers.RunIsConsistent | imixs-archive-service/src/main/java/org/imixs/archive/service/cassandra/DataService.java:129-153 | in every archive that saves, deletions and metadata updates lead to, the index rows that a restore follows lead to stored snapshots under their own ids |
| RestoreSchedulers.ScannedAre | imixs-archive-service/src/main/java/org/imixs/archive/service/restore/RestoreScheduler.java:284-331 | a workitem is considered exactly if one of its snapshots is indexed under a scanned day |
| RestoreSchedulers.LastDayIsScanned | imixs-archive-service/src/main/java/org/imixs/archive/service/restore/RestoreScheduler.java:284-331 | all days before the last are scanned, the last one if and only if the range ends later in the day than it begins |
| RestoreSchedulers.FinalPointIs | imixs-archive-service/src/main/java/org/imixs/archive/service/restore/RestoreScheduler.java:284-333 | the recorded point ends whole days after the start, at the end of the range or less than a day beyond |
| RestoreSchedulers.LatestIsNewest | imixs-archive-service/src/main/java/org/imixs/archive/service/restore/RestoreScheduler.java:390-394 | with thirteen-digit times the latest snapshot is the one with the greatest time in the range |
| RestoreSchedulers.AdmittedTimes | imixs-archive-service/src/main/java/org/imixs/archive/service/restore/RestoreScheduler.java:390-394 | for bounds and creation times of any width, the text comparison admits a snapshot if and only if start and end do after padding the shorter of two numbers with zeros, the shorter one being the smaller if they then agree |
| RestoreSchedulers.ShortEndAdmitsLater | imixs-archive-service/src/main/java/org/imixs/archive/service/restore/RestoreScheduler.java:391 | an end of twelve nines admits snapshots that are newer than it |
| RestoreSchedulers.EarlyStartFindsNothing | imixs-archive-service/src/main/java/org/imixs/archive/service/restore/RestoreScheduler.java:390 | a start of twelve nines excludes snapshots that are newer than it |
| Resyncs.NextBatchIsNextTime | imixs-archive-api/src/main/java/org/imixs/archive/core/api/SnapshotRestService.java:213-263 | a batch is exactly the snapshots with the next time stamp, refused if there are more than sixteen |
| Resyncs.NextTimeIsLeast | imixs-archive-api/src/main/java/org/imixs/archive/core/api/SnapshotRestService.java:218-243 | the next time stamp is the least beyond the point, and reading it leaves fewer snapshots |
| Resyncs.RunOnlySnapshots | imixs-archive-service/src/main/java/org/imixs/archive/service/cassandra/DataService.java:110-121 | every archive that saves, deletions and metadata updates lead to holds snapshots only |
| Resyncs.ResyncService.OnTimeout | imixs-archive-service/src/main/java/org/imixs/archive/service/resync/ResyncService.java:210-330 | runs exactly as specified from the stored point, or from now if that lies in the future |
| Resyncs.ResyncService.SyncBatch | imixs-archive-service/src/main/java/org/imixs/archive/service/resync/ResyncService.java:252-302 | reads a batch until it ends, an id is invalid or the run is cancelled |
| Resyncs.ResyncService.SyncSnapshot | imixs-archive-service/src/main/java/org/imixs/archive/service/resync/ResyncService.java:252-297 | archives a snapshot unless it is stored already, counts a complete save, and stores the progress |
| Resyncs.ResyncCompletes | imixs-archive-service/src/main/java/org/imixs/archive/service/resync/ResyncService.java:243-324 | a run that is not cancelled ends; it finishes if and only if no time stamp beyond the point has more than sixteen snapshots and all ids are snapshot ids; then everything beyond the point has been saved in the order of the time stamps, each with its own history, and the count rises by the number newly stored |
| Resyncs.BatchesAre | imixs-archive-service/src/main/java/org/imixs/archive/service/resync/ResyncService.java:230-250 | a complete run reads every document with a modification date beyond the point once, in the order of these dates |
| Resyncs.SyncedWithoutHistory | imixs-archive-service/src/main/java/org/imixs/archive/service/resync/ResyncService.java:243-324 | without history settings everything beyond the point is then archived and archived snapshots are unchanged |
| Resyncs.ResyncedLoads | imixs-archive-service/src/main/java/org/imixs/archive/service/resync/ResyncService.java:263-275 | a snapshot read by a resync loads back as it is in the workflow instance if and only if no history cleanup removed it and the checksum attributes of its files lead to their contents |
| Resyncs.ResumeAfterCancel | imixs-archive-service/src/main/java/org/imixs/archive/service/resync/ResyncService.java:290-301 | a cancelled and resumed run misses exactly the rest of the time stamp it reached; nothing if and only if that was read completely |
| Resyncs.CancelIsSticky | imixs-archive-service/src/main/java/org/imixs/archive/service/resync/ResyncService.java:147-151 | the cancelled status is never taken back: every later run ends after at most one snapshot |
| SyncServices.SyncService.ProcessEventLog | imixs-archive-service/src/main/java/org/imixs/archive/service/SyncService.java:91-167 | processes the found events as specified, with the snapshot variable kept from event to event |
| SyncServices.SyncService.ProcessEvent | imixs-archive-service/src/main/java/org/imixs/archive/service/SyncService.java:110-158 | one event: pull and archive, remove the entry, write backup events |
| SyncServices.SyncService.PullSnapshot | imixs-archive-service/src/main/java/org/imixs/archive/service/SyncService.java:200-242 | archives the document of an event, or removes the entry if it cannot be loaded |
| SyncServices.SyncService.CreateBackupEvents | imixs-archive-service/src/main/java/org/imixs/archive/service/SyncService.java:134-146 | writes the main backup event and one for each mirror |
| SyncServices.MirrorsAreServed | imixs-archive-service/src/main/java/org/imixs/archive/service/SyncService.java:130-146 | with a backup service there are the main event and one for each piece of the comma-separated list that has a visible character, in their order, its topic ending in the piece without the spaces around it; without one there is none |
| SaveOutcomes.PullFailsExactly | imixs-archive-service/src/main/java/org/imixs/archive/service/cassandra/DataService.java:110-155 | a pull fails if and only if the id is no snapshot id, there is no modification item, or a snapshot not stored yet has no modification date or a cleanup that ends early |
| SyncServices.BatchFansOut | imixs-archive-service/src/main/java/org/imixs/archive/service/SyncService.java:110-149 | for documents with any history, a batch of add events is replaced in the log by one main event and one per mirror for each unmarked snapshot whose pull does not fail, and the archive then holds exactly what the saves leave of each other |
| SyncServices.HeldExactly | imixs-archive-service/src/main/java/org/imixs/archive/service/SyncService.java:110-128 | the snapshot of an event is in the archive after its batch if and only if its own save leaves it and no later save of the batch removes it |
| SyncServices.PrunedIsFannedOut | imixs-archive-service/src/main/java/org/imixs/archive/service/SyncService.java:128-146 | a first snapshot with a history of one leads to backup events although the archive does not hold it |
| SyncServices.EmittedAreWanted | imixs-archive-service/src/main/java/org/imixs/archive/service/SyncService.java:131-149 | a batch leads to exactly the wanted backup events if and only if no removal event follows the pull of an unmarked snapshot |
| SyncServices.RemovalIsFannedOut | imixs-archive-service/src/main/java/org/imixs/archive/service/SyncService.java:124-135 | a removal event after an unmarked snapshot is answered with backup events |
| SyncServices.SplitIsExact | imixs-archive-service/src/main/java/org/imixs/archive/service/SyncService.java:139-142 | the pieces of the mirror list put together again are the list |
| SyncServices.MirrorIdsAreTrimmed | imixs-archive-service/src/main/java/org/imixs/archive/service/SyncService.java:139-142 | a mirror id is not empty and neither begins nor ends with a space |
| BackupLoop.RestoredIsNotBackedUp | imixs-archive-backup/src/main/java/org/imixs/archive/backup/RestoreService.java:316-329 | when the add event of a snapshot newly imported with the restore marker is processed its entry is removed and no other is written, and its origin does not carry the marker |
| BackupLoop.RestoreService.Import | imixs-archive-backup/src/main/java/org/imixs/archive/backup/RestoreService.java:208-233 | reads the files of a backup space until they end or the run is cancelled, marking and posting exactly those snapshots the instance does not have |
| BackupLoop.ImportRecovers | imixs-archive-backup/src/main/java/org/imixs/archive/backup/RestoreService.java:208-329 | importing a backup space recovers the workitem of every file whose snapshot the instance did not have: its document refers to the snapshot and reads the backed-up files, and processing the event of the import writes no backup event; other workitems stay as they are |
| BackupLoop.SavedSnapshotReachesArchive | imixs-archive-api/src/main/java/org/imixs/archive/core/SnapshotService.java:358-363 | the event a save writes leads the archive to the snapshot that the save made: once processed, the archive returns it with all contents if and only if its own history cleanup leaves it and its checksum attributes lead to the contents; the log has the event replaced by the backup events, by none if the document carried the restore marker or the archive's save fails |
| BackupLoop.EventArchives | imixs-archive-service/src/main/java/org/imixs/archive/service/SyncService.java:116-128 | processing the add event of a document archives it; it loads back unchanged if and only if its own history cleanup leaves it and its checksum attributes lead to the contents; the log has the event replaced by the backup events unless the document is marked or its save fails |
| BackupLoop.LaterSaveIsBackedUp | imixs-archive-service/src/main/java/org/imixs/archive/service/SyncService.java:131-149 | processing the event of a later save of a document without the marker replaces it in the log by one main event and one per mirror unless the pull fails |
| BackupProtocol.NoEventIsLost | imixs-archive-backup/src/main/java/org/imixs/archive/backup/BackupService.java:230-292 | over any interleaving of workers, failures, crashes and releases of dead locks, a written event is in the log unless a file for its snapshot's origin is in the backup space of its topic or its snapshot was reported missing |
| BackupProtocol.EventsAreBackedUp | imixs-archive-backup/src/main/java/org/imixs/archive/backup/util/FTPConnector.java:98-144 | then that space holds a snapshot of the same origin as the one the event refers to |
| BackupProtocol.OtherOriginsStay | imixs-archive-backup/src/main/java/org/imixs/archive/backup/util/FTPConnector.java:102-144 | no step changes a file but one that stores a snapshot of the same origin in its place |
| BackupProtocol.OnlyOwnEventsAreConsumed | imixs-archive-backup/src/main/java/org/imixs/archive/backup/BackupService.java:230-292 | an event is only ever removed by a worker of its own topic, and only once it is settled |
| BackupProtocol.StepKeepsInv | imixs-archive-backup/src/main/java/org/imixs/archive/backup/util/FTPConnector.java:95-160 | every step of every worker keeps the invariant of log, workers, backup spaces and reports |
| BackupProtocol.NoOverwriteKeepsFiles | imixs-archive-backup/src/main/java/org/imixs/archive/backup/util/FTPConnector.java:133-138 | if all events forbid overwriting, as those of a full backup do, no file of any backup space ever changes |
| BackupProtocol.StoredIsPulled | imixs-archive-backup/src/main/java/org/imixs/archive/backup/util/FTPConnector.java:98-144 | an event that allows overwriting is stored with the snapshot it refers to, in the folder of its creation date and under the name of its origin |
| BackupProtocol.TimelyRunsExclude | imixs-archive-backup/src/main/java/org/imixs/archive/backup/BackupService.java:353-360 | if dead locks are released only when no worker is late, no event is processed by two workers at a time |
| BackupProtocol.DeadLocksAreFreed | imixs-archive-backup/src/main/java/org/imixs/archive/backup/BackupService.java:353-360 | a release frees exactly the events of its topic locked for longer than the interval, and idle workers of the topic can acquire them |
| BackupProtocol.AcquiredIsHeld | imixs-archive-backup/src/main/java/org/imixs/archive/backup/BackupService.java:262-264 | an acquired event is freed by a release only after the whole interval |
| BackupProtocol.PullsCurrent | imixs-archive-backup/src/main/java/org/imixs/archive/backup/BackupService.java:384-425 | a worker pulls what the instance has at that moment, or finds it missing |
| BackupProtocol.WrittenEventIsAcquired | imixs-archive-backup/src/main/java/org/imixs/archive/backup/BackupService.java:230-262 | an event written for the backup service without a mirror id can be acquired by every idle worker without one |
| BackupProtocol.TopicsSeparateMirrors | imixs-archive-backup/src/main/java/org/imixs/archive/backup/BackupService.java:367-374 | two backup services read the same topic if and only if they have the same mirror id or both none |
| BackupProtocol.MirrorIsServed | imixs-archive-backup/src/main/java/org/imixs/archive/backup/BackupService.java:367-374 | a backup service is sent events if and only if its mirror id is blank or is a piece of the comma-separated list without the spaces around it |
| BackupProtocol.BackupService.OnTimeout | imixs-archive-backup/src/main/java/org/imixs/archive/backup/BackupService.java:206-326 | a timeout is a run of the protocol; of the found events exactly those without an error of their own are removed, no others, and both counters are exact |
| BackupProtocol.BackupService.ProcessEvent | imixs-archive-backup/src/main/java/org/imixs/archive/backup/BackupService.java:262-288 | one event succeeds, errs or is found missing exactly as locks, faults, the instance and the creation date say; it stays only after an error |
| BackupProtocol.BackupService.ProcessFound | imixs-archive-backup/src/main/java/org/imixs/archive/backup/BackupService.java:241-302 | every found event is processed whatever happened to those before it, with exact counters |
| BackupProtocol.BackupService.ProcessLocked | imixs-archive-backup/src/main/java/org/imixs/archive/backup/BackupService.java:384-433 | a locked event stays in the log exactly after an error |
| FullBackups.FullBackupService.OnTimeout | imixs-archive-backup/src/main/java/org/imixs/archive/backup/FullBackupService.java:135-235 | one timeout: requests a page and moves the sync point, or stops |
| FullBackups.FullBackupService.CreateRequests | imixs-archive-backup/src/main/java/org/imixs/archive/backup/FullBackupService.java:202-214 | requests a backup for every document of the page with a snapshot and returns the last creation date |
| FullBackups.RunCovers | imixs-archive-backup/src/main/java/org/imixs/archive/backup/FullBackupService.java:142-215 | if no two documents were created on the same whole second, everything created before the sync point, and a document created at it, has been requested at each step |
| FullBackups.MissedTwin | imixs-archive-backup/src/main/java/org/imixs/archive/backup/FullBackupService.java:142-215 | of two documents created on the same whole second the one that a page ends before is never requested |
| FullBackups.StopsExactly | imixs-archive-backup/src/main/java/org/imixs/archive/backup/FullBackupService.java:142-215 | the backup stops if and only if no second has a hundred documents created strictly within it and at most one was created strictly within the second of the newest; otherwise it repeats a page for ever |
| FullBackups.CompleteBackup | imixs-archive-backup/src/main/java/org/imixs/archive/backup/FullBackupService.java:142-215 | with at least two documents, no two on the same whole second, and none created alone after a whole second at which another one was created, it stops with everything requested under exactly those conditions |
| FullBackups.StoppedMisses | imixs-archive-backup/src/main/java/org/imixs/archive/backup/FullBackupService.java:194-198 | without two documents on the same whole second and for distinct snapshots, a stopped backup has requested everything if and only if the sync point has reached the newest document or that one has no snapshot |
| FullBackups.OnlyNewestMissed | imixs-archive-backup/src/main/java/org/imixs/archive/backup/FullBackupService.java:142-215 | without two documents on the same whole second no other document than the newest is ever missed by a stopped backup |
| FullBackups.WholeSecondsMiss | imixs-archive-backup/src/main/java/org/imixs/archive/backup/FullBackupService.java:142-215 | if all documents were created on different whole seconds, the backup stops, and the newest one is missed if and only if their number is one more than a multiple of a hundred |
| FullBackups.SingleDocumentIsMissed | imixs-archive-backup/src/main/java/org/imixs/archive/backup/FullBackupService.java:194-198 | a single document is never requested |

## Left out

- Crash recovery inside the chunk loops of the archive, and concurrent writers to one checksum: the code does not guarantee them.
- The checksum algorithm, XML conversion and its exceptions, the size of a document, and value coercions between item types.
- Time zones, daylight saving and the formatting of dates: times are milliseconds, days are UTC days, stamps and folders are parameters.
- Integer widths outside the splitter: history plus one, counters and times are unbounded; a negative local history is not modelled, and numbers in ids are ASCII digits.
- `ItemCollection` is a value, not an object: aliasing between a document and its files is not captured.
- The migration of old blob documents, the branch for documents with a source version (it loads the same id again), and the recognition of URLs as attachments, which only logs.
- An exception while one of the snapshots of a deleted workitem is removed.
- DataServices.DataService.SaveSnapshot: the notification after a save is left out, and files beyond the splitter's limit, on which the source fails half way, are excluded.
- WorkitemRuns.NothingIsLost: rounds after the upload that remove a file or replace one by a single byte with the old checksum; a removed file is gone from the next snapshot on by intent.
- SnapshotServices.SnapshotService.PostSnapshot: the check of the caller's role and the error responses are left out.
- Compactors.CompactorJob.ProcessSnapshotBatch: the answer of the archive does not change during a run.
- Compactors.UnarchivedIsLost: the client library that fetches the archive's answer is not part of this model; it is taken to pass on the one document of the answer.
- RestoreSchedulers.RestoreScheduler.OnTimeout: a restore is an update of the workitem's snapshot id in the instance; SnapshotRestore.PostingMovesReference shows that posting a snapshot does this. Byte counts are left out, filters and the regular expression matcher are parameters, and reading the snapshot id of a workitem from the instance fails only where there is none.
- Resyncs.ResyncService.SyncSnapshot: the documents of the instance have dates; failures of the connection are left out.
- SyncServices.SyncService.ProcessEventLog: locks are atomic and the batch runs without a crash; locking among several workers is modelled for the backup service only. Character classes for blanks are ASCII.
- BackupProtocol.BackupService.OnTimeout: the timer, connecting to the server and the logging are left out; directories of the backup space exist or are created; no one else removes files.
- FullBackups.FullBackupService.OnTimeout: documents of equal creation time are ordered by id, and the instance does not change during a full backup.
- BackupLoop.RestoreService.Import: the walk over year and month directories is left out; the files are given as one list, and a connection failure, which ends the import, is not modelled.
- The exporter module, a simpler variant of the event protocol; REST, FTP and database plumbing; timers; health checks, metrics, message logs; all user interfaces: they would only add easy members.
