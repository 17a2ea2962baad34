# A verified model of agentsync

agentsync mirrors a folder into an Automerge document and back, and lets devices exchange that
document after a signed handshake. This project models the logic that surrounds the CRDT library
and proves what the repository relies on. The document of one replica is a pair of plain maps with
tombstones and a history that gives the state at a set of heads; a content hash is collision-free
by construction; signatures are ideal. Where the code changes state in place, the model is a class
or a method with loops, proved against a function or a relation about which the laws are proved.

| part | modules |
|---|---|
| paths, segments | `Paths`, `Segments`, `Wrappers` |
| document operations, labels, restore | `DocumentState`, `Document`, `Heads`, `DocumentRuns`, `RenameDirectory`, `ReplicaRuns`, `DocumentRefinement` |
| heads at a time on the change graph | `ChangeGraph` |
| folder binding: ingest, materialize, echo suppression, event loop | `Engine`, `EngineLaws`, `EngineRuns`, `EngineRefinement`, `Suppression`, `Debouncer`, `FsEvents`, `Glob` |
| configuration file | `TomlText`, `TomlNumbers`, `TomlArrays`, `TomlKeys`, `TomlCodec`, `TomlRoundTrip`, `TomlLayout`, `TomlConfig`, `TomlFile` |
| Obsidian bridge and reconcile | `Bridge`, `Reconcile` |
| key files | `Base64`, `IdentityFile`, `RustText`, `SshWire`, `AuthorizedKeys`, `LegacyLines` |
| handshake | `Handshake`, `HandshakeRuns` |

## Where the code does less than its description

The members named here prove the exception, and most of them the exact condition under which the
wider claim holds.

- **Agreement of an accepting hub.** Hub and peer sign the same transcript. For every honest key
  other than the hub's own, an accepting hub has that peer behind it, whatever keys it authorizes
  (`HandshakeRuns.HubAgreement`). Its own key, which a vault's creator authorizes
  (`crates/agentsync-core/src/vault.rs:256-263`), can be accepted although no peer session has
  taken part (`HandshakeRuns.OwnKeyAccepted`). Per accepted key the exact condition is that it is
  not the hub's own (`HandshakeRuns.HubAgreementExactly`); over a set of authorized keys, that the
  own key is not among them (`HandshakeRuns.AuthorizedKeysDecide`). The peer's side has no exception.
- **Reconcile and remote deletions.** Planning treats a tombstone as a reason to delete in Obsidian,
  but `listFiles` shows live files only, so the reconcile never deletes: a file deleted in the
  document and still in Obsidian is pushed and lives again. A tombstone stays one exactly if the
  path is absent from Obsidian (`Reconcile.Sides.RunReconcile`, `Reconcile.DeletedFileComesBack`).
- **No loss and emptiness.** A text entry without a text object is read as empty and materialized
  as an empty file, so an empty disk content may be overwritten although nothing held it
  (`EngineRuns.NoLoss`). If every text entry has a text object, which every operation here keeps
  (`ReplicaRuns.StepKeepsTexts`), there is no exception (`EngineRuns.NoLossAtAll`). A run with
  the loss is in `EngineRefinement.EmptyContentUnheld`.
- **An edit that is taken in but not kept.** `write_attachment` leaves the entry's old text object.
  Text equal to it counts as already there, and the next pass puts the attachment back over the
  edit: `EngineLaws.TakenInSurvivesExactly`, with the three edits in `EngineLaws.StaleTextReverts`.
- **Renaming a directory.** The operation checks neither that the target is free nor that it lies
  outside the source. It keeps the document coherent exactly under `RenameSafe`
  (`RenameDirectory.RenameCoherentExactly`); into its own subtree it moves the root twice
  (`RenameDirectory.InwardRenameBreaks`).
- **Deleting a directory without recursion.** Only child files are looked at; the document stays
  coherent exactly if no live directory lies below (`DocumentRuns.PlainDeletionCoherentExactly`).
- **Restoring.** An attachment entry that had no hash in the past keeps the hash it has now, so the
  past view comes back exactly under `HashKept` (`DocumentRuns.RestoreBringsBackView`, with an
  instance in `DocumentRuns.HashlessAttachmentShows`). The operations of the repository always
  store a hash, so their own runs never meet the exception (`ReplicaRuns.StepHealthy`).
- **Deletion marks.** A pass leaves a mark for each deletion, but the handler of removal events never
  asks for it and ingest asks for content hashes only, so the mark suppresses nothing
  (`Suppression.DeletionsNeverSuppressed`). The echo of the engine's own deletion tombstones a file
  that has come to live at the path again exactly if the disk has nothing there, the path is
  admitted and it is not the key file's (`FsEvents.DeleteThenEcho`).
- **Heads at a time.** With a clock set back, restoring to a time can take in later-stamped changes
  (`ChangeGraph.SkewedClockTakesMore`), and the restored view shows what they wrote
  (`ReplicaRuns.SkewedClockShowsLater`); the exact condition is in `ChangeGraph.ClosureIsIncluded`.
- **String arrays.** An array comes back from its printed form exactly if no element has a closing
  bracket and no element but the last ends in a backslash (`TomlArrays.ArrayRoundTripsExactly`).
- **Keys and section names.** A key comes back from its line with every value exactly if its quotes
  leave the comment scan outside a string and its ends, equals signs and brackets are not mistaken
  (`TomlKeys.KeyOkExactly`); a section name has its own condition (`TomlKeys.NameOkExactly`).
- **Configuration.** An optional field that holds the empty string comes back absent
  (`TomlConfig.ApplyConfigToDoc`).
- **Bridge.** A pass that throws drops the cover of notifications that came in while it ran
  (`Bridge.CoverLostExactly`).
- **Locally removed files.** The comment at `crates/agentsync-core/src/fs/ingest.rs:152` says the
  materializer rewrites a removed key file on its next pass. By the skip at
  `crates/agentsync-core/src/vault.rs:1057` a missing file is written back exactly if the map does
  not already hold the wanted hash (`EngineLaws.MissingIsWrittenExactly`,
  `FsEvents.RemovedKeysFileReturnsExactly`).
- **Labels of peers.** A list of authorized peers is read back from its rendering exactly if every
  label is trimmed and has no newline (`AuthorizedKeys.RenderRoundTripsExactly`); labels that were
  read from a file always are.

- **Older key lines.** A key in backticks, a separator and a label are read as that key with that
  label exactly if no separator tried earlier occurs behind the key; otherwise the line is dropped
  and the device is not authorized (`LegacyLines.LegacyLineReadsExactly`, with an instance in
  `LegacyLines.DashInLabelDrops`).
- **Underscores in integers.** Underscores never count, wherever they stand; a value of nothing but
  underscores reads as zero, and a sign with underscores only is an error
  (`TomlNumbers.UnderscoresDoNotCount`).

## Model

| member | source | states |
|---|---|---|
| `Paths.Normalize` | crates/agentsync-core/src/path.rs:5-44 | The segment loop computes the normalized path or the first error in segment order |
| `Paths.NormalizedIsNormal` | crates/agentsync-core/src/path.rs:5-44 | A normalized path has only proper segments: none empty, ".", ".." or with a NUL or backslash |
| `Paths.NormalizeFixpoint` | crates/agentsync-core/src/path.rs:5-44 | Exactly the normal paths are left alone, so normalizing is idempotent |
| `Paths.BackslashIsSlash` | crates/agentsync-core/src/path.rs:10-13 | A path spelled with backslashes normalizes like the one with slashes in their place |
| `Paths.KeptAround` | crates/agentsync-core/src/path.rs:22-39 | Wherever they stand, empty and dot segments drop out, and every other segment stays in its place |
| `Paths.Ancestors` | crates/agentsync-core/src/path.rs:53-71 | The loop lists every proper ancestor of a path, and nothing else |
| `Document.Doc.FindFile` | crates/agentsync-core/src/doc/files.rs:16-38 | The scan returns a live file at the path exactly if there is one, in whatever order the entries come |
| `Document.Doc.FindDirectory` | crates/agentsync-core/src/doc/directories.rs:15-33 | The same for directories |
| `Document.Doc.ReadFile` | crates/agentsync-core/src/doc/files.rs:44-56 | The text of the live file at the path, or the error that applies |
| `Document.Doc.EnsureAncestorDirectories` | crates/agentsync-core/src/doc/directories.rs:50-63 | Adds one live directory for each ancestor that had none and changes no existing entry |
| `Document.Doc.WriteTextFile` | crates/agentsync-core/src/doc/files.rs:132-176 | The new state of writing text: the live entry is updated in place, or one entry with its ancestors is added |
| `Document.Doc.WriteAttachment` | crates/agentsync-core/src/doc/files.rs:178-210 | The same for an attachment, whose entry keeps an old text object |
| `Document.Doc.DeleteFile` | crates/agentsync-core/src/doc/files.rs:212-223 | Tombstones one live entry, or fails and changes nothing |
| `Document.Doc.RenameFile` | crates/agentsync-core/src/doc/files.rs:225-245 | Moves one live entry to a free path with its ancestors; each failure changes nothing |
| `Document.Doc.CreateDirectory` | crates/agentsync-core/src/doc/directories.rs:35-48 | Finds the live directory or adds it with its ancestors |
| `Document.Doc.DeleteDirectory` | crates/agentsync-core/src/doc/directories.rs:65-121 | Recursively: exactly the live entries below the path, and its directory, are tombstoned; otherwise refused exactly if a live file lies below |
| `Document.Doc.RenameDirectory` | crates/agentsync-core/src/doc/directories.rs:123-190 | The whole new state of the root move, the two move loops and the ancestors |
| `Document.Doc.GetLabelHeads` | crates/agentsync-core/src/doc/history.rs:67-77 | The decoded heads of a label, in the present or the older form; a badly encoded label anywhere makes every lookup fail |
| `Document.Doc.RestoreToHeads` | crates/agentsync-core/src/doc/history.rs:79-215 | The sweeping and writing-back loops, in any map order, compute the restored state; labels and history stay; a head that is no change of the document is an error |
| `Document.Doc.RestoreToTime` | crates/agentsync-core/src/doc/history.rs:217-220 | Restores to the state of the changes that the heads at that time stand for |
| `Document.Doc.RestoreLabel` | crates/agentsync-core/src/vault.rs:512-522 | Restores to the heads a label was made with; each failure changes nothing |
| `Document.Doc.CreateLabel` | crates/agentsync-core/src/doc/history.rs:8-18 | Stores the encoded current heads under the name, over any label there |
| `Document.Doc.DeleteLabel` | crates/agentsync-core/src/doc/history.rs:20-25 | Removes the label and nothing else |
| `Document.Doc.Commit` | crates/agentsync-core/src/doc/mod.rs:228-231 | The current state becomes one more change on top of the heads, under the hashes of all the changes it is built from |
| `DocumentRefinement.CallFile` | crates/agentsync-core/src/doc/files.rs:132-245 | Each file operation moves the replica by a step of the runs below, or fails and changes nothing |
| `DocumentRefinement.CallDirectory` | crates/agentsync-core/src/doc/directories.rs:35-190 | So does each directory operation |
| `DocumentRefinement.CallHistory` | crates/agentsync-core/src/doc/history.rs:8-220 | So do labels, commits and restores, which fail exactly if the replica never held the state asked for |
| `DocumentRuns.TextWrittenCoherent` | crates/agentsync-core/src/doc/files.rs:132-176 | Writing text keeps live paths distinct and every ancestor of a live path a live directory |
| `DocumentRuns.AttachmentWrittenCoherent` | crates/agentsync-core/src/doc/files.rs:178-210 | So does writing an attachment |
| `DocumentRuns.FileRenamedCoherent` | crates/agentsync-core/src/doc/files.rs:225-245 | So does renaming a file |
| `DocumentRuns.DirectoryCreatedCoherent` | crates/agentsync-core/src/doc/directories.rs:35-63 | So does creating a directory |
| `DocumentRuns.DirectoryDeletedCoherent` | crates/agentsync-core/src/doc/directories.rs:65-121 | So does recursive deletion |
| `DocumentRuns.PlainDeletionCoherentExactly` | crates/agentsync-core/src/doc/directories.rs:93-99 | A deletion without recursion keeps the document coherent if and only if no live directory lies below the one removed |
| `DocumentRuns.RestoredCoherent` | crates/agentsync-core/src/doc/history.rs:79-215 | Restoring a coherent past gives a coherent document whatever the present is |
| `DocumentRuns.RestoreBringsBackView` | crates/agentsync-core/src/doc/history.rs:79-215 | The live view (ids, paths, kinds, sizes, creation times, text, hash, directories) becomes the past one exactly if no hashless attachment has gained a hash; no id is removed |
| `DocumentRuns.HashlessAttachmentShows` | crates/agentsync-core/src/doc/history.rs:79-215 | A past and a present state for which the exception is met |
| `DocumentRuns.RestoringTwiceIsOnce` | crates/agentsync-core/src/doc/history.rs:79-215 | Restoring a state once more changes nothing in view, for every past state |
| `DocumentRuns.LastRestoreWins` | crates/agentsync-core/src/doc/history.rs:79-215 | If the past attachments carry hashes, the last of several restores alone decides the view |
| `RenameDirectory.RenameMoves` | crates/agentsync-core/src/doc/directories.rs:123-190 | Entries at or below the source get the target plus their old suffix, all else is unchanged, only ancestors of the target are added |
| `RenameDirectory.RenameCoherentExactly` | crates/agentsync-core/src/doc/directories.rs:123-190 | A directory rename keeps the document coherent if and only if it is safe |
| `RenameDirectory.InwardRenameBreaks` | crates/agentsync-core/src/doc/directories.rs:134-153 | Renaming a live directory into its own subtree moves the root twice and leaves nothing at the target |
| `RenameDirectory.RenameBackRestores` | crates/agentsync-core/src/doc/directories.rs:123-190 | Renaming to an unused path and back restores every path and all contents |
| `ReplicaRuns.RunCoherent` | crates/agentsync-core/src/doc/directories.rs:35-190 | Every state of every run of the document operations, restores to heads and to times included, is coherent, if directory renames and deletions without recursion meet their exact conditions |
| `ReplicaRuns.HistoryKept` | crates/agentsync-core/src/doc/history.rs:8-25 | No operation loses a change, a state held or a label other than the one it names, and heads keep standing for the same changes |
| `ReplicaRuns.LabelSurvives` | crates/agentsync-core/src/doc/history.rs:8-77 | Whatever happens after a label is made, its stored heads decode to the original heads alone, and restoring them brings back the view of that moment |
| `ReplicaRuns.TimeBringsBackView` | crates/agentsync-core/src/doc/history.rs:217-240 | Whatever the clocks: if a commit is stamped by a time and every later one after it, restoring to that time brings back the live view of that commit, whatever was done since |
| `ReplicaRuns.LastCommitByThenReturns` | crates/agentsync-core/src/doc/history.rs:217-240 | Restoring to any time by which something was committed brings back the view of the last commit, in the order made, that is stamped by then |
| `ReplicaRuns.SkewedClockShowsLater` | crates/agentsync-core/src/doc/history.rs:217-240 | With a clock set back, a run after which restoring to time 5 shows a file committed at 9 |
| `ReplicaRuns.StepKeepsTexts` | crates/agentsync-core/src/doc/files.rs:132-245 | No operation drops an entry or takes a text object away |
| `Heads.EncodeHeads` | crates/agentsync-core/src/doc/history.rs:266-272 | The loop writes the 32-byte hashes one after the other |
| `Heads.DecodeHeads` | crates/agentsync-core/src/doc/history.rs:274-289 | Fails exactly on a length that is no multiple of 32; otherwise gives the one list of heads with that encoding |
| `ChangeGraph.HeadsAtTime` | crates/agentsync-core/src/doc/history.rs:222-240 | The two loops compute the included changes that no included change depends on, in any listed order |
| `ChangeGraph.AllIncludedCovered` | crates/agentsync-core/src/doc/history.rs:222-240 | On every finite change graph each change stamped in time is an ancestor of, or is, a returned head |
| `ChangeGraph.ClosureIsIncluded` | crates/agentsync-core/src/doc/history.rs:222-240 | The ancestors of the heads are exactly the changes stamped in time if and only if none of those depends on a later-stamped one |
| `ChangeGraph.HeadsAreAntichain` | crates/agentsync-core/src/doc/history.rs:222-240 | No head is an ancestor of another, under the same condition |
| `ChangeGraph.RestoreToTimeTakesExactlyIncluded` | crates/agentsync-core/src/doc/history.rs:217-240 | With timestamps that never decrease along dependencies, restoring to a time builds on exactly the changes made by then |
| `ChangeGraph.SkewedClockTakesMore` | crates/agentsync-core/src/doc/history.rs:217-240 | Two changes with a clock set back for which more is taken in |
| `ChangeGraph.ClosureOfIsClosure` | crates/agentsync-core/src/doc/history.rs:79-85 | The changes a fork at some heads is built from are the heads and all their ancestors |
| `ChangeGraph.TimeClosure` | crates/agentsync-core/src/doc/history.rs:217-240 | If no change stamped in time depends on a later stamp, the fork of a restore to that time is built from exactly the changes stamped in time |
| `Suppression.DirtySet.MarkWritten` | crates/agentsync-core/src/fs/suppression.rs:20-28 | Adds one mark behind the unexpired marks of its path and collects the rest |
| `Suppression.DirtySet.CheckAndConsume` | crates/agentsync-core/src/fs/suppression.rs:30-44 | Yes exactly if an unexpired mark of that path and hash is there; the first such mark is removed |
| `Suppression.MarkRefines` | crates/agentsync-core/src/fs/suppression.rs:20-28 | Marking refines appending to a ledger that keeps every mark ever made |
| `Suppression.CheckRefines` | crates/agentsync-core/src/fs/suppression.rs:30-52 | Checking refines consuming the oldest usable mark of the ledger, and answers whether there is one |
| `Suppression.SuppressedExactly` | crates/agentsync-core/src/fs/suppression.rs:20-52 | In every run an event is suppressed exactly if an unexpired, unconsumed mark for it exists |
| `Suppression.SuppressionsNeverExceedMarks` | crates/agentsync-core/src/fs/suppression.rs:20-52 | In every run, for each path and hash, suppressions never outnumber marks |
| `Suppression.DeletionsNeverSuppressed` | crates/agentsync-core/src/vault.rs:1041-1046 | In every run that checks content hashes, no event is suppressed by a deletion mark |
| `Engine.Binding.IngestFile` | crates/agentsync-core/src/fs/ingest.rs:221-362 | What one ingest reads, decides and records: an empty file is read again exactly if the document has content there, then the size limit, suppression, text or blob; text already held is not written again |
| `Engine.Binding.IngestBytes` | crates/agentsync-core/src/fs/ingest.rs:260-362 | The document, store, maps and marks after the bytes read are dealt with |
| `EngineLaws.TruncatedIsReadAgain` | crates/agentsync-core/src/fs/ingest.rs:240-258 | An empty file over non-empty text is taken in only as the second read finds it: a failed read changes nothing, and non-empty content leaves the text non-empty |
| `Engine.Binding.Materialize` | crates/agentsync-core/src/vault.rs:995-1157 | The delete, write and forget loops, in any order, do to each path what one pass means for it, marks included |
| `EngineLaws.PassConverges` | crates/agentsync-core/src/vault.rs:1024-1157 | After a pass without failures, a live path, every live text path among them, is equal to the document exactly if it was before, or the map does not hold the wanted hash and the content was absent, last materialized or last taken in; any other content stays; dead paths that were materialized and not edited since are gone; a truthful map stays truthful; attachments are wanted exactly if their bytes are in the store |
| `EngineLaws.MissingIsWrittenExactly` | crates/agentsync-core/src/vault.rs:1057-1059 | A pass writes back what is missing on disk if and only if the map does not hold the wanted hash |
| `EngineLaws.DeletesExactly` | crates/agentsync-core/src/vault.rs:1024-1047 | A pass deletes a file if and only if it was materialized, is dead, and has not been edited since |
| `EngineLaws.OverwritesExactly` | crates/agentsync-core/src/vault.rs:1057-1083 | Content other than the wanted, with the map not holding the wanted hash, gives way if and only if its hash is the materialized or the ingested one, spelled out |
| `EngineLaws.DeadGivesWayExactly` | crates/agentsync-core/src/vault.rs:1024-1047 | Content of a dead materialized path is deleted if and only if its hash is the materialized or the ingested one, spelled out |
| `EngineLaws.PassAfterPass` | crates/agentsync-core/src/vault.rs:1186-1193 | What a pass wrote and nobody touched since, the next pass makes the document's, or deletes, however the document moved and whatever was taken in earlier |
| `EngineLaws.SecondPassIdle` | crates/agentsync-core/src/vault.rs:1024-1157 | From any start, a second pass on an unchanged document does nothing |
| `EngineLaws.MaterializeTwice` | crates/agentsync-core/src/vault.rs:995-1157 | The same for the two passes run for real: the second changes no disk content, no map and no mark |
| `EngineLaws.WriteThenEcho` | crates/agentsync-core/src/fs/ingest.rs:267-273 | After a pass writes a path, and while the document moves on to any state and the disk changes anywhere else, the first ingest of that path within the time to live leaves the document as it has become |
| `EngineLaws.CaptureTakesIn` | crates/agentsync-core/src/fs/ingest.rs:275-362 | After each capturing outcome the document or the store holds the content |
| `EngineLaws.TakenInSurvivesExactly` | crates/agentsync-core/src/vault.rs:1024-1157 | A pass after an edit was taken in leaves it on disk if and only if the entry is no attachment with stale text |
| `EngineLaws.StaleTextReverts` | crates/agentsync-core/src/doc/files.rs:178-210 | Three ordinary edits after which the last one is reverted |
| `EngineRuns.NoLoss` | crates/agentsync-core/src/vault.rs:1186-1193 | In every interleaving of user writes, document changes, ingests and passes with stale snapshots, whatever non-empty content the engine overwrites or deletes was held before by the document or the blob store |
| `EngineRuns.NoLossAtAll` | crates/agentsync-core/src/vault.rs:1021-1157 | Without exception for empty content if text entries keep their text objects |
| `EngineRuns.InvHolds` | crates/agentsync-core/src/vault.rs:1021-1157 | Every hash in the two maps, and in the snapshots and targets of passes under way, is one of captured content, in every run |
| `EngineRefinement.PassMoves` | crates/agentsync-core/src/vault.rs:1021-1157 | From any world, a sequence of moves does to every path what one pass does |
| `EngineRefinement.MaterializeIsMoves` | crates/agentsync-core/src/vault.rs:995-1157 | The loops of a pass move the world by such a sequence |
| `EngineRefinement.IngestIsMoves` | crates/agentsync-core/src/fs/ingest.rs:221-362 | So does taking in a file, whichever way it goes |
| `EngineRefinement.MaterializeLosesNothing` | crates/agentsync-core/src/vault.rs:1186-1193 | Whatever non-empty content the loops of a pass overwrite or delete was held by the document or the blob store by then |
| `EngineRefinement.EmptyContentUnheld` | crates/agentsync-core/src/vault.rs:1053 | A run in which empty content that nothing held is overwritten |
| `Debouncer.EventLoop.Receive` | crates/agentsync-core/src/vault.rs:932-972 | A received event replaces the pending one of its path and moves the deadline to 150 ms later |
| `Debouncer.EventLoop.FlushExpired` | crates/agentsync-core/src/vault.rs:974-993 | Exactly the expired paths, or all when forced, stop being pending, each handled once with its latest event |
| `Debouncer.EventLoop.Run` | crates/agentsync-core/src/vault.rs:932-972 | The loop receives each event once, in order, and ends with nothing pending when the channel closes; after a tick nothing overdue is pending, and every handling is due to a tick at its time or to the closing |
| `Debouncer.EventLoop.NextWait` | crates/agentsync-core/src/vault.rs:944-949 | The sleep ends at the earliest deadline |
| `Debouncer.EventLoop.SleepAndFlush` | crates/agentsync-core/src/vault.rs:966-968 | A turn without an event handles at least one pending path, and exactly those whose deadline it reaches |
| `Debouncer.EventLoop.RunQuietly` | crates/agentsync-core/src/vault.rs:932-972 | Once events stop, everything pending is handled, each path once, at its deadline or at once if that has passed |
| `Debouncer.HandledAtMostReceived` | crates/agentsync-core/src/vault.rs:932-993 | No path is handled more often than it was reported |
| `Debouncer.LatestIsPendingOrHandled` | crates/agentsync-core/src/vault.rs:932-993 | Each path is pending with its latest event and its deadline, or that event was handled, not early unless forced |
| `Debouncer.ReceiptBetweenHandlings` | crates/agentsync-core/src/vault.rs:974-993 | Between two handlings of a path lies a receipt of it, so closing handles each pending path once |
| `Glob.GlobMatch` | crates/agentsync-core/src/fs/binding.rs:271-322 | The loop with one backtrack point terminates and accepts exactly what a nondeterministic matcher accepts |
| `Glob.GlobMatchAny` | crates/agentsync-core/src/fs/binding.rs:324-326 | Accepts exactly if some pattern does |
| `Glob.ExtensionPattern` | crates/agentsync-core/src/fs/binding.rs:271-322 | The pattern for an extension without stars accepts exactly the paths ending in it |
| `Glob.LeftoverSlash` | crates/agentsync-core/src/fs/binding.rs:315-319 | A leftover double star with a slash does not match at the end of input |
| `FsEvents.PathAllowed` | crates/agentsync-core/src/fs/binding.rs:197-224 | Which files a binding admits: fixed exclusions, then the two system files, then ignore rules and include patterns |
| `FsEvents.OwnFilesAreAdmitted` | crates/agentsync-core/src/fs/binding.rs:71-81 | The two private directories and all below them are never admitted; elsewhere the key file and every `.syncignore` always are |
| `FsEvents.OthersAreAdmittedExactly` | crates/agentsync-core/src/fs/binding.rs:197-238 | Every other file is admitted if and only if no ignore rule takes it and, with extension patterns given, it ends in one of them; directories only need the ignore rules |
| `FsEvents.HandleRemoved` | crates/agentsync-core/src/fs/ingest.rs:141-185 | The new document after a removal event: nothing, one file, or one directory with all below it tombstoned |
| `FsEvents.RemovedKeeps` | crates/agentsync-core/src/fs/ingest.rs:141-185 | A removal keeps the document coherent, only adds tombstones, and none to the key file |
| `FsEvents.RemovedMirrors` | crates/agentsync-core/src/fs/ingest.rs:147-185 | After it nothing is live at an admitted path, nor below a directory that was removed |
| `FsEvents.KeysSurviveRemovals` | crates/agentsync-core/src/fs/ingest.rs:151-159 | Through any sequence of removals the live key file stays as it was |
| `FsEvents.RemovedKeysFileReturnsExactly` | crates/agentsync-core/src/fs/ingest.rs:153-158 | The next pass writes a removed key file back if and only if the map does not hold the hash of its live text |
| `FsEvents.RemovalTombstonesExactly` | crates/agentsync-core/src/fs/ingest.rs:141-185 | A removal tombstones the live file at its path if and only if the path is admitted and not the key file's |
| `FsEvents.DeleteThenEcho` | crates/agentsync-core/src/fs/ingest.rs:141-171 | After a pass deletes a path and document and disk move on in any way, the removal event tombstones a file that lives there again if and only if the disk has nothing there, the path is admitted and not the key file's |
| `TomlText.ReplacementsEscape` | sdks/typescript/src/config.ts:197-199 | The four replacements one after the other escape each character once |
| `TomlText.ParseTomlString` | sdks/typescript/src/config.ts:151-174 | The escape loop computes the unquoted string, or fails on an open string |
| `TomlText.UnquoteEscape` | sdks/typescript/src/config.ts:151-199 | Every string comes back from its escaped form, whatever follows the closing quote |
| `TomlText.StripComment` | sdks/typescript/src/config.ts:124-132 | The loop cuts the line where the quote-toggling scan finds a `#` outside a string |
| `TomlText.FormatParseInt` | sdks/typescript/src/config.ts:139-149 | Every safe integer comes back from its decimal form |
| `TomlNumbers.IntegerMeans` | sdks/typescript/src/config.ts:143-147 | An integer is its digits read from the left with underscores left out, negative behind a minus sign, within the safe range |
| `TomlNumbers.UnderscoresDoNotCount` | sdks/typescript/src/config.ts:143-147 | Every integer text reads as the same text without underscores; with no digit, a sign is an error and no sign is zero |
| `TomlNumbers.UnderscoresAnywhere` | sdks/typescript/src/config.ts:143-147 | A printed integer with underscores put in at any positions reads as itself, behind a plus sign too, and negated behind a minus sign |
| `TomlNumbers.PlusDoesNotCount` | sdks/typescript/src/config.ts:143-147 | A plus sign in front of a digit changes nothing |
| `TomlNumbers.GroupedDigits` | sdks/typescript/src/config.ts:143-147 | `10_485_760` reads as ten mebibytes |
| `TomlKeys.KeyOkExactly` | sdks/typescript/src/config.ts:78-132 | A key is read back from its printed line with every value text if and only if the comment scan is outside a string behind it, it is trimmed, has no equals sign, and has a closing bracket if it starts with an opening one |
| `TomlKeys.NameOkExactly` | sdks/typescript/src/config.ts:84-96 | A section name is read back from its header line if and only if it is trimmed, has no closing bracket and its line is not cut |
| `TomlLayout.PlainKeysAreOk` | sdks/typescript/src/config.ts:78-132 | Letters, digits, underscores and dashes make keys and section names that come back |
| `TomlArrays.ParseStringArray` | sdks/typescript/src/config.ts:176-195 | The quote-scanning loop finds the strings of an array text |
| `TomlArrays.ArrayRoundTripsExactly` | sdks/typescript/src/config.ts:134-207 | A printed array reads back as itself if and only if it is faithful, whatever lines follow |
| `TomlCodec.ParseTomlDoc` | sdks/typescript/src/config.ts:78-112 | The loop over lines, with arrays taking further lines along, computes the parsed document |
| `TomlCodec.PrintedLines` | sdks/typescript/src/config.ts:209-221 | The printed text is the lines of its blocks, each block followed by an empty line |
| `TomlRoundTrip.PrintThenParse` | sdks/typescript/src/config.ts:78-221 | Parsing the printed form of a well-formed document gives back its sections, keys and values in order, an empty root dropped |
| `TomlRoundTrip.PrintParsePrint` | sdks/typescript/src/config.ts:78-221 | Printing what was parsed back prints the same text |
| `TomlLayout.ContentIgnoresLayout` | sdks/typescript/src/config.ts:82-85 | White space around a line whose strings are closed, and a comment behind it, do not change what is read |
| `TomlLayout.CommentLine` | sdks/typescript/src/config.ts:82-85 | A line of white space, with or without a comment, says nothing |
| `TomlLayout.LaidOutString` | sdks/typescript/src/config.ts:92-132 | A string is read with any white space around key, equals sign and value and any comment behind, even if it ends in a backslash |
| `TomlLayout.LaidOutInt` | sdks/typescript/src/config.ts:92-147 | So is an integer with underscores and a sign or without |
| `TomlLayout.LaidOutArray` | sdks/typescript/src/config.ts:96-110 | So is an array on one line with any commas and white space between its elements |
| `TomlLayout.LaidOutHeader` | sdks/typescript/src/config.ts:86-90 | So is a section header, also with white space inside its brackets |
| `TomlLayout.NothingElseIsAScalar` | sdks/typescript/src/config.ts:139-149 | Besides quoted strings, `true`, `false` and integers are the only scalars |
| `TomlLayout.EscapesMean` | sdks/typescript/src/config.ts:159-171 | What each escape sequence stands for; an unknown one is its letter |
| `TomlConfig.ApplyConfigToDoc` | sdks/typescript/src/config.ts:245-305 | Reading the configuration back returns it, empty optional fields apart, and every unknown table and key is untouched and in place |
| `TomlConfig.FieldsExactly` | sdks/typescript/src/config.ts:55-63 | Each field shows what its key holds; missing or of another kind it is absent or the default, the numbers and lists spelled out |
| `TomlFile.AppliedIsOk` | sdks/typescript/src/config.ts:278-305 | Writing a configuration over a printable document gives a printable document |
| `TomlFile.SaveThenLoad` | sdks/typescript/src/config.ts:307-318 | Saving a configuration and loading the text gives it back, empty optional fields apart, with every unknown key as it was |
| `Bridge.ObsidianVaultBridge.ScheduleApplyRemoteState` | sdks/obsidian/src/bridge.ts:192-207 | The new schedule after a notification |
| `Bridge.ObsidianVaultBridge.OnTimer` | sdks/obsidian/src/bridge.ts:203-212 | The new schedule when the timer fires, and whether a pass starts |
| `Bridge.ObsidianVaultBridge.OnPassEnd` | sdks/obsidian/src/bridge.ts:209-223 | The new schedule after a pass ends or throws |
| `Bridge.ObsidianVaultBridge.DisposeBridge` | sdks/obsidian/src/bridge.ts:225-232 | The new schedule after disposal |
| `Bridge.AlwaysOrderly` | sdks/obsidian/src/bridge.ts:192-232 | In every run a set timer excludes a pass in flight |
| `Bridge.PassesNeverOverlap` | sdks/obsidian/src/bridge.ts:209-223 | Between two starts the first pass ends |
| `Bridge.NoStartAfterDispose` | sdks/obsidian/src/bridge.ts:225-232 | No pass starts after disposal |
| `Bridge.CoverLostExactly` | sdks/obsidian/src/bridge.ts:192-232 | A step that starts no pass loses cover if and only if it is a throwing pass end or disposal |
| `Bridge.NotificationCovered` | sdks/obsidian/src/bridge.ts:192-223 | If no pass throws, each notification is covered until a later pass starts |
| `Bridge.CoverLeadsToStart` | sdks/obsidian/src/bridge.ts:192-223 | Cover leads to a start once the running pass ends and the timer fires |
| `Reconcile.PlanReconcile` | sdks/obsidian/src/reconcile.ts:60-113 | The planning loops put exactly the right paths in each list, once each, with the right content |
| `Reconcile.Sides.Execute` | sdks/obsidian/src/sync-controller.ts:346-384 | Both sides after the pushes, pulls and deletions of a plan made from the listing of live files, path by path |
| `Reconcile.Sides.RunReconcile` | sdks/obsidian/src/sync-controller.ts:333-384 | Both sides agree on every admitted path, no filtered-out path and no file of Obsidian is touched, nothing is deleted, and an admitted tombstone stays one if and only if the path is absent from Obsidian |
| `Reconcile.ListingDeletesNothing` | sdks/obsidian/src/sync-controller.ts:341-345 | A plan made from a listing of live files deletes nothing |
| `Reconcile.DeletedFileComesBack` | sdks/obsidian/src/sync-controller.ts:333-384 | A file deleted in the document and still in Obsidian is live again afterwards |
| `Reconcile.EmptyPlanMeansAgreement` | sdks/obsidian/src/reconcile.ts:60-113 | The plan is empty if and only if the sides agree on every admitted path |
| `Reconcile.ListsAreDisjoint` | sdks/obsidian/src/reconcile.ts:60-113 | No path is in two lists |
| `Reconcile.ReconcileTwice` | sdks/obsidian/src/sync-controller.ts:346-384 | Planning again right after gives the empty plan |
| `Base64.B64EncodeNoPad` | sdks/typescript/src/identity-file.ts:17-30 | The loop over 24-bit groups computes the unpadded encoding |
| `Base64.B64Decode` | sdks/typescript/src/identity-file.ts:32-48 | The loop with an accumulator that wraps at 32 bits computes the decoding, or reports the first foreign character |
| `Base64.PushKeepsLow` | sdks/typescript/src/identity-file.ts:37-46 | Wrapping never reaches the bits that are still to be read |
| `Base64.EncodedLength` | sdks/typescript/src/identity-file.ts:17-30 | The text of n bytes has ceil(4n/3) characters |
| `Base64.EncodeThenDecode` | sdks/typescript/src/identity-file.ts:17-48 | Decoding inverts encoding for byte arrays of every length, with any number of trailing `=` |
| `Base64.CanonicalExactly` | sdks/typescript/src/identity-file.ts:17-48 | Encoding gives back a text's sextets if and only if its length is possible and its unused bits are zero |
| `Base64.DecodesPaddedExactly` | crates/agentsync-core/src/identity.rs:174-200 | The strict padded form accepts the canonical texts padded to quadruples, and no others |
| `Base64.Vectors` | sdks/typescript/src/identity-file.ts:15-30 | Two vectors of RFC 4648 and one for the last two characters of the alphabet |
| `IdentityFile.FormatThenParse` | sdks/typescript/src/identity-file.ts:50-71 | Every 32-byte seed comes back from its identity file, whatever is appended after the line |
| `IdentityFile.FormatIsInjective` | sdks/typescript/src/identity-file.ts:50-56 | Different seeds have different files, all of the same length |
| `IdentityFile.OnlyPrefixedLines` | sdks/typescript/src/identity-file.ts:60-71 | Only a text that starts with the prefix is read, and only as 32 bytes |
| `IdentityFile.SeedIsFound` | sdks/typescript/src/identity-file.ts:60-71 | White space around the encoded seed, `=` behind it and further lines do not matter |
| `SshWire.ReadSshString` | crates/agentsync-core/src/identity.rs:275-292 | What is read at the cursor, where the cursor moves, and which truncation is reported |
| `SshWire.ReadAtExactly` | crates/agentsync-core/src/identity.rs:275-292 | A read gives a string if and only if its length-prefixed encoding starts at the cursor |
| `SshWire.EncodeSshWire` | crates/agentsync-core/src/identity.rs:244-251 | The pushes build the two length-prefixed strings, 51 bytes in all |
| `SshWire.KeyWireBytes` | crates/agentsync-core/src/identity.rs:244-251 | Every byte of the wire form of a key, spelled out |
| `SshWire.BigEndian` | crates/agentsync-core/src/identity.rs:275-292 | A length is read with its most significant byte first |
| `SshWire.DecodeSshWire` | crates/agentsync-core/src/identity.rs:253-273 | Decoding gives a key if and only if the key's encoding is a prefix of the bytes |
| `SshWire.FromSshStringExactly` | crates/agentsync-core/src/identity.rs:180-200 | A text is read as a key if and only if its words are the key type and a strict encoding of the key's wire form with any bytes after it |
| `SshWire.KeyRoundTrip` | crates/agentsync-core/src/identity.rs:174-200 | Every key comes back from its text form |
| `AuthorizedKeys.ParseAuthorizedKeys` | crates/agentsync-core/src/peers_md.rs:26-34 | The loop over lines collects the entries of the lines that have one |
| `RustText.WhitespaceExactly` | crates/agentsync-core/src/peers_md.rs:42 | The 25 characters that count as white space in a line of the key file |
| `RustText.LinesConsReturn` | crates/agentsync-core/src/peers_md.rs:28 | A carriage return in front of a newline is no part of the line |
| `AuthorizedKeys.RenderAuthorizedKeys` | crates/agentsync-core/src/peers_md.rs:100-115 | The loop writes the header and one row for each peer |
| `AuthorizedKeys.FileOpens` | crates/agentsync-core/src/peers_md.rs:100-106 | Every rendered file is its six opening lines and the rows |
| `AuthorizedKeys.ParsedTextIsGood` | crates/agentsync-core/src/peers_md.rs:26-97 | Labels read from any text, in either form, are trimmed and have no newline |
| `AuthorizedKeys.PlainBody` | crates/agentsync-core/src/peers_md.rs:57-63 | A line in the present form has its key in front of the second white space, even if nothing stands between the two, and its label behind |
| `LegacyLines.PlainLineReads` | crates/agentsync-core/src/peers_md.rs:41-87 | A rendered row is read behind any white space and any list marker or none |
| `LegacyLines.LegacyLineReadsExactly` | crates/agentsync-core/src/peers_md.rs:41-97 | For every key, label, separator, marker and leading white space, the older line is read as that key with that label if and only if no separator tried earlier occurs behind the key; otherwise it is dropped |
| `LegacyLines.LegacyLineAlone` | crates/agentsync-core/src/peers_md.rs:70-97 | Without a separator the label is empty |
| `LegacyLines.DashInLabelDrops` | crates/agentsync-core/src/peers_md.rs:70-97 | A label that starts with an em dash behind a hyphen: the line is dropped |
| `AuthorizedKeys.RenderRoundTripsExactly` | crates/agentsync-core/src/peers_md.rs:26-115 | A list is read back from its rendering if and only if all its labels are trimmed and have no newline |
| `AuthorizedKeys.ParseRenderParse` | crates/agentsync-core/src/peers_md.rs:26-115 | For every text, reading the rendering of what was read gives the same list |
| `AuthorizedKeys.MergeAuthorizedKeys` | crates/agentsync-cli/src/commands/watch.rs:124-153 | The text the merge writes, if any |
| `AuthorizedKeys.MergeMeaning` | crates/agentsync-cli/src/commands/watch.rs:134-141 | Existing entries stay in front in order; each missing key is added once, as it first came, and none is missed |
| `AuthorizedKeys.CommasSeparate` | crates/agentsync-cli/src/commands/watch.rs:125-127 | Keys may be separated by commas or line breaks: each piece is read on its own |
| `AuthorizedKeys.OnePiece` | crates/agentsync-cli/src/commands/watch.rs:125-127 | A piece without either is read as one line |
| `AuthorizedKeys.MergedFile` | crates/agentsync-cli/src/commands/watch.rs:124-153 | The file afterwards reads as the merged list, and nothing is written if and only if no key was missing |
| `AuthorizedKeys.MergeTwice` | crates/agentsync-cli/src/commands/watch.rs:117-123 | A second merge of the same input writes nothing |
| `Handshake.BuildTranscript` | crates/agentsync-core/src/auth.rs:28-45 | The appended parts of the transcript |
| `Handshake.TranscriptInjective` | crates/agentsync-core/src/auth.rs:28-45 | Different terms have different transcripts for fingerprints of any length |
| `Handshake.TranscriptOpens` | crates/agentsync-core/src/auth.rs:28-45 | The bytes of the domain tag open every transcript |
| `Handshake.ZerosExactly` | crates/agentsync-core/src/net/client.rs:155-173 | The fingerprint that turns channel binding off is the one of 32 zeros and no other |
| `Handshake.RunHandshake` | crates/agentsync-core/src/net/client.rs:121-208 | The peer's result and frames for any two frames received, every early exit included; it gets past a greeting only with the observed fingerprint or 32 zeros, and any other is a mismatch before anything is sent |
| `Handshake.HandlePeer` | crates/agentsync-core/src/net/server.rs:242-339 | The hub's result and frames for any two frames received |
| `Handshake.HonestPair` | crates/agentsync-core/src/net/client.rs:155-173 | With all frames delivered, both sides complete if and only if the peer is authorized and the fingerprint is the observed one or 32 zeros |
| `HandshakeRuns.RunSound` | crates/agentsync-core/src/net/server.rs:255-339 | What every step of every run keeps: distinct nonces, own terms, signed claims backed by their sessions, agreement of peers that accepted, and of hubs that accepted another key than their own |
| `HandshakeRuns.PeerAgreement` | crates/agentsync-core/src/net/client.rs:191-208 | In every run of any number of sessions over a hostile network, a peer that accepted an honest hub shares both nonces, the fingerprint and both keys with exactly one hub session |
| `HandshakeRuns.HubAgreement` | crates/agentsync-core/src/net/server.rs:320-339 | In every run, a hub that accepted an honest key other than its own shares all of them with exactly one peer session, which has accepted the hub; and the key was authorized when it was shown |
| `HandshakeRuns.OwnKeyAccepted` | crates/agentsync-core/src/net/server.rs:288-339 | A run in which a hub that authorizes its own key accepts it with no peer session anywhere |
| `HandshakeRuns.HubAgreementExactly` | crates/agentsync-core/src/net/server.rs:288-339 | Every acceptance of an honest key by hubs of a key has a peer session behind it if and only if the two keys differ |
| `HandshakeRuns.AuthorizedKeysDecide` | crates/agentsync-core/src/net/server.rs:288-305 | All acceptances under a set of authorized keys have a peer session behind them if and only if the hub's own key is not in it |

## Left out

- EngineRuns.NoLoss: excepts empty content, because an entry without a text object is read as empty; `EngineRuns.NoLossAtAll` has no exception.
- TomlRoundTrip.PrintThenParse: asks for keys that come back with every value; a key that only comes back with its own value is not counted as well-formed.
- EngineLaws.WriteThenEcho: is about the first ingest after one write, since an older mark left over for the same hash can suppress an unrelated event.
- RenameDirectory.RenameBackRestores: leaves update times aside, which both renames set.
- Document.Doc.RestoreLabel: without the pass over a bound folder that follows it.
- Automerge itself: merges of concurrent changes, sync messages and text splices; a replica's maps are plain maps, and a remote change is an arbitrary new document.
- Identifiers are any unused number and map iteration is in arbitrary order; one operation reads the clock once.
- Committing a change is an operation of its own; the commits inside a recursive directory deletion are not separate.
- Reading a disk content, deciding and writing it is one step against user writes; a failed read is an absent file; temporary files, permissions and file metadata are not modelled.
- Directories on disk and the map of materialized directories, and the walk over the folder at binding time, which would repeat `Engine.Binding.IngestFile`.
- DocumentRuns.LastRestoreWins: asks that past attachments carry hashes; `DocumentRuns.RestoringTwiceIsOnce` does not.
- States of merged changes that the replica itself never held: restoring to them is an error here.
- Rebuilding the ignore rules and scanning the folder again after a change to a `.syncignore` file.
- Rename events of the file system, which the shown adapter never emits (`crates/agentsync-core/src/fs/node_adapter.rs:101-112`).
- Unicode normalization of paths: paths are strings with the code's segment rules, and NFC is the identity on them.
- The rules of `.syncignore`, which extensions are text, the size limits and the validity of UTF-8: predicates on paths and contents.
- SHA-256, ed25519, TLS, WebSocket and the encoding of frames; error frames a hub sends, failing signers and failing connections.
- The vault id and name in the hub's greeting, which the transcript does not cover.
- The TOML escape `\u`: the value of its digits is a parameter.
- The strict base64 decoder is a library; it is modelled as the inverse of padded encoding, and `Base64.DecodesPaddedExactly` says which texts that accepts.
- In the bridge: suppression tokens, known paths and the deferral while the cache is cold, and the body of a pass.
- In the reconcile: every listed file has a text; reading and writing do not fail.
- Command line, settings, status bar, storage adapters and bindings.
