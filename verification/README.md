# The inventory protocol of Private Marketplace Manager, verified

The manager keeps VS Code extension packages as VSIX files in one directory and an inventory of them in four SQLite
tables. Every database transaction, every link into the directory and every removal from it is one durable step; a
crash may fall between any two steps and loses only what the process remembered. This project models those steps, the
loops that take them, the version limits of server and sync client, and the summary cache, and proves what a
maintainer relies on.

The main results:

- **The routine scan is a faithful shortcut.** From any state of any run it ends with the records, remembered files,
  directory, change count and trim list of a full rescan (`Guarantees.RoutineRefinesFull`), under the trust hypothesis
  that unopened files hold what is remembered. The loops of the scanner are proved to do exactly this
  (`Reconciling.Reconcile`), and what they do is tied to a result that mentions neither the files table nor the queue
  nor the batches (`Recovery.ScanReachesResult`).
- **One invariant** holds at every point of every run of safe steps: a record that is not queued is already what the
  remembered files say (`Runs.InvariantOverRuns`). Three kinds of step are not safe by construction; whether one is
  safe can be checked before it, and an unsafe one always breaks the invariant (`Runs.SafeIsExact`). A manager that
  serves requests keeps it, also after a reconciliation that failed behind an open gate: uploads always, removals and
  trims as long as names are apart (`Managing.Manager`, `Reconciling.MidScanIsUsable`).
- **Crashes are recovered**: uploads (`Guarantees.LinkedUploadRecovers`), deletions (`Guarantees.DeletionRecovers`)
  and scans of both kinds (`Interruption.InterruptedScanResumes`), from every state in which the methods can stop.
  What was answered 200 or 201 is still stored after the next scan exactly when the upload's own trim took neither its
  version nor its file, if its record was neither queued nor deleted before (`Uploads.AnsweredUploadIsStored`).
- **Admission, trims and the sync client fit together** whichever way the sort orders ties
  (`Retention.OutsideMeansAlwaysCut`, `Retention.NeverCutExactly`). No upload a sync plans is refused, and the sync
  converges, whatever order its queue is sent in (`Sync.PlannedNeverRefused`, `Sync.PlannedSyncConverges`).
- **Orders are what they should be**: comparing versions as text decides exactly the precedence of semantic versions,
  defined independently on their numbers and identifiers (`Precedence.ComparisonMeans`), and names are ordered by
  their characters (`Text.TextMeans`).
- **The summary cache** agrees with the packages at every point for every unmarked extension, and the library-wide
  limit visits each extension it concerns exactly once, in ID order, although visits change the tables it reads
  (`LibraryLimit.ExtensionsOver`).

## How it is organised

`Text` and `Versions` define name order and version precedence (sections 9 to 11 of Semantic Versioning 2.0.0), and
`Precedence` says independently what precedence means. `Inventory` has the records, files and statuses. `Protocol`
defines the durable state, the atomic transactions and the invariant; `Runs` what holds of all runs. `Recovery`,
`Guarantees` and `Interruption` are about whole scans and what they recover. `Limits` and `Retention` are about
version limits, and `Gate` is the gate that waits for a reconciliation, as a state machine in which retries may
overlap. These modules are mostly functions and lemmas on values.

The code itself updates tables and fields in place, and is modelled that way: `Store` is the class of the tables and
the directory, `Removal` and `Uploads` the requests, `Bitsets` and `Scanning` the scanner, `Reconciling` one
reconciliation, `Managing` the manager with its gate and the requests it lets in, `Summaries`, `Catalog` and
`LibraryLimit` the cache and its users, `Workers` the strided work split, `Sync` the client. Every method's contract
equates the new state with a function of the old one from `Protocol` or `Recovery`. `Store` also carries a ghost trail
of its durable states: `Valid` says that the trail is a run, so a method's contract can say which states it may be
stopped in.

## Hypotheses

- *Trust* (`Recovery.Trusting`): a file whose name, size and modification time match its row still holds the row's
  package; right after an upgrade, a stored record's file of the recorded size still holds the record's bytes. Also, a
  newly linked file is not mistaken for a remembered one of the same name, with other contents, that is gone
  (`Guarantees.Uploadable`). A full scan opens every file and needs neither (`Recovery.MayScan`).
- *No external writer*: edits from outside are steps of a run like any other (`Outside`), but within one scan or
  request the directory changes only through the manager.
- *Names* (`Reconciling.NamesFree`, `Runs.NamesApart`): no record's file name holds another package's file. The code
  does not ensure this; see below. Only removals and the trims of a scan need it, and `Managing.Manager` keeps track
  of when it was needed and missing (`standing`). Nothing is assumed where only `Safe` is needed.
- *Listing order*: a scan stopped during its walk is run again over the same files in the same order, as the first
  file seen with a new package names its record (`Interruption.InterruptedScanResumes`). From the end of the walk on,
  and whenever every package has a record, any order will do (`Interruption.KnownScanResumesInAnyOrder`,
  `Interruption.WalkedScanKnowsAll`).
- *Ties*: versions may tie (`Versions.BuildMetadataTies`), and the documentation of the sort does not say which of
  them comes first, so a limit may have several cuts (`Retention.TiesAllowTwoCuts`, `Retention.CutIsUniqueExactly`)
  and what is proved holds for all of them. A preview then names what any application deletes exactly when no version
  it cuts ties with one it keeps (`LibraryLimit.PreviewIsExact`), and extension and version counts agree always
  (`LibraryLimit.PreviewCounts`). In the code preview and application sort the same ordered listing with the same
  function; if that makes the cut a function of the listing, the two agree in everything, ties or not
  (`LibraryLimit.SamePickSameReport`).
- Equal hashes mean equal bytes, so `Digest` pairs the hash with the size, and comparing hashes is comparing contents.
- The extension IDs a library-wide limit visits are not empty, as the manifest check ensures.

## Where the code falls short

- Two identities can share a canonical file name, as versions and platforms may contain `-`
  (`Inventory.CanonicalNamesCollide`). Say `1.0.0` for `linux-x64` is stored, and the prerelease `1.0.0-linux` for
  `x64` is uploaded: its name is taken, so the upload fails and leaves it journaled. Deleting every version through
  `1.0.0-linux` names the prerelease alone, as it precedes the release, yet removes and forgets the release's file.
  The release's record still says stored though nothing holds it; routine scans do not notice, a full one does.
  `Counterexamples.DeletingOneBreaksTheOther` is this run, with every request and scan as the code makes it. A
  deletion keeps the invariant exactly when it spares the other records (`Guarantees.RemovalKeepsInv`), which names
  kept apart ensure (`Guarantees.NamesApartSpares`).
- An upload over a deleted package is answered 201 and recorded as stored even when other bytes under the same
  identity were left in the directory; the next scan calls it a conflict (`Counterexamples.AcceptedYetConflicting`).
  An upload stays stored exactly when no other copy differs (`Uploads.NewUploadSurvives`,
  `Uploads.TrimmedUploadSurvives`, `Uploads.ConfirmedUploadSurvives`).
- An upload's own trim may cut a package that shares the new file's name, and then removes that file before 201 is
  answered; the record says stored. `Counterexamples.UploadLosesItsOwnFile` is a run: one version may be kept, the
  prerelease `1.0.0-linux` for `x64` was uploaded but not linked, then `1.0.0` for `linux-x64` is uploaded. It happens
  exactly when the file can be removed and the cut has the new version or one of another package under that name
  (`Uploads.AnsweredFileIsGoneExactly`); without ties that can be told before the upload
  (`Uploads.FileIsGoneForeseeably`). In that run the next scan of either kind says missing.
- A scan that stops between settling and trimming forgets which extensions grew, and the next one does not trim them
  (`Counterexamples.InterruptionKeepsTooMany`). The outcome is that of an uninterrupted scan exactly when those
  extensions are within their limits (`Interruption.InterruptionLosesTrims`,
  `Reconciling.LateInterruptionLosesEveryTrim`). Records and files do resume.
- In discovery mode nothing is stored, skipped or beyond the limit, so a report's counts add up to what was discovered
  only when nothing was discovered (`Sync.Run`).
- The comments of `Reconcile` (`internal/server/server.go:935-937`) say that it never removes VSIX files. It removes
  the exact bytes of packages recorded as deleted, and what its trims cut; `Guarantees.ScanTellsTheTruth` says which.
- A requested reconciliation that fails while the gate is open leaves it open, although `afterScan` is meant to keep
  clients from a partial inventory: `Counterexamples.FailedVerificationLeavesGateOpen` is a run in which a full one
  fails with all trust in the remembered files gone. What still holds is what requests need: every record is settled
  or queued as far as files are remembered, and every file of a known package is remembered or its package queued
  (`Guarantees.IsUsable`). A failed full reconciliation leaves this whatever it started from, a routine one keeps it
  (`Reconciling.MidScanIsUsable`), and so do the requests that follow (`Managing.Manager.Upload` and the others).
  Conversely, a retry that came in while the scan had failed, and fails itself, closes a gate that an overlapping
  retry has opened, though the later one went through (`Gate.OverlapClosesAnOpenGate`). An open gate closes exactly so
  (`Gate.OpenGateCloses`), and never if retries come one at a time (`Gate.AloneGateStaysOpen`).

## Model

| member | source | states |
|---|---|---|
| Inventory.KeyTextIsInjective | internal/vsix/vsix.go:54 | a key names one identity, as no component contains `@` |
| Text.TextMeans | internal/store/store.go:253 | text order: a proper prefix comes first, else the smaller character where two texts first differ |
| Inventory.CanonicalNamesCollide | internal/vsix/vsix.go:58-60 | for every way to split at a `-`, two different identities share a canonical file name |
| Inventory.CanonicalNamesApart | internal/vsix/vsix.go:58-60 | without `-` in version and platform, canonical names keep identities apart |
| Inventory.StoredNamesACopy | internal/server/scan.go:550-569 | a stored record that agrees with the files names one of them, and all of them match it |
| Inventory.SettledMeans | internal/server/scan.go:550-569 | missing without files of the identity, in conflict if and only if one differs, and else stored under its own name if that is one of them, or under the first of them by the characters |
| Inventory.SettledIsIdempotent | internal/server/scan.go:550-569 | settling a settled record changes nothing |
| Inventory.EnterAllKeeps | internal/server/scan.go:363-384 | taking inventory keeps every known record and adds each new package once, pending, under the first file in listing order that holds it |
| Versions.CompareVersionsIsPreorder | internal/vsix/vsix.go:57 | precedence is reflexive, total and transitive on all strings, semantic versions or not |
| Precedence.ComparisonMeans | internal/vsix/vsix.go:56-57 | comparing two semantic versions as text decides exactly their precedence: major, minor and patch by value, a prerelease before its release, identifiers one by one, numbers by value before words, words by their characters, fewer first; ties are equal up to build metadata |
| Precedence.OthersComeFirst | internal/vsix/vsix.go:57 | a version that is not semantic precedes every one that is, and ties with the others like it |
| Precedence.SpelledReads | internal/vsix/vsix.go:57 | reading a written version gives its numbers and identifiers back |
| Versions.BuildMetadataTies | internal/vsix/vsix.go:57 | versions that differ only in build metadata, of any number of identifiers, tie, so the order is not total |
| Versions.PrereleaseIsOlder | internal/vsix/vsix.go:57 | a prerelease precedes the release it announces |
| Protocol.PublishKeepsInv | internal/store/store.go:136-158 | publishing keeps the invariant if and only if no other remembered copy of an unqueued package differs |
| Protocol.ForgetFilesKeepsInv | internal/store/store.go:312-321 | forgetting removed files keeps the invariant if and only if it spares every record that is not queued |
| Protocol.JournalKeepsInv | internal/store/store.go:124-132 | journaling queues what it writes, so the invariant holds |
| Protocol.MarkDeletedKeepsInv | internal/store/store.go:176-189 | recording a deletion queues its targets, so the invariant holds |
| Protocol.AdoptKeepsInv | internal/server/scan.go:151-177 | adoption keeps the invariant, and afterwards each record offered is queued or agrees with its own file |
| Protocol.VerifyKeepsInv | internal/server/scan.go:310-352 | a verified batch queues every key whose copies it changed |
| Protocol.DropKeepsInv | internal/server/scan.go:417-429 | forgetting vanished files queues every package they held |
| Protocol.SettleKeepsInv | internal/server/scan.go:503-542 | settling takes keys off the queue only once their records agree |
| Runs.StepPreserves | internal/store/store.go:113-120 | no step drops a record, changes the bytes behind a key or alters a receipt |
| Runs.StepKeepsInv | internal/store/store.go:124-189 | every safe step keeps the invariant |
| Runs.SafeIsExact | internal/server/limit.go:28-52 | once files are trusted, a step keeps the invariant if and only if it is safe |
| Runs.InvariantOverRuns | internal/server/scan.go:29-32 | over every run of safe steps each record is settled or queued at every point |
| Runs.IdentityOverRuns | internal/server/server.go:773-792 | over every run, safe or not: records stay, the bytes behind a key never change, an idempotency key keeps what it names, every receipt matches its record |
| Runs.StepKeepsTracked | internal/server/server.go:830-868 | requests keep every directory entry remembered or its package queued |
| Runs.ConfirmingIsSafe | internal/server/server.go:793-816 | confirming a file that is in place is always safe while the files of known packages are located |
| Runs.InvariantWhileServing | internal/server/server.go:755-933 | over any interleaving of steps of requests the invariant holds as long as what deletions forget spares unqueued records; `Managing.Manager` shows its own requests to be such |
| Runs.CopiesOfSettledMatch | internal/server/scan.go:550-569 | all copies of a package neither queued, deleted nor in conflict have its exact bytes |
| Runs.DeletionIsSafe | internal/server/limit.go:22-52 | with names apart, a deletion forgets only files of records it queued |
| Recovery.VerifyIsAccurate | internal/server/scan.go:257-359 | opening only new and changed files enters the same records as opening all, and remembers every file as it is |
| Recovery.AdoptionMeans | internal/server/scan.go:151-177 | after an upgrade a stored record vouches for its file with its size and no time, and is not queued, unless another has its name; all others are queued |
| Recovery.OpenedMeans | internal/server/scan.go:271-299 | a file is opened if and only if it is not remembered with its size and either its time or none |
| Recovery.UnchangedIsLeftAlone | internal/server/scan.go:257-299 | walking through an unchanged directory opens no file, queues no record and changes nothing |
| Recovery.WalkIsAccurate | internal/server/scan.go:188-231 | so does the whole walk, batch by batch |
| Recovery.DropVanishedIsAccurate | internal/server/scan.go:387-435 | then the files table equals the directory |
| Recovery.SettleAllSettlesAll | internal/server/scan.go:441-547 | settling the queue settles every record, empties the queue, and removes exactly the condemned files |
| Recovery.ScanReachesResult | internal/server/scan.go:50-92 | both kinds of scan reach the declarative result |
| Recovery.UnchangedScanIsFree | internal/server/scan.go:50-78 | a routine scan of an unchanged directory with nothing queued leaves everything as it is and settles nothing |
| Guarantees.RoutineRefinesFull | internal/server/scan.go:50-104 | a routine scan ends with the records, files, directory, change count and trims of a full one |
| Guarantees.OnlyQueuedRecordsChange | internal/server/scan.go:523-538 | counting changes over queued records misses none |
| Guarantees.ScanTellsTheTruth | internal/server/scan.go:503-519 | after a scan every status is true of the directory, and only exact bytes of deleted packages were removed |
| Guarantees.ScanEndsQuiet | internal/server/scan.go:76-91 | after a scan only deletions can be left to retry |
| Guarantees.SecondScanChangesNothing | internal/server/scan.go:50-92 | scanning an unchanged directory again changes no record |
| Guarantees.RemovalKeepsInv | internal/server/limit.go:19-53 | at every point of a deletion the invariant holds if and only if what it has forgotten spares the records it does not queue |
| Guarantees.NamesApartSpares | internal/server/limit.go:22-32 | with names apart a deletion spares all other records |
| Guarantees.RemovedMeans | internal/server/limit.go:19-53 | a deletion removes and forgets exactly the names remembered for its targets or recorded in them, without a path in them and not held fast, and marks and queues exactly its targets |
| Guarantees.DeletionRecovers | internal/server/limit.go:16-53 | wherever a deletion stops, after the next scan its targets are deleted, none of their exact bytes is left, and of what it had not removed only exact bytes of deleted packages go |
| Guarantees.RemovalKeepsQuiet | internal/server/limit.go:19-53 | wherever a deletion stops, nothing is left to do but retry deletions |
| Guarantees.RemovalStaysInService | internal/server/limit.go:19-53 | with names apart, whatever the standing, it holds at every point of a deletion, and names stay apart |
| Guarantees.JournaledUploadRecovers | internal/server/server.go:831-836 | stopped after the journal: the next scan says missing if and only if nothing holds the package |
| Guarantees.FileInPlaceSurvives | internal/server/scan.go:550-569 | a file in place is never touched, and its record is stored if and only if no other copy differs |
| Guarantees.LinkedUploadRecovers | internal/server/server.go:837-868 | stopped after link, publication or receipt: the bytes are in place, and the package is stored if and only if no other copy differs |
| Interruption.MidScanResumes | internal/server/scan.go:29-41 | every state a scan of either kind can stop in keeps the invariant, the trust its kind needs and the promised result |
| Interruption.InterruptedScanResumes | internal/server/scan.go:29-41 | a scan of either kind, stopped anywhere and run again over what is left in the same order, ends like one never stopped |
| Interruption.KnownScanResumesInAnyOrder | internal/server/scan.go:29-41 | from a state in which every package has a record, the files may be listed again in any order |
| Interruption.WalkedScanKnowsAll | internal/server/scan.go:50-78 | from the end of the walk on, every state of a scan is one |
| Interruption.InterruptionLosesTrims | internal/server/scan.go:79-86 | the trims lost by an interruption do no harm if and only if those extensions are within their limits |
| Limits.SortVersions | internal/server/limit.go:63 | some ascending order of the same versions, ties open |
| Limits.VersionsOf | internal/server/limit.go:56-65 | each version once, oldest first |
| Limits.Kept | internal/server/limit.go:68-72 | the versions not deleted, newest first |
| Limits.Beyond | internal/server/limit.go:75-88 | all packages, in order, of a set of versions that is a cut: all but the newest keep; none if and only if the extension is within its limit |
| Limits.Outside | internal/server/limit.go:91-106 | true if and only if the version is not kept and keep strictly newer ones are; `Uploads.RefusalMeans` spells it out over the packages |
| Retention.TrimIsExact | internal/server/limit.go:110-128 | min(keep, before) versions stay, none older than a cut one, all platforms of a cut version go, every other record is untouched |
| Retention.OutsideMeansAlwaysCut | internal/server/limit.go:91-106 | a version is refused if and only if every cut after adding it would remove it |
| Retention.NeverCutExactly | internal/server/server.go:762-772 | no cut removes an added version if and only if fewer than keep others are newer or tied |
| Retention.AdmittedMeansSpared | internal/server/server.go:869-873 | without ties a version is refused if and only if its own trim would delete it |
| Retention.CutIsUniqueExactly | internal/server/limit.go:75-88 | there is one way to cut if and only if no cut version ties with a kept one |
| Retention.TiesAllowTwoCuts | internal/server/limit.go:75-88 | of two versions that differ in build metadata, a limit of one may cut either |
| Retention.CutExactly | internal/server/limit.go:75-88 | without ties a version is cut if and only if the limit's number of others are newer |
| Store.Store.Upgrade | internal/store/store.go:73-81 | whatever receipts and limits the database has, the state after an upgrade satisfies the invariant, with every extension marked for summary |
| Store.Store.Put | internal/store/store.go:113-120 | writes the record and marks its extension, so the cache stays right for the unmarked ones |
| Store.Store.RememberRow | internal/store/store.go:156 | an upsert keeps the row id, and ids stay unique |
| Store.Store.RememberFile | internal/store/store.go:147-158 | a package that held the name before is queued |
| Store.Store.Journal | internal/store/store.go:124-132 | record and queue entry in one step of the trail |
| Store.Store.Publish | internal/store/store.go:136-143 | record and remembered file in one step of the trail |
| Store.Store.Upload | internal/store/store.go:647-650 | the first receipt under a key stays |
| Store.Store.PutDeleted | internal/store/store.go:178-186 | every target is marked deleted and queued, no other record changes |
| Store.Store.MarkDeleted | internal/store/store.go:176-189 | the same as one step of the trail |
| Store.Store.ForgetFiles | internal/store/store.go:312-321 | exactly these rows go |
| Store.Store.ForgetAll | internal/server/scan.go:95-104 | every row and the trust go, every record is queued |
| Store.Store.List | internal/store/store.go:349-379 | each of the extension's records once, ordered by the characters of version and platform |
| Store.Store.FilesHolding | internal/store/store.go:283-309 | thousand keys at a time, the name of every file remembered for one of the keys, each once |
| Removal.EraseFiles | internal/server/limit.go:36-48 | removes the entries without a path that the file system lets go, counts the others, and passes only through states with some of them gone; `Guarantees.RemovedMeans` and `Removal.StuckMeans` say which names those are |
| Removal.FilesToRemove | internal/server/limit.go:20-32 | the files remembered for the targets and the targets' own file names, each once |
| Removal.StuckMeans | internal/server/limit.go:37-48 | what is left to retry are those names that are there and held fast |
| Removal.Remove | internal/server/limit.go:19-53 | targets deleted and queued, their files removed and forgotten; every state on the way is one `DeletionRecovers` speaks of |
| Removal.OnTheWayInService | internal/server/limit.go:19-53 | with names apart, every state `Remove` passes through keeps the standing |
| Removal.Trim | internal/server/limit.go:110-128 | deletes a cut of the extension's versions for its limit and reports them and their packages |
| Removal.TrimReachesLimit | internal/server/limit.go:110-128 | afterwards the extension is within its limit and the others keep what they had |
| Removal.TrimStep | internal/server/scan.go:79-86 | trims of several extensions add up in any order |
| Removal.BytesAreConserved | internal/store/store.go:398-401 | a deletion lowers the stored bytes by what it reports and raises the deleted bytes by the sizes of all targets |
| Removal.TrimReport.Add | internal/server/limit.go:140-152 | one extension, its versions, packages and stored bytes are added |
| Removal.LimitApplies | internal/store/store.go:203-223 | a limit that is set applies to its extension, its removal restores the library's, and no other extension notices |
| Removal.SetExtensionLimit | internal/server/limit.go:238-273 | the report counts exactly a cut of the extension's versions for the new limit; a dry run changes nothing, a real call deletes exactly that cut and passes only through states on the way to it |
| Removal.Select | internal/server/server.go:906-916 | the targets are the packages not deleted up to the version, with the bytes of the stored ones |
| Removal.DeleteVersions | internal/server/server.go:885-933 | answer, with the files that could not be removed, and new state for unknown extensions, dry runs and deletions |
| Removal.DeletesThrough | internal/server/server.go:908-916 | afterwards the extension has exactly its versions newer than the one named |
| Uploads.Upload | internal/server/server.go:755-879 | which answer is given when, the new state for each, and every state passed through; `Uploads.AnswersMean` and `Uploads.AnswersLeave` spell the answers out |
| Uploads.RefusalMeans | internal/server/limit.go:91-106 | a version is refused if and only if the extension does not have it and has as many newer ones as its limit keeps; a version it has never is |
| Uploads.AnswersMean | internal/server/server.go:755-868 | the condition of each answer over records, receipts and directory, in the order they are tried |
| Uploads.AnswersLeave | internal/server/server.go:773-868 | a refusal leaves the receipts as they were; an accepted upload leaves its record, and under its idempotency key its own receipt |
| Uploads.UploadIsNotReopened | internal/store/store.go:136-158 | the next routine scan does not open the file an upload published or confirmed |
| Uploads.Confirm | internal/server/server.go:793-818 | the 200 path: record published as stored, receipt saved |
| Uploads.Create | internal/server/server.go:830-868 | the 201 path: journal first, then link, publication and receipt; a taken name leaves the journal entry |
| Uploads.NewUploadSurvives | internal/server/server.go:831-868 | stopped anywhere after the link, before its trim: the bytes are there after the next scan, stored if and only if no other copy differs |
| Uploads.TrimmedUploadSurvives | internal/server/server.go:831-879 | wherever its trim stops, a version not cut itself is in place after the next scan if and only if the trim has not yet removed its file, which it does only if another package that is cut has its name; then it is stored if and only if no other copy differs |
| Uploads.AnsweredFileIsGoneExactly | internal/server/server.go:830-879 | an upload answered 201 has lost its file to its own trim if and only if the file can be removed and the cut has its version or that of another package under its name |
| Uploads.FileIsGoneForeseeably | internal/server/server.go:755-879 | without ties, the same in terms of the inventory before the upload |
| Uploads.ConfirmedUploadSurvives | internal/server/server.go:793-818 | the same for a 200 answer |
| Uploads.AnsweredUploadIsStored | internal/server/server.go:755-879 | answered 200 or 201, an upload of a record neither queued nor deleted is stored with its exact bytes after any next scan if and only if it was in place, or its own trim takes neither its version nor its file |
| Uploads.PublishingInService | internal/server/server.go:830-868 | every state of a new upload keeps the standing, trusted files or not, whatever names it uses |
| Uploads.ConfirmedInService | internal/server/server.go:793-818 | so is every state of a confirmation |
| Uploads.CreatedIsSent | internal/server/server.go:762-873 | a 201 answer is one step of the runs `Sync` speaks of |
| Bitsets.SettingAddsOne | internal/server/scan.go:580-591 | setting a bit adds one member and no other |
| Bitsets.GrowingAddsNothing | internal/server/scan.go:582-584 | growing the slice adds none |
| Bitsets.Bitset.Set | internal/server/scan.go:580-591 | adds the id and tells whether it was absent |
| Bitsets.Bitset.Has | internal/server/scan.go:592 | tells membership, also beyond the slice |
| ScanSteps.SameCountMeansNoneVanished | internal/server/scan.go:387-391 | as many rows as distinct found rows means that none has vanished |
| ScanSteps.SettlingAddsUp | internal/server/scan.go:441-547 | settling batch after batch settles their union, leftovers included |
| Scanning.Judge | internal/server/scan.go:550-569 | the loop computes `Inventory.Settled`, which is what `Inventory.SettledMeans` says |
| Scanning.Scanner.Mark | internal/server/scan.go:571-575 | the set holds exactly the rows of the files visited, and `seen` is their number |
| Scanning.Scanner.AdoptRecord | internal/server/scan.go:162-175 | a stored record's file is remembered unless its name is taken; any other record is queued |
| Scanning.Scanner.Adopt | internal/server/scan.go:112-184 | all records in row order; each commit leaves a state adoption can be resumed from |
| Scanning.Scanner.Classify | internal/server/scan.go:271-299 | splits a batch into unchanged, adopted and changed files, and marks the first |
| Scanning.Scanner.Open | internal/server/scan.go:325-350 | new package entered, both keys queued, row updated and marked |
| Scanning.Scanner.Verify | internal/server/scan.go:257-359 | one batch is one transaction `Protocol.VerifyTx`, or nothing |
| Scanning.Scanner.WalkDirectory | internal/server/scan.go:188-231 | the whole walk, and the states between batches |
| Scanning.Scanner.VanishedRows | internal/server/scan.go:393-410 | the rows of a range that were not found |
| Scanning.Scanner.ForgetVanished | internal/server/scan.go:387-435 | shortcut and ranges forget exactly the vanished files and queue their packages |
| Scanning.Scanner.SettleRecords | internal/server/scan.go:504-539 | each record settled once, changed and grown ones counted |
| Scanning.Scanner.SettleBatch | internal/server/scan.go:503-545 | leftovers first; one that cannot be removed stops the scan with the tables unchanged |
| Scanning.Scanner.NextBatch | internal/server/scan.go:447-462 | the first keys of the queue by the characters of their key texts, a whole batch if there are as many |
| Scanning.Scanner.Settle | internal/server/scan.go:441-547 | terminates with the queue empty and all counts right, or stops at a leftover that cannot be removed |
| Scanning.PassingIsMidScan | internal/server/scan.go:29-41 | the scanner's states are those `Interruption` resumes from |
| Reconciling.Examine | internal/server/scan.go:50-78 | the scan before its trims equals `Recovery.Scan`, and every state of a scan of either kind can be resumed from |
| Reconciling.TrimGrown | internal/server/scan.go:79-86 | each grown extension trimmed once, the count raised by the packages deleted, every state at rest |
| Reconciling.Reconcile | internal/server/scan.go:50-92 | when it succeeds, the new state, the changed count and trust, and a queue of exactly the records its trims deleted; for either kind, success or failure, every state on the way |
| Reconciling.ScanEndsAtRest | internal/server/scan.go:76-91 | after the scan only deletions are left to retry and names are apart |
| Reconciling.SecondReconcileFindsNothing | internal/server/scan.go:50-92 | a second reconciliation of an unchanged directory returns 0 and empties the queue |
| Reconciling.MidScanIsUsable | internal/server/scan.go:50-104 | every state in which a full scan fails, and a routine one of a usable state, is one that requests can go on from |
| Reconciling.SettledScanIsDone | internal/server/scan.go:76-92 | once a scan has settled everything, a scan of any kind may follow and changes no record |
| Reconciling.LateInterruptionLosesEveryTrim | internal/server/scan.go:76-86 | stopped between settling and trimming, from any state and with any kind of scan after it, all trims owed are lost; harmless if and only if within limits |
| Gate.OpenMeansSucceeded | internal/server/server.go:316-325 | however retries overlap, the gate is open only after a reconciliation of this process has succeeded |
| Gate.OpenGateCloses | internal/server/server.go:946-958 | an open gate closes if and only if a retry that read a failed scan finishes unsuccessfully |
| Gate.AloneGateStaysOpen | internal/server/server.go:946-958 | over every run with one retry at a time, an open gate stays open |
| Gate.OverlapClosesAnOpenGate | internal/server/server.go:946-958 | a concrete run of two overlapping retries that closes the gate after the last reconciliation succeeded |
| Managing.Manager.Startup | internal/server/server.go:150-176 | the startup scan decides the gate; from a sound state an open gate means that nothing is left to do but retry deletions, and a failed scan can be resumed |
| Managing.Manager.Arrive | internal/server/server.go:946-951 | a requested reconciliation is refused while the startup scan runs |
| Managing.Manager.Retry | internal/server/server.go:938-953 | a requested reconciliation, of either kind, goes through unless a leftover cannot be removed; it settles a sound state, or fails with every state on the way fit to resume from and for requests; the gate stays as it is |
| Managing.Manager.Finish | internal/server/server.go:954-957 | only a retry that read a failed scan decides the gate |
| Managing.Manager.AfterScan | internal/server/server.go:317-325 | a request is served if and only if the gate is open, and then the trail holds a completed reconciliation of this process |
| Managing.Manager.Upload | internal/server/server.go:755-879 | 503 and nothing changed behind a closed gate, otherwise the answer and state of `Uploads.Upload`; every state of it keeps the standing unless its own trim removes while names are not apart |
| Managing.Manager.DeleteVersions | internal/server/server.go:885-933 | the same for a deletion; a refusal, a dry run and an empty deletion leave everything as it is |
| Managing.Manager.SetExtensionLimit | internal/server/limit.go:238-273 | the same for a change of an extension's limit, with the report of what it cuts, dry run or not |
| Managing.Manager.SetLibraryLimit | internal/server/limit.go:185-221 | the same for a change of the library's limit, with the report and the cuts, dry run or not |
| Summaries.MarkingKeepsCache | internal/store/store.go:65-72 | marking what changes keeps the cache right for the rest |
| Summaries.RowMeans | internal/store/store.go:525-551 | what every total of a row counts, over the packages table |
| Summaries.LatestMeans | internal/store/store.go:535-539 | the latest version is not deleted unless all are, and no other such version is newer |
| Summaries.LatestStep | internal/store/store.go:535-539 | taking over when newer, or kept over deleted, keeps the latest version the latest |
| Summaries.TotalsStep | internal/store/store.go:540-550 | one more record adds its share to every total |
| Summaries.Tally.Add | internal/store/store.go:525-551 | the accumulator agrees with the records added |
| Summaries.Tally.Row | internal/store/store.go:631-636 | the row is the declarative summary of the records |
| Catalog.Summarize | internal/store/store.go:597-618 | the row of one extension is right, and absent without records |
| Catalog.RefreshSummaries | internal/store/store.go:564-645 | with records written in between by others, terminates with no extension marked and every row right |
| Catalog.CountTotals | internal/store/store.go:393-401 | the sums over rows are the counts over packages |
| Catalog.TotalsMean | internal/store/store.go:393-401 | what every total counts, over the packages table |
| Catalog.OverMeans | internal/store/store.go:253 | the extensions over a limit are those without one of their own that have more versions not deleted |
| Catalog.NextPage | internal/store/store.go:253 | each page of the query is the next stretch of the extensions over the limit |
| LibraryLimit.ExtensionsOver | internal/store/store.go:246-280 | visits exactly the extensions over the limit, each once, in the order of the characters of their IDs, with refreshes in between; the report counts the files left by extension |
| LibraryLimit.VisitNext | internal/server/limit.go:205-215 | one visit leaves all extensions not visited yet as they were |
| LibraryLimit.SetLibraryLimit | internal/server/limit.go:185-221 | every extension that follows the library ends within the limit, as if all were trimmed directly; a dry run changes nothing and reports by the same formula; the files left are counted by extension as of before |
| LibraryLimit.PreviewIsExact | internal/server/limit.go:183-184 | a preview names what any application deletes if and only if no version it cuts ties with one it keeps |
| LibraryLimit.PreviewCounts | internal/server/limit.go:183-184 | whatever ties do, preview and application count the same extensions and versions |
| LibraryLimit.SamePickSameReport | internal/server/limit.go:185-221 | if the cut is a function of an extension's records, preview and application agree on cuts, counts and bytes, though the application has trimmed others by the time it visits one |
| LibraryLimit.TrimsConserveBytes | internal/server/limit.go:140-152 | applying it lowers the stored bytes by what it reports and raises the deleted bytes by all it cuts |
| Workers.Each | internal/server/scan.go:595-606 | over all goroutines every index below n is called exactly once and no other |
| Sync.Newest | internal/syncer/sync.go:346-362 | wants all but a cut of the versions offered |
| Sync.Report.Plan | internal/syncer/sync.go:270-281 | skipped are the positions held as stored with the same prerelease flag, beyond the limit the others not wanted, queued the rest |
| Sync.Report.TransferAll | internal/syncer/sync.go:282-312 | in whatever order transfers end, each outcome is counted once |
| Sync.Report.Process | internal/syncer/sync.go:246-312 | every artifact of an extension is counted exactly once: what is planned by position, and what is sent by how it ends |
| Sync.Run | internal/syncer/sync.go:228-313 | the run ends at the first cancelled extension; the counts add up to the artifacts discovered plus the extensions before it that could not be discovered, plus it; in discovery mode to the latter only |
| Sync.NeverRefused | internal/syncer/sync.go:270-281 | no version the client wants is ever refused, whatever uploads, trims and deletions come before |
| Sync.SyncConverges | internal/syncer/sync.go:346-362 | without ties a run that sends wanted versions only, and all that are missing, ends with exactly the wanted versions kept |
| Sync.QueueCoversWanted | internal/syncer/sync.go:270-281 | the planned queue holds wanted versions only, and every wanted version is queued or stored |
| Sync.PlannedNeverRefused | internal/syncer/sync.go:270-300 | no upload of the planned queue is refused, in whatever order it is sent |
| Sync.PlannedSyncConverges | internal/syncer/sync.go:264-362 | without ties, sending the planned queue in any order ends with exactly the wanted versions kept |
| Counterexamples.DeletingOneBreaksTheOther | internal/server/server.go:906-931 | a concrete run of uploads, a scan and a deletion that breaks the invariant through a shared file name, unnoticed by every routine scan and found by every full one |
| Counterexamples.UploadLosesItsOwnFile | internal/server/server.go:830-879 | a concrete run in which an upload is answered 201 and recorded as stored while its own trim has removed its file |
| Counterexamples.FailedVerificationLeavesGateOpen | internal/server/server.go:946-958 | a concrete run in which a full reconciliation fails with all trust lost and the gate stays open |
| Counterexamples.AcceptedYetConflicting | internal/server/server.go:783-868 | a concrete upload answered 201 that the next scan calls a conflict |
| Counterexamples.InterruptionKeepsTooMany | internal/server/scan.go:79-86 | a concrete interrupted scan after which too many versions stay |

## Left out

- HTTP, JSON, sessions, proxies, status pages, audit entries, disk space, configuration: plumbing around the protocol.
- ZIP and XML inspection and hashing: `Contents` is what inspection reports about a file's bytes.
- Failures of SQL statements and file operations: a method that stops there leaves a state of its trail, and the
  theorems speak of all of those. Refused removals and links are modelled (`stuck`, `forgets`, `linkFails`).
- Descriptive metadata (display name, engine, source, timestamps, who deleted, managed flag) and the refresh of it for
  known bytes; the name, display names, platforms and update time of a summary row; the prerelease flag on the server.
- Staging files of uploads, and directory entries that are not regular VSIX files; a record whose file name is taken
  by such an entry.
- Progress counts of a scan, and the overlap of listing with database work: batches are a parameter, in any order and
  of any size.
- Scanning.Scanner.ForgetVanished: covers row ids up to an upper bound of those in use rather than their exact
  maximum.
- Catalog.Summarize: feeds the rows of one extension at a time, where the code feeds those of a batch side by side.
- Catalog.RefreshSummaries: others write finitely many records meanwhile; endless writers could keep it busy.
- A kept set never above the limit: pending, confirmed and newly conflicting records count as kept but trigger no
  trim, so the claim is made after a trim only.
- Resuming an interrupted full scan by a routine one: it would adopt by size alone what the full scan meant to open.
- Sync.Report.Process: takes the answers about an extension's keys as one lookup, where the code asks 500 keys at a
  time.
- Managing.Manager.Upload: reads the gate and runs as one call, as do the other requests, where in the code the gate
  may close between the two. What is proved of the states passed through does not depend on the gate.
- Sync.PlannedSyncConverges: every upload ends in 201 with a complete trim; a failed one leaves its version out until
  the next run. `Sync.PlannedNeverRefused` needs none of this.
- Retries, gallery decoding, idempotency keys and report files of the sync client.
