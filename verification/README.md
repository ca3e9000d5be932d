# LiteSync, modelled and proved in Dafny

A model of the parts of the LiteSync server and web client that users' data depends on, and
proofs of what those parts promise. Run it with `dafny verify dfyconfig.toml`.

The object store (`Tables`, `Requests`, `Steps`) is one value holding all tables, with one
function per operation that says what the operation does to it. `Service` is the service as a
class over mutable tables; each of its methods is proved to compute exactly its step function,
loops, rollbacks and crash points included. Because one step is one committed transaction under
the service lock, a run is a sequence of steps, and the theorems about runs are about the step
functions:

- `Effects` shows that every operation has one of three effects on objects; `Runs` proves from
  that the life cycle, the revisions, the density of the change log, and that the log replays to
  the snapshot; `Followers` proves the same of a client that pages through it while writes go on;
- `Guards` and `Refusals` prove whose writes are let in, and that every request is refused for the
  reason it is given and for no other; `Outcomes`, `Moves` and `Metadata` what a committed request
  leaves of its object, `Records` that a deletion and a restore bring back the right content;
- `Completion` proves that the metadata migration can be brought to its end, and what is stale in it;
  `Policies` what the configured retention of versions, deletions and changes keeps;
- `Tombstones`, `Idempotence`, `Privacy`, `Stored`, `Contents`, `Generations`, `Newest` prove that
  deleted objects do not come back by accident, that retries do not write twice, that completed
  metadata encryption is private and absorbing, that no reference dangles and what is served is
  what was recorded, and what the validator and pruning can rely on; `Transitions` is about the
  migrations' own states, `Retries` is about requests that arrive again at any later time, and
  `Scenarios` and `RetryScenarios` hold short histories that end in a failure;
- `Blobs`, `Budget`, `Collector` cover the blob files, the history byte budget and the two-round
  collection of unreferenced files.

`BlobIdMigration`, `PlanV6` and `SchemaV6` are the two resumable migrations, proved in the form
"stop anywhere, run again, same result". `BlobIdStatus` says when the status of the first is
wrong, `ResumeV6` when exactly the second resumes, `HistoryV6` what becomes of the old history,
`ConservedV6` that every old row is carried over field by field, `MigratedV6` that a migrated
repository is one like any other, and `MigrationScenarios` shows the failures on small examples. `EditScript`, `Furthest` and `Diff` are the line diff: validity and
minimality of the O(ND) search with its array, trace and backtracking.
`ShareFrame` and `PaddedFrame` are the two frame parsers. `Envelope`, `Bytes` and `Options` are
shared.

## What the code does differently from what it says

Each of these is proved, with the exact condition where there is one.

- A retried rename is not answered with the saved result. The metadata generation is compared
  before the operation id is looked up (`internal/sync/rename.go:90-104`), so the retry is
  refused with a generation mismatch, or with not found when the visible name changed
  (`Retries.RenameAgain`; a run: `RetryScenarios.SecondRenameIsNotFound`).
- Delete does not look at operation ids. A second change under the same id is published exactly
  by a delete that reuses one (`Idempotence.OnlyDeleteRepeats`, `RetryScenarios.OneIdTwoChanges`).
- Operation ids are looked up under the object that has the name now. No retry writes, deletes,
  restores or renames its own object a second time, in any run; but a late retry can be taken for
  another object: an upload for a new one, when its name has become free and the id is the
  server's to draw; and an upload, delete or rename for whatever has come to the name and stands
  at the revision, or metadata generation, the request was made against (`Retries`, with the exact
  conditions; runs: `RetryScenarios.CreatedTwice`, `RetryScenarios.SecondDeleteTakesAnother`).
- Restore does not check that the content it goes back to is stored, nor the envelope floor
  (`Stored.RestoreKeepsStored`, `Stored.CollectedPriorDangles`, `Privacy.RestoreMayUndercut`; runs
  that end so: `Scenarios.RestoreDangles`, `Scenarios.RestoreUndercuts`).
- A failed rename while repairing a damaged blob leaves a referenced blob without a file; this
  is the only way an upload can (`Stored.UploadKeepsStored`, `Scenarios.FailedRepairDangles`).
- A header generation of 2^63 or more reads as negative, and the guard on uploads looks only at
  objects whose stored generation is positive. The validator's generation check fails after an
  upload exactly when the new signed generation is below one that stays on record
  (`Generations.UploadGenerationCheck`, `Scenarios.HugeGenerationFails`).
- A deleted note is no note any more: the retention that runs in the background takes the name of an
  object from its live row, and looks at the bare id when there is none, so in a plain vault the
  history of a deleted note falls under the policy of attachments, and the content its deletion
  remembers is given up when that says so (`Policies.RetentionIsExact`,
  `Policies.DeletedNoteIsAnAttachment`; a run: `Scenarios.DeletedNoteIsForgotten`).
- The status of the blob id migration can say "nothing left" while references remain, and can ask
  for ever after a crash between repointing and marking or when there was nothing to rename; when
  exactly is `BlobIdStatus.StatusAfterAttempt`, and `StatusAsksForEver`.
- An undone blob rename loses the file of rows that were on the keyed name already
  (`BlobIdMigration.UndoneRename`, `MigrationScenarios.UndoneRenameDangles`); the next run that
  succeeds brings it back.
- The move to schema 6 is resumable exactly when the old ids are well formed and distinct
  (`ResumeV6.ResumesExactlyWithGoodIds`). An id that has to be replaced gets another random id in
  every attempt: a live row then blocks every later attempt, because its name is taken, and a
  deleted row leaves a second tombstone (`ReplacedIdsDoNotResume`, `ReplacedTombstonesAreDoubled`).
- A history row is neither counted as an orphan nor inserted exactly when its id is well formed
  and no row has it (`HistoryV6.StrayHistoryIsLeftBehind`, `MigrationScenarios.StrayHistoryIsLost`).
- The padding of a padded frame is not checked to be zeros (`PaddedFrame.UnframeAcceptsFrames`).

## Reading the model

Hashes, keyed blob names, path normalisation, the path check and the note test are functions the
model does not look into (`Tables.Oracle`); `Scenarios` uses one that is spelled out. Random ids
are an argument, in the order they are drawn; so are clocks. A crash or I/O error is an argument too: `Fault` for uploads, `Strike` for
the blob id migration, `Cut` for the schema migration, a number of journal entries for the beginning
of a metadata migration; and the disk may spoil a stored file at any time (`Damage`). The two unique indexes on live objects are
`UniqueAllows`; a row they refuse undoes its transaction. Where SQL leaves an order open, the
model picks any.

Integers are unbounded, except that the generation in an envelope is read as a signed 64-bit
number, as the server reads it, and that frame lengths have the width of their fields.

## Model

| member | source | states |
|---|---|---|
| `Diff.DiffLines` | web/src/diff.ts:10-45 | For the lines of the two texts, the only lists of newline-free lines that join to them: any list returned is a shortest edit script between them; nothing is returned exactly when they differ by more than one inserted block and every script has more than 2000 edits |
| `Diff.Trim` | web/src/diff.ts:14-21 | The trimmed prefix and suffix are common, and trimming uses one text up exactly when one text is the other with a block inserted |
| `EditScript.TrimKeepsDistance` | web/src/diff.ts:14-23 | Trimming a common prefix and suffix loses no optimality: for every d, the middles need d edits exactly when the whole texts do |
| `Diff.Myers` | web/src/diff.ts:49-111 | The operations rewrite one list into the other with the fewest edits; null exactly when neither list is empty and their distance exceeds MAX_D |
| `Diff.Search` | web/src/diff.ts:59-82 | Every round before the corner is found misses the corner, the trace holds the frontier every round started from, and a search that fails has gone through all rounds |
| `Diff.Round` | web/src/diff.ts:64-79 | One round overwrites the frontier array in place: each diagonal gets its furthest point from the round before, and no cell that is still needed is lost |
| `Diff.WriteKeeps` | web/src/diff.ts:74 | Writing a cell of a round disturbs neither the round before (other parity) nor the cells written so far |
| `Diff.Backtrack` | web/src/diff.ts:84-110 | Walking the saved trace back yields, read in reverse, a valid script with exactly trace.length - 1 edits; every index stays in range |
| `Diff.Annotate` | web/src/diff.ts:26-44 | The operations written out with the lines' texts are a script between the two lists with as many edits |
| `Furthest.NothingGetsFurther` | web/src/diff.ts:62-81 | Furthest-reaching: no script with d edits that ends on a diagonal gets further than round d's point there, points beyond the grid included |
| `Furthest.NoCornerMeansFarther` | web/src/diff.ts:75-82 | As long as no round has reached the corner, every script has more edits than rounds gone through |
| `Furthest.FirstCornerIsExact` | web/src/diff.ts:75-78 | The first corner found is the corner itself, never a point past it |
| `Furthest.PointBound` | web/src/diff.ts:59-74 | Stored points stay within the number of old lines plus the round, so 32 bits suffice |
| `Diff.JoinSplit` | web/src/diff.ts:11-12 | Joining the split lines with newlines gives the text back |
| `Diff.SplitFindsLines` | web/src/diff.ts:11-12 | Newline-free lines that join to a text are found by splitting it: there is one way only to split a text |
| `Diff.ShortTextsAreNeverCutOff` | web/src/diff.ts:8 | Two texts of at most 2000 lines together are never given up on |
| `ShareFrame.UnbundleShare` | web/src/crypto.ts:326-364 | Reads back every part of every documented LSN2 and LSN1 frame; whatever it reads as named re-encodes to the same bytes; a malformed frame degrades to its own bytes as content |
| `ShareFrame.UnframeShareContent` | web/src/crypto.ts:299-307 | Inverts the LSN1 layout, accepts nothing else, and degrades to bare content |
| `ShareFrame.ParseBundle` | web/src/crypto.ts:336-360 | The cursor loop computes the parse of the documented grammar, and throws exactly where the grammar fails |
| `ShareFrame.Parse2Inverts` | web/src/crypto.ts:309-317 | Parsing a written bundle gives back name, attachments and content, for everything within the length fields |
| `ShareFrame.Parse2Back` | web/src/crypto.ts:336-360 | Whatever is accepted as a bundle writes back to the same bytes |
| `ShareFrame.FramesAreUnambiguous` | web/src/crypto.ts:309-317 | No bytes are two different bundles |
| `PaddedFrame.UnframeInverts` | web/src/crypto.ts:126-137 | A padded content comes back exactly, whatever it was padded with |
| `PaddedFrame.UnframeAcceptsFrames` | web/src/crypto.ts:130-137 | Exactly the frames are accepted, each with its one content |
| `ServiceModule.Service.Upload` | internal/sync/service.go:416-670 | Takes the store exactly where the step function says, for every request and every crash point; the answer matches the decision, and a refusal by a deletion names a deletion that bars the name |
| `ServiceModule.Service.DecideUpload` | internal/sync/service.go:446-582 | The checks in the code's order decide as specified: refused, in effect already, or to be committed as this head |
| `Guards.GuardIsExact` | internal/sync/service.go:673-706 | A write is let in exactly when protocol, format epoch, repository epoch and key epoch are absent or right and the migration allows the writer; each refusal says which of these fails first |
| `Guards.CommittedIsWelcome` | internal/sync/service.go:673-706 | Every committed upload, delete, rename and restore met all of these conditions |
| `Refusals.UploadIsAnswered` | internal/sync/service.go:446-582 | An upload is refused only for the reason given, committed only without any reason and when not in effect, and answered as in effect exactly when the object has the content or the operation and the request is neither malformed nor forbidden |
| `Outcomes.UploadOverLeaves` | internal/sync/service.go:496-600 | A committed upload over an object was made against its revision and leaves it one revision on with exactly the uploaded content, names and metadata kept |
| `Outcomes.UploadNewLeaves` | internal/sync/service.go:525-600 | A committed upload to a free name makes one object, at revision 1, of an id no object ever had, which no deletion and no key stood against |
| `ServiceModule.Service.CommitUpload` | internal/sync/service.go:601-669 | Blob first, then one transaction, then collection: at every crash point the tables are either untouched or fully written |
| `ServiceModule.Service.ResolveNewFileId` | internal/sync/service.go:717-742 | A client's id if no object ever had it, else the first of four random ids no object ever had |
| `ServiceModule.Service.FindTombstone` | internal/sync/service.go:709-714 | Finds a deletion exactly when the name or its canonical key is barred; by name first, of several one with the highest deletion revision |
| `ServiceModule.Service.Delete` | internal/sync/service.go:863-955 | Takes the store exactly where the step function says; a repeated delete is answered with the recorded deletion |
| `Refusals.DeleteIsAnswered` | internal/sync/service.go:863-895 | A delete is refused only for the reason given, and neither committed nor in effect with one |
| `Outcomes.DeleteLeaves` | internal/sync/service.go:893-963 | A committed delete takes exactly the live object of the name at the given revision; the deletion bars its names and is kept for the configured days, or without end |
| `ServiceModule.Service.Rename` | internal/sync/rename.go:47-178 | Takes the store exactly where the step function says; a unique index that refuses the head undoes everything |
| `Refusals.RenameIsAnswered` | internal/sync/rename.go:47-140 | A rename is refused only for the reason given, committed only without any, and known by its operation id exactly while its metadata generation is still the object's |
| `Outcomes.RenameLeaves` | internal/sync/rename.go:127-178 | After a committed rename the object is found under the new name a metadata generation on, with the metadata given or else what it had, and is otherwise what it was |
| `ServiceModule.Service.Restore` | internal/sync/restore.go:51-215 | Takes the store exactly where the step function says |
| `Refusals.RestoreIsAnswered` | internal/sync/restore.go:51-140 | A restore is refused only for the reason given, committed only of a deletion and without any, and in effect exactly when its operation is logged or its object lives |
| `Outcomes.RestoreLeaves` | internal/sync/restore.go:113-215 | A committed restore takes exactly that deletion away and leaves its object under the given name, a revision on, with the content the deletion remembers |
| `Outcomes.LogTellsOfStep` | internal/sync/service.go:624-633 | Every committed step is told in the log by its own action, time and operation id |
| `ServiceModule.Service.AckSequence` | internal/sync/restore.go:285-295 | A device's acknowledged sequence only rises, to at least the one given; no other device is touched, and what every active device had confirmed stays confirmed |
| `ServiceModule.Service.RenewLease` | internal/sync/meta.go:253-271 | Only the owner, or anyone when there is none, renews; until the new lease runs out nobody else is given the migration and no operator takes it away; a refusal changes nothing |
| `ServiceModule.Service.Snapshot` | internal/sync/service.go:1169-1187 | Exactly what the ledger calls live, under names that differ, and the sequence after which the change feed has nothing to tell |
| `ServiceModule.Service.GetChanges` | internal/sync/service.go:1090-1113 | A page of the log after the cursor, or a demand to start over below the watermark |
| `Runs.ReplyIsExact` | internal/sync/service.go:1090-1113 | A client is told to start over exactly when changes after its cursor were given up; else it gets the next changes in sequence, as many as it asked for or as there are, and whether there are more |
| `ServiceModule.Service.BeginE2eeMigration` | internal/sync/service.go:1190-1208 | From here on every plaintext upload is refused; beginning again changes nothing; an encrypted repository refuses |
| `ServiceModule.Service.CompleteE2eeMigration` | internal/sync/service.go:1211-1245 | Succeeds exactly when every live content is stored and encrypted, and raises the floor |
| `Transitions.AbortUndoesBeginContent` | internal/sync/service.go:1190-1262 | Giving up the encryption of contents undoes its beginning, but for the key epoch, which the next attempt raises again |
| `ServiceModule.Service.CompleteEnvelopeUpgrade` | internal/sync/service.go:1266-1289 | Succeeds exactly when every live content is stored with envelope 3 or later |
| `ServiceModule.Service.EnqueueMigrationJournal` | internal/sync/meta.go:197-223 | Adds exactly the objects and deletions still named in plain, as pending, but for what a crash left out, and leaves existing entries as they are |
| `ServiceModule.Service.BeginMetaMigration` | internal/sync/meta.go:124-194 | Refuses exactly as specified; begins, or carries on for the same owner; a crash leaves the migration begun and the journal short |
| `Completion.StaleSinceBeginning` | internal/sync/meta.go:168-186 | Right after a beginning no change is stale, and in every run from there the stale changes are exactly those published since under a name that is not the id |
| `Completion.MigrationCompletes` | internal/sync/meta.go:124-759 | From every sound plain vault that may begin and in which only names stand in the way: begun, each named object and deletion moved once in any order, verified and completed, it ends encrypted and private, every object known by its id with the given metadata and otherwise what it was |
| `Transitions.BeginAgainCatchesUp` | internal/sync/meta.go:143-194 | Beginning again after a crash ends with the journal, and all but the lease, of a beginning that went through |
| `ServiceModule.Service.TakeoverMigration` | internal/sync/meta.go:278-305 | Success makes the device the owner, only of a lease that ran out or was its own; from then on every other device's migration steps are refused, and nobody takes it before the new lease ends |
| `Transitions.OwnerChangesHands` | internal/sync/meta.go:147-305 | Of all steps only a takeover that names the migration or an operator's release changes its owner, and only once the lease has run out |
| `ServiceModule.Service.ExpireStaleMigrationLease` | internal/sync/meta.go:77-93 | A lease is released exactly when it is held and has run out; any device that names the migration may take it over then; otherwise nothing changes |
| `ServiceModule.Service.MigrateObjectMeta` | internal/sync/meta.go:312-397 | Takes the store exactly where the step function says: head, change and journal entry together or none |
| `Outcomes.MigrationLeaves` | internal/sync/meta.go:312-397 | A committed move leaves the object under its id with the given metadata and key, its content what it was |
| `Metadata.MetadataIsTheLastBrought` | internal/sync/rename.go:140-160 | In every run a live object's metadata is that of the last committed step that brought one along for it; without any, it is what it was |
| `ServiceModule.Service.ConvertTombstone` | internal/sync/meta.go:440-477 | The deletion is the same and so are all others; it bars exactly its file id and the client's hash from then on, and no name; a refusal changes nothing |
| `ServiceModule.Service.UnfinishedJournalCount` | internal/db/journal.go:127-133 | The number of pending and failed entries of the migration, zero exactly when its journal is finished |
| `ServiceModule.Service.VerifyMetaMigration` | internal/sync/meta.go:482-510 | Goes on to verification exactly when no entry is pending or failed |
| `Transitions.AbortUndoesBegin` | internal/sync/meta.go:514-543 | Giving up a metadata migration right after its beginning, however far the journal came, leaves the store exactly as it was |
| `ServiceModule.Service.MaxContentGeneration` | internal/db/tenancy.go:340-349 | The largest generation on record for an object, negative ones included; zero only when none is on record |
| `ServiceModule.Service.CountBadHeads` | internal/sync/meta.go:574-611 | Each counter of the one pass is the number of live objects that fail its check |
| `ServiceModule.Service.ValidateMetaMigration` | internal/sync/meta.go:555-673 | The report lists exactly the failing checks, each with its number of offenders, and is empty exactly when the repository validates |
| `ServiceModule.Service.CompleteMetaMigration` | internal/sync/meta.go:680-759 | Switches exactly when the verdict is to, and otherwise changes nothing |
| `Refusals.CompleteIsAnswered` | internal/sync/meta.go:680-745 | The switch is refused only for the reason given and made only when nothing in the vault, no share and no trace names anything |
| `ServiceModule.Service.PurgeTombstones` | internal/sync/restore.go:222-258 | Removes exactly the expired deletions that every active device has confirmed, and counts them |
| `Policies.PurgeTakesExactly` | internal/sync/restore.go:222-258 | In every run a purge takes exactly the deletions made at least the configured days ago that every device not revoked has confirmed; without days or without devices, none |
| `ServiceModule.Service.MinAckedSequence` | internal/sync/restore.go:260-282 | What is at or below the result is exactly what every active device has confirmed |
| `ServiceModule.Service.PruneVersionsTx` | internal/sync/service.go:1461-1490 | Drops exactly the versions retention gives up, never the newest, and reports exactly their blobs |
| `Policies.UploadTakesWhatIsUp` | internal/sync/service.go:634-650 | A committed upload takes versions of its own object only, and exactly those the policy for its name does not keep, the new version counted in |
| `ServiceModule.Service.GcBlobs` | internal/sync/service.go:1493-1511 | Removes exactly those of the given blobs that nothing refers to any more |
| `ServiceModule.Service.PruneHistoryBefore` | internal/sync/service.go:1415-1458 | Of the object the name stands for, drops exactly the versions below the revision but for its newest, and collects their blobs; a bad or unknown name changes nothing |
| `ServiceModule.Service.FileIdFor` | internal/sync/service.go:1063-1083 | A name stands for the live object that has it, else the one last deleted under it, else the known object whose id it is, else none |
| `ServiceModule.Service.MaintainHistoryRetention` | internal/sync/maintenance.go:168-210 | Object by object, ends where one pruning of everything due ends |
| `Policies.RetentionIsExact` | internal/sync/maintenance.go:168-210 | Of a live note in a plain vault exactly what the note policy keeps stays, of an attachment what its own keeps, and where names are encrypted what the longer limit of either keeps, count and age each; a deleted object of a plain vault falls under the attachment policy |
| `Policies.EitherPolicyIsKept` | internal/sync/service.go:353-363 | Where the server cannot tell a note from an attachment, whatever either policy keeps stays |
| `Policies.DeletedNoteIsAnAttachment` | internal/sync/maintenance.go:188-196 | A deleted note's last content is given up exactly when the attachment policy keeps a single version or its days are up |
| `Scenarios.DeletedNoteIsForgotten` | internal/sync/maintenance.go:188-196 | Upload and delete of a note, notes kept for 90 days and attachments for 30: after forty days maintenance takes its content, which the note policy still keeps |
| `ServiceModule.Service.NonHeadHistoryBytes` | internal/db/objects.go:496-504 | The bytes of all versions but each object's newest |
| `ServiceModule.Service.OldestNonHeadVersions` | internal/db/objects.go:507-525 | The oldest of those, oldest first, at most the limit, and all of them when there are fewer |
| `ServiceModule.Service.MaintainHistoryBudget` | internal/sync/maintenance.go:214-264 | Terminates with the remaining history within the budget; what went is oldest first, was needed version by version, and holds no object's newest |
| `ServiceModule.Service.MaintainChanges` | internal/sync/maintenance.go:393-450 | Trims by age and by count, moves the watermark with it, and leaves at most the allowed number of changes |
| `Policies.TrimTakesExactly` | internal/sync/maintenance.go:393-450 | A change is trimmed exactly when it, or a later one, is older than the configured days, or enough changes come after it |
| `ServiceModule.Service.UpsertHead` | internal/db/objects.go:162-188 | Refused exactly when another live object has its name or its non-empty key; names and keys stay unique, and the object is found under its name |
| `ServiceModule.Service.InsertChange` | internal/db/objects.go:531-549 | A log without gaps stays so, and whoever has read it up to now is told exactly this change |
| `ServiceModule.Service.FindChangeByOperation` | internal/db/objects.go:585-604 | Finds a change exactly when one of the object carries the non-empty operation id |
| `ServiceModule.Service.GetPriorContentHash` | internal/db/objects.go:453-464 | The hash of the newest version with a content, if any |
| `Records.RunKeepsRecorded` | internal/sync/service.go:634-650 | With history on, in every run and whatever is pruned, the content of every live object is on record under its revision |
| `Records.DeletionRecallsContent` | internal/sync/service.go:897-930 | In every run a committed delete records exactly the content hash its object had, with history on when that is not empty and with history off always |
| `Records.DeletionRecalls` | internal/db/objects.go:453-464 | In every state the deletion recalls the content of the last version on record that has one, and where none has, the object's |
| `Records.RestoreBringsBack` | internal/sync/restore.go:140-165 | Any steps after its deletion, a committed restore of it gives the object the content it had just before |
| `Effects.StepEffect` | internal/sync/service.go:416-955 | Every operation either writes and publishes one live object, deletes and publishes one, or changes no object |
| `Runs.RunKeepsSound` | internal/db/objects.go:162-392 | In every run an object has a head exactly when the ledger says live, is never both live and deleted, names and keys are unique, the log holds exactly the sequences after the watermark up to the head, and neither bound falls |
| `Runs.RunKeepsHistory` | internal/sync/meta.go:625-630 | In every run every version and change belongs to a known object, and no version is past the revision its object has reached |
| `Runs.VersionKeyIsFresh` | internal/db/objects.go:414-425 | A write or deletion records its version under a key no version has: DO NOTHING never drops history |
| `Runs.RevisionsRiseByOne` | internal/sync/rename.go:159-160 | A step takes an object's revision up by at most one, renames and migrations keep it, new objects start at one |
| `Runs.PublishedRevision` | internal/sync/service.go:562-571 | A committed step publishes the revision its object has reached: exactly one more with an upload, deletion or restore, the same with a rename or migration, one for a new object |
| `Runs.FeedRefinesSnapshot` | internal/sync/service.go:1090-1113 | Applying the changes after a cursor the log still reaches turns the live set of that time into the present snapshot, in every run |
| `Runs.PagesAddUp` | internal/sync/service.go:1098-1112 | Of one state, fetching page by page with any limit until there is no more gives the whole feed, nothing skipped, nothing twice |
| `Followers.FollowerEndsAtSnapshot` | internal/sync/service.go:1090-1187 | However writes, trimming and fetches of any page size interleave, a client that starts over when told to holds exactly the live set once a fetch leaves nothing to ask for |
| `Tombstones.TombstoneLeaves` | internal/sync/restore.go:90-122 | A deletion leaves its table only by a restore with its exact revision and a newer generation, or by a purge every active device has confirmed |
| `Tombstones.NoSilentResurrection` | internal/sync/service.go:533-546 | A deleted object is live again after a run only if a step of the run was a restore of it that was committed |
| `Tombstones.PurgedForever` | internal/sync/restore.go:94-111 | A purged object is never live again in any run at all |
| `Tombstones.BarredUploadChangesNothing` | internal/sync/service.go:534-546 | An upload to a name without a live object that a deletion bars changes nothing at all, and says so exactly when it is otherwise admissible |
| `Tombstones.NewObjectsAreNew` | internal/sync/service.go:717-742 | What is newly live was never known before, or is an explicit restore |
| `Idempotence.RunAtMostOnce` | internal/db/objects.go:585-604 | In every run the log holds at most one change per object and operation id, deletions aside |
| `Idempotence.OnlyDeleteRepeats` | internal/sync/service.go:863-955 | A step repeats an operation id of an object exactly when it is a delete that reuses one |
| `Retries.UploadAgain` | internal/sync/service.go:496-582 | A committed upload that arrives again after any steps never touches its object: while its name stands for the object nothing changes, and it is in effect when the content is the same or its change is in the log, a conflict otherwise; it is taken exactly for a new object, or for another one that came to its name at the given revision |
| `Retries.RestoreAgain` | internal/sync/restore.go:80-113 | A committed restore that arrives again after any steps changes nothing; it is in effect while its change is in the log or its object lives, and refused as stale or purged when the object was deleted since |
| `Retries.DeleteAgain` | internal/sync/service.go:863-895 | A committed delete that arrives again after any steps never deletes its object again; it deletes exactly what else has come to its name at the given revision, and is otherwise answered from the recorded deletion |
| `Retries.RenameAgain` | internal/sync/rename.go:83-125 | A committed rename that arrives again after any steps never renames its object again and is never answered from the log; it renames exactly what else has come to the old name at the given metadata generation |
| `Retries.ChangeStays` | internal/db/objects.go:585-604 | A change stays in the log of every run until the watermark has passed it |
| `Retries.RunKeepsPast` | internal/sync/service.go:555-560 | No run takes an object back to a revision or a metadata generation it has had |
| `RetryScenarios.CreatedTwice` | internal/sync/service.go:506-560 | Create, rename, and the creation again under its operation id: two objects with one content |
| `RetryScenarios.SecondDeleteTakesAnother` | internal/sync/service.go:863-895 | Delete, restore elsewhere, a new object under the old name, and the delete again under its operation id: the new object is deleted |
| `RetryScenarios.OneIdTwoChanges` | internal/sync/service.go:863-955 | Upload and delete under one operation id: the log ends with two changes of the object under it |
| `RetryScenarios.SecondRenameIsNotFound` | internal/sync/rename.go:83-104 | Upload, rename, and the same rename again: refused with not found though the log has it |
| `Idempotence.UploadTwice` | internal/sync/service.go:496-504 | Sent again at once, a committed upload changes nothing, whatever the operation id |
| `Idempotence.RestoreTwice` | internal/sync/restore.go:80-106 | Sent again at once, a committed restore is answered as in effect |
| `Idempotence.DeleteTwice` | internal/sync/service.go:879-890 | Sent again at once, a committed delete is answered as in effect |
| `Idempotence.RenameTwice` | internal/sync/rename.go:83-104 | Sent again at once, a committed rename is refused: a metadata generation mismatch when the name stayed, not found when it changed |
| `Privacy.CompleteIsPrivate` | internal/sync/meta.go:706-757 | Completion, whatever the journal holds, ends with every head, deletion and change named by file id only, every head with encrypted metadata, and a higher format epoch |
| `Privacy.UnreadyNeverCompletes` | internal/sync/meta.go:706-713 | While anything is still named in plain the migration does not complete and nothing changes |
| `Privacy.EncryptedMeansPrivate` | internal/sync/meta.go:680-759 | In every run from an empty vault, wherever the repository says it is encrypted nothing it holds is addressed by anything but its id and every live object carries its name encrypted |
| `Privacy.EncryptedForever` | internal/sync/service.go:479-494 | Encrypted is absorbing: in every later state of every run the store stays private and the epoch stays |
| `Privacy.WritersKnowTheEpoch` | internal/sync/service.go:678-684 | Every later committed write carried the new format epoch |
| `Privacy.NoWriterOfAnotherWorld` | internal/sync/service.go:685-689 | Once the repository epoch has changed, no client of another epoch changes an object in any run until it changes again |
| `Privacy.RunKeepsKeys` | internal/sync/service.go:525-531 | In every run a canonical key is a keyed hash some client supplied or the normal form of the name the object goes by |
| `Privacy.EncryptedKeysNameNothing` | internal/sync/meta.go:680-759 | In every run from an empty vault, once metadata is encrypted every canonical key is a client's keyed hash or the normal form of the bare file id |
| `Privacy.RunRatchets` | internal/db/repostate.go:204-218 | Epochs and the envelope floor never fall, encrypted content and metadata stay so, in every run |
| `Privacy.UploadsMeetEveryFloor` | internal/sync/service.go:457-466 | A committed upload is at or above every floor the repository ever had |
| `Privacy.RestoreMayUndercut` | internal/sync/restore.go:158-174 | A restore goes below the floor exactly when the content it goes back to is below it or not stored |
| `Stored.NothingDangles` | internal/sync/service.go:601-663 | In every run whose repairs do not fail and whose restores find their content, every reference is stored, whatever crashes, prunings, collections and damage to files happen |
| `Stored.UploadKeepsStored` | internal/sync/service.go:601-663 | An upload, whatever strikes it, keeps every reference stored, unless its repair of a referenced blob fails at the rename |
| `Stored.CrashLeavesTables` | internal/sync/service.go:612-656 | An upload that did not commit left every table as it was and touched at most its own blob |
| `Stored.RestoreKeepsStored` | internal/sync/restore.go:143-182 | A restore keeps every reference stored exactly when the content it goes back to is empty or stored |
| `Stored.CollectedPriorDangles` | internal/sync/maintenance.go:278-336 | A deleted content that only the deletion remembers is collected, and a restore of it then dangles |
| `Contents.ServedContentIsRecorded` | internal/storage/blobs.go:182-243 | In every careful run on an undamaged disk what is served for a head or version, on a bare or keyed name, has exactly the recorded hash |
| `Generations.HistoryChecksHold` | internal/sync/meta.go:603-630 | With header generations below 2^63, in every run the generation and orphan history checks pass |
| `Generations.UploadGenerationCheck` | internal/sync/service.go:518-590 | After a committed upload the generation check of its object fails exactly when the new signed generation is below one that stays on record, or is negative with nothing on record |
| `Generations.OnlyNegativeFallsBehind` | internal/sync/service.go:518-523 | Where the check passes, only a header of 2^63 or above makes it fail, and only on an object whose stored generation is not positive |
| `Scenarios.HugeGenerationFails` | internal/sync/service.go:518-590 | Two uploads to one object of a fresh vault, of generations 0 and 2^63, end with the check failing |
| `Scenarios.RestoreDangles` | internal/sync/restore.go:143-182 | Upload, delete, collect and restore without history, from a fresh vault, end with a live object whose content is not stored |
| `Scenarios.RestoreUndercuts` | internal/sync/restore.go:158-174 | Upload, delete, encrypt and restore, from a fresh vault, end with a live object below the envelope floor |
| `Scenarios.FailedRepairDangles` | internal/storage/blobs.go:205-243 | Upload, damage to the file and an upload of the same content whose rename fails, from a fresh vault, end with a live object whose content is gone |
| `Blobs.BlobStore.CommitAs` | internal/storage/blobs.go:182-243 | A good copy is kept, a damaged one is quarantined and replaced, at every failure point; nothing but a damaged copy of this blob is ever displaced, and it survives in quarantine unless its slots are full |
| `Blobs.BlobStore.Quarantine` | internal/storage/blobs.go:253-283 | The copy moves to its first free slot and overwrites none |
| `Blobs.BlobStore.VerifyContent` | internal/storage/blobs.go:404-414 | A stored copy passes exactly when it would pass for any upload of the recorded content of its length |
| `Budget.NoShorterFits` | internal/sync/maintenance.go:236-254 | With distinct ages every oldest-first list that makes the rest fit extends what the budget loop deletes |
| `Budget.DroppingKeepsNewest` | internal/db/objects.go:499-503 | Giving up versions that are not newest takes exactly those off the budget and keeps every newest |
| `Budget.PruningComposes` | internal/sync/service.go:1493-1511 | Pruning in two transactions, each with its collection, equals one |
| `Budget.BatchesAppend` | internal/sync/maintenance.go:218-262 | Batches read afresh in between make one oldest-first list |
| `Newest.RunLosesNone` | internal/sync/service.go:1461-1490 | In every run the newest version an object ever had stays until a newer one takes its place |
| `Newest.StaleVictimsAreNotNewest` | internal/sync/maintenance.go:218-262 | Whatever happens between picking the victims and taking the lock, no victim is its object's newest version by then |
| `Collector.Collector.MaintainOrphanBlobs` | internal/sync/maintenance.go:278-336 | Removes exactly what it reports, none of it recent, whatever requests do between lock sections; every old enough, removable file there was is seen referenced, or removed if marked by an earlier round, or marked; a round that may not start does nothing |
| `Collector.Collector.Settle` | internal/sync/maintenance.go:305-333 | Removes the blob exactly when it is unreferenced under the lock, marked by an earlier round and its deletion goes through; nothing else is removed |
| `Collector.Collector.MarkGCCandidate` | internal/db/gc.go:24-39 | The count is the number of rounds that marked the blob since it was last seen or removed |
| `Collector.TwoQuietRoundsRemove` | internal/sync/maintenance.go:278-340 | Two rounds in a row that got to a blob and did not see it referenced have removed it |
| `Collector.TwoRounds` | internal/sync/maintenance.go:318-322 | A count of two means two different rounds marked the blob, with no sighting since the first |
| `Collector.EveryRemovalIsConfirmed` | internal/sync/maintenance.go:278-356 | At any point of any history what was removed was referred to by no row of the tables under the lock, was confirmed by two rounds with no sighting in between, and its round began with no scrub, backup or migration under way |
| `BlobIdMigration.Migrator.MigrateBlobIDs` | internal/db/migrate_blobid.go:77-157 | Goes once over the references as found, ends and counts as the run function says for every failure point; without confirmation it changes nothing |
| `BlobIdMigration.Migrator.RenameBlob` | internal/storage/blobid.go:63-91 | Afterwards the content is under the new name and not the old, all other files are untouched, and asking again changes nothing; fails exactly when neither name has it |
| `BlobIdMigration.Migrator.RepointBlobReferences` | internal/db/migrate_blobid.go:161-177 | No row is left on the old id, and the references are those there were with the new id for the old one |
| `BlobIdMigration.CrashAnywhereRunAgain` | internal/db/migrate_blobid.go:119-151 | After any number of attempts struck anywhere, one undisturbed run ends with exactly the rows and file names of an uninterrupted one, every reference readable |
| `BlobIdMigration.OneEndToTheByte` | internal/db/migrate_blobid.go:119-151 | With hashes that tell contents apart, two finished migrations of the same disk hold the same rows and the same files to the byte |
| `BlobIdMigration.CleanRunReport` | internal/db/migrate_blobid.go:117-156 | A failure-free run fails none, counts every reference once and finishes |
| `BlobIdMigration.SecondRunDoesNothing` | internal/db/migrate_blobid.go:121-125 | Once finished, a run renames nothing and touches nothing, whatever would strike it |
| `BlobIdMigration.UndoneRename` | internal/db/migrate_blobid.go:135-145 | After an undone rename everything is readable exactly when no row already used the keyed name |
| `BlobIdMigration.CollectedBeforeRepaired` | internal/db/migrate_blobid.go:119-135 | A crash between rename and repoint leaves the content unreferenced; collecting it before the next run makes the loss final |
| `BlobIdStatus.StatusAfterAttempt` | internal/db/migrate_blobid.go:51-71 | After any attempts struck anywhere and one more: with an entry left that no reference goes with the status asks; otherwise it wrongly says nothing is left exactly when registering a blob failed, with none registered from there on, after others had gone through or with no live content, and wrongly asks exactly when the attempt died unmarked over its last blob or there was nothing to rename and nothing on record as done |
| `BlobIdStatus.StatusAsksForEver` | internal/db/migrate_blobid.go:51-71 | After a death between repointing and marking the status asks for a migration after any number of later attempts, struck or not |
| `MigrationScenarios.StatusMisses` | internal/db/migrate_blobid.go:51-71 | Two blobs, the second not registered: the status says nothing is left and one blob is |
| `MigrationScenarios.UndoneRenameDangles` | internal/db/migrate_blobid.go:135-145 | Two objects with one content, one on each name, and a failed repointing: the one on the keyed name has no file |
| `PlanV6.MakePlan` | internal/db/migrate_v6.go:145-297 | The three loops compute the plan |
| `PlanV6.InferEnvelopeFloor` | internal/db/migrate_v6.go:300-324 | 3 exactly when there are heads and all have envelope 3; 1 exactly when otherwise some has 1 to 3; else 0 |
| `PlanV6.RowsAreConserved` | internal/db/migrate_v6.go:152-244 | Live rows become heads and deleted rows tombstones, one for one, revisions kept |
| `ConservedV6.RowsAreCarried` | internal/db/migrate_v6.go:152-290 | Live and deleted rows become live objects and deletions in their order with every field of the row, and what the blob's header tells; a deletion goes back to the last content planned for its object |
| `ConservedV6.HistoryIsCarried` | internal/db/migrate_v6.go:246-285 | Every planned version carries over a history row and is of the object the row belongs to, by its own id or else by its path; every row that belongs to one has its place taken |
| `ConservedV6.ReviewIsExact` | internal/db/migrate_v6.go:206-244 | A deletion is marked for review exactly when its path has no history or its id is malformed or another row's before it |
| `ConservedV6.ReportIsExact` | internal/db/migrate_v6.go:109-117 | The counts of the report are the numbers of live rows that repeat an id, of contents without a key epoch, of deleted rows without history and of deletions marked for review |
| `ConservedV6.EveryRowIsCarried` | internal/db/migrate_v6.go:334-447 | A migration that ends has every old row as its object or deletion, field by field, and nothing else; the envelope and format demanded from then on are what the live contents and the metadata state allow, and every client starts over |
| `PlanV6.IdsAreDistinct` | internal/db/migrate_v6.go:157-167 | With fresh random ids every planned object has a well-formed id of its own |
| `PlanV6.GoodIdsAreKept` | internal/db/migrate_v6.go:157-167 | Well-formed distinct ids are all kept and the plan does not depend on random ids |
| `PlanV6.HistoryIsConserved` | internal/db/migrate_v6.go:246-291 | Planned, orphan and conflicting versions add up to the input; planned ones are unique by object and revision and each is a row |
| `PlanV6.PriorIsLastContent` | internal/db/migrate_v6.go:248-295 | The recorded prior content of an object is the last planned content it has |
| `SchemaV6.Migrator.MigrateToV6` | internal/db/migrate_v6.go:334-447 | The phases carry out the plan's transactions in order, up to where the attempt is cut, fails or is refused |
| `SchemaV6.Migrator.MigrateOneObject` | internal/db/migrate_v6.go:450-475 | Object, head, history and journal entry in one transaction, or nothing when an index refuses the head |
| `SchemaV6.Migrator.MigrateOneTombstone` | internal/db/migrate_v6.go:478-503 | Object, tombstone, history and journal entry in one transaction |
| `SchemaV6.StopAnywhereRunAgain` | internal/db/migrate_v6.go:334-447 | Stopped or failed after any transaction, any number of times, with any random ids, and then left to run: the same database to the last row as one run, when ids, paths and canonical keys are the rows' own |
| `SchemaV6.OneEnd` | internal/db/migrate_v6.go:376-391 | What a finished migration holds is determined by the plan |
| `ResumeV6.ResumesExactlyWithGoodIds` | internal/db/migrate_v6.go:334-447 | With paths and keys of their own, the migration may be cut anywhere and started again with other random ids exactly when the old rows' ids are well formed and distinct |
| `ResumeV6.ReplacedTombstonesAreDoubled` | internal/db/migrate_v6.go:221-229 | Where only deleted rows needed random ids, an attempt cut after moving one and started again ends with two tombstones of its path |
| `ResumeV6.ReplacedIdsDoNotResume` | internal/db/migrate_v6.go:157-167 | When a live row needed a random id and the attempt is cut after moving it, no later attempt ever finishes |
| `ResumeV6.DrawsExactlyForBadIds` | internal/db/migrate_v6.go:157-167 | With fresh random ids the planner draws one exactly when some row's id is malformed or taken |
| `MigratedV6.MigratedIsSound` | internal/db/migrate_v6.go:376-447 | A finished migration is a sound store, so what is proved of all runs holds of its runs; its history fits exactly when no planned version is ahead of its object |
| `MigratedV6.HistoryNotAheadIs` | internal/db/migrate_v6.go:246-291 | With ids and paths of their own that is exactly when no old history row is ahead of the row it belongs to |
| `MigrationScenarios.NamelessRowDoesNotResume` | internal/db/migrate_v6.go:157-167 | One live row with an empty id: some cut leaves the migration where no second attempt ends as one run would |
| `MigrationScenarios.NamelessDeletionIsDoubled` | internal/db/migrate_v6.go:221-229 | One deleted row with an empty id, cut and started again: two tombstones of its path |
| `HistoryV6.StrayHistoryIsLeftBehind` | internal/db/migrate_v6.go:255-286 | For every old history row: it is counted as an orphan exactly when it has no usable id and no row has its path, and planned otherwise; and a finished migration holds its place exactly when it is no orphan and, if its own id is well formed, some row has that id |
| `HistoryV6.PlannedIsInsertedExactly` | internal/db/migrate_v6.go:450-503 | With ids that need no replacing a planned version is inserted exactly when some row has its id |
| `MigrationScenarios.StrayHistoryIsLost` | internal/db/migrate_v6.go:255-264 | One row and one history row of its path with another well-formed id, migrated without a cut: planned, not counted, not inserted |
| `Tables.Longer` | internal/sync/service.go:371-379 | Zero means unlimited and wins; otherwise the larger of the two |
| `Envelope.HeaderIsRead` | internal/sync/service.go:773-798 | A header is read exactly of contents of envelope 3 with 16 bytes or of envelope 4 with 17: key epoch and generation are the big-endian numbers in their places, the generation as a signed one |
| `Envelope.HeaderNeedsVersion` | internal/sync/service.go:773-798 | Only contents whose envelope is 3 or later have a readable generation |

## Left out

- HTTP handlers, authentication, sessions, devices beyond their acknowledged sequence, pairing, sharing beyond the frame, membership, access tokens, configuration, backups, the editor and rendering: plumbing or shallow checks.
- SQLite, the file system and the locks as mechanisms: a transaction is one step, a file store is a map from names to contents, the service lock makes steps atomic. Concurrency is modelled where the code leaves the lock, in the orphan collector.
- Cryptography itself: hashing and keyed names are unknown functions; where injectivity is needed it is a hypothesis.
- Physical erasure before the switch to encrypted metadata, the sentinel scan and the count of named shares: arguments of the completing step; the erasure may succeed, fail or leave a residue.
- More than one vault: the default vault only.
- Integer widths of revisions, sequences, sizes and clocks: unbounded.
- Reads that change nothing (file, version and history downloads, status, integrity scan), statistics, audit and log lines, and the number of pruned blobs that retention reports.
- Errors of the database itself in the middle of a method: only the crash points named above. In the schema migration a transaction may fail with an error; elsewhere a failed statement is a failed transaction.
- ServiceModule.Service.MaintainHistoryBudget: the total and the victims are read and applied in one step, where the code reads them before it takes the lock; that stale victims still spare every newest version is `Newest.StaleVictimsAreNotNewest`.
- ServiceModule.Service.MaintainHistoryRetention: one step, where the code releases the lock between objects; each object is a transaction of its own in both.
- Collector.Collector.MaintainOrphanBlobs: that a round gets to every file is stated for files that are there when it starts, are old enough and can be removed, and for a round that does not die.
- ShareFrame.UnbundleShare: names and paths are kept as bytes; decoding them as UTF-8 replaces malformed sequences and is not modelled.
- Diff.DiffLines: texts are sequences of characters; a line is compared by equality, as strings are in the source.
- BlobIdMigration.CrashAnywhereRunAgain: supposes that every blob is named by its bare hash or by its keyed name, that a keyed name is no content's bare hash, and that stored files are intact; a damaged file stays damaged under its new name.
- Stored.NothingDangles: supposes that no repair fails at the rename and that restores find their content stored, the two exceptions proved beside it.
- Generations.HistoryChecksHold: supposes header generations below 2^63, the exception proved beside it, and restores of a generation that is not negative, as the request handler demands (`internal/api/file.go:238-244`).
- Contents.ServedContentIsRecorded: supposes an undamaged disk, and names that tell contents apart: keyed names are injective and none is a content hash.
- Files named by a version that the service never wrote: blob names come from contents hashed by the server, so a row never names a blob of another content (`Contents.NamedByContent`).
- Completion.MigrationCompletes: supposes that the names given are well formed and free, that nothing else is written meanwhile, and that the id of the migration is new to the journal; what other steps do to a migration under way is `Completion.StaleSinceBeginning` and the theorems on privacy.
- Policies.UploadTakesWhatIsUp, Policies.RetentionIsExact: suppose limits that are not negative, which is all the configuration accepts (`internal/config/config.go:106-140`).
- ConservedV6.EveryRowIsCarried: supposes ids that are well formed and distinct, and paths and keys of their own, as `SchemaV6.StopAnywhereRunAgain` does; other ids are `ResumeV6`.
- Records.DeletionRecallsContent: a content with an empty hash is none, and the deletion then recalls the last one on record that is not (`Records.DeletionRecalls`).
