# A verified model of the pack lifecycle, kit sync, chunking, action dialogue and archive links

The project models five parts of the repository in Dafny and proves what each of them keeps.

**Experience packs.** A repository holds a lock, installed bundles, receipts and a quarantine area. Install, upgrade,
disable and remove change them in ordered steps, with a compare on the lock file and hand-written rollback.
`PackModel`, `PackNames`, `PackForms`, `PackLoading`, `PackComposition` and `PackPlanning` hold the data, the rules
and the planners, and `PackRequests` which requests they accept. `PackMachine` cuts an operation into atomic steps,
any of which may fault, the rollback steps included; a crash is a run that stops at a boundary. `PackFaults` holds
what faults may touch and leave, and `PackOutcomes` what that means for the operations that follow.
`PackStore.Repository` is the same lifecycle as a class whose methods change its fields, each proved to be a run of
that machine. `PackSystem` interleaves any number of processes under the operation guard, and `PackProgress` shows
that they can run. `PackHistory` and `PackGraph` reason over whole histories, which start from an empty lock with or
without a file for it: the repository ships such a file. `PackPresentation` covers the composition of active packs,
each file read for itself beside concurrent writers, `PackValidation` the validator, and `PackTampering` what it
notices. A digest is a value that holds what was hashed, so equal digests mean equal contents. The recursion this
brings is real: a lock lists receipts that hash earlier locks.

**Kit sync.** `KitContent` selects the portable files and reads their framed contents; `KitFraming` says which streams
are accepted. `KitSync` compares kit, lock and tree, copies file by file with an interruption possible before any of
them, verifies, and writes the lock. Directories are part of the tree: writing a file makes those above it. The lock
file is itself a file of the tree.

**Chunking.** `Chunking` holds windows over oversized units and greedy grouping; `SourceChunks` holds the splitting of
text and whole chunks, `SourceSplits` where a text is divided, `ChunkSizes` the sizes in tokens and bytes,
`ChunkEdits` what an edit changes, and `ChunkReading` the check that `_chunks_for_source` makes when it reads chunks
back. `Text` holds the string operations.

**Action dialogue.** `ActionDialogue` holds the batch check of a history, the append, and the summary.

**Archive links.** `ArchiveLinks` holds the shift of a moved page's links and the rewriting of links to it.

## What the code does not do

Some natural claims about the code are false. Each is kept as the code has it, with an input and, where there is one,
the exact condition.

- Installing and removing one pack on one branch works once from an empty lock file, twice from no file at all; the
  next install is refused, because its receipt has the identity of an earlier one (`PackHistory.NextInstallRefused`,
  `PackOutcomes.CyclesTakeReceipt`; exact condition in `PackHistory.RepeatedReceipt`).
- One fault can leave files behind: when the receipt is already on disk, the bundle just copied must be deleted, and a
  fault in that deletion strands it (`PackFaults.RefusalLeavesBundle`; exact condition in `PackFaults.SingleFaultIff`;
  `PackOutcomes.CyclesTakeReceipt` reaches the condition).
- After a crash the same request may be refused, and a version whose bundle was stranded can never be installed
  again (`PackOutcomes.CrashThenRetry`, `PackOutcomes.StrandedForever`).
- An upgrade may add a dependency on a pack that depends on it, and then neither can be disabled or removed
  (`PackGraph.MutualDependencyRun`). Disables and removals can empty an installation exactly when its dependencies are
  acyclic (`PackGraph.EmptiedIffAcyclic`), and an upgrade keeps them so exactly when it adds no dependency that leads
  back (`PackGraph.UpgradeKeepsAcyclicIff`).
- The validator's slot map keeps the last row, so it can miss an exclusive row that the admission check rejects
  (`PackComposition.ValidatorMissesShadowedRow`; exact condition in `PackComposition.ValidatorExactIffExclusiveLast`).
- Packs that declare different locale sets can all be installed, and then nothing composes
  (`PackOutcomes.LocalesDiffer`; exact condition in `PackValidation.ComposesIffSameLocales`).
- Page-type namespaces of distinct packs can meet (`PackNames.PageNamespacesCanMeet`; exact condition in
  `PackNames.PageNamespacesOverlap`).
- Sync is not restartable when a managed file makes way for a directory: interrupted after that, the same revision is
  refused (`KitSync.FileMakesWay`). Where nothing stands in the copy's way that is the exact condition
  (`KitSync.RestartableIff`, `KitSync.CopyThenPlanAgain`).
- After an interrupted sync another revision may be refused (`KitSync.AddedThenRefused`; exact condition in
  `KitSync.OtherRevisionIff`).
- A kit whose selection includes `kit.lock` leaves a consumer that refuses every later sync
  (`KitSync.SelectingTheLockWedges`; a second sync is idle exactly otherwise, `KitSync.SecondSyncIdle`).
- The docstring of `chunk_text` promises that after a local edit the other chunks keep the same text. One word more can
  remove the text of a chunk that holds only unedited paragraphs (`ChunkEdits.OneWordSpreads`). The others keep their
  texts exactly when the new weight leaves room: the unit still does not fit in the group before its own, and its own
  group still ends at a boundary. They keep number, id and ordinal too exactly under the stricter slack
  (`ChunkEdits.EditIsLocalIff`). Equal weight always does, an unequal one may (`ChunkEdits.FiveWordsStay`), and an edit
  that only splits its own chunk leaves room without slack (`ChunkEdits.OwnChunkSplits`).
- With document units, an empty paragraph before a long one becomes a blank chunk, which `_chunks_for_source` refuses
  (`ChunkReading.EmptyParagraphRefused`; exact condition in `ChunkReading.AcceptedIffNoBlankRun`).
- `append_event` does not look at the instant or the digest it stamps: it accepts a bad one, and no later event is
  accepted (`ActionDialogue.AppendBadStamp`, `ActionDialogue.BadStampIsFinal`).
- Archiving does not keep every link: exactly which survive is `ArchiveLinks.LinkGraphIff`. An event's own link must
  climb out of its folder, an absolute path on a moved page is lost, and a moved page's link to itself stays behind.

## Model

| member | source | states |
|---|---|---|
| PackModel.VersionSatisfies | wiki_core/_experience_pack_common.py:224-252 | the loop that stops at the first failing comparator decides their conjunction over lexicographic triples |
| PackModel.FirstDifferenceDecides | wiki_core/_experience_pack_common.py:215-221 | of two versions the first part in which they differ says which comes first |
| PackModel.PrecedesIsAnOrder | wiki_core/_experience_pack_common.py:215-252 | a strict total order: of two versions one comes first, or they are the same |
| PackModel.RaisedIsLater | wiki_core/_experience_pack_common.py:215-221 | raising one part makes a version later, whatever becomes of the parts after it |
| PackModel.ComparatorsSplitTheOrder | wiki_core/_experience_pack_common.py:242-251 | each comparator accepts exactly what lies before, at or after its bound |
| PackModel.RangeIsAnInterval | wiki_core/_experience_pack_common.py:224-252 | what lies between two versions that a range accepts, it accepts |
| PackNames.DottedNamespacesDisjoint | wiki_core/_experience_pack_common.py:35-36 | a name under `id.` determines the id |
| PackNames.PageAndDottedNamespacesDisjoint | wiki_core/_experience_pack_state.py:138-152 | no name is both under one pack's page prefix and another's dotted prefix |
| PackNames.IdOutsideEveryNamespace | wiki_core/_experience_pack_i18n.py:213-229 | a pack id lies in no pack's namespace |
| PackNames.PageNamespacesOverlap | wiki_core/_experience_pack_state.py:138-152 | two page-type namespaces share a name exactly when one prefix extends the other |
| PackNames.PageNamespacesCanMeet | wiki_core/_experience_pack_state.py:138-152 | distinct ids `a` and `a-b` share a page-type name |
| PackNames.OnlyPageTypesCollide | wiki_core/_experience_pack_state.py:138-152 | two packs that meet the entry rules share a capability only among page types |
| PackNames.IdentifiersMeetOnlyInPageTypes | wiki_core/_experience_pack_i18n.py:168-182 | presentation identifiers of two packs meet only in shared page types |
| PackForms.PackIdIff | wiki_core/_experience_pack_common.py:35 | an id is parts of small letters and digits between single dashes, the first starting with a letter |
| PackForms.CapabilitiesIff | wiki_core/_experience_pack_state.py:134-152 | list by list: well-formed names without repetition, page types under the id with underscores, block packages anywhere, the rest under the id and a dot |
| PackForms.SlotsIff | wiki_core/_experience_pack_state.py:162-187 | each kind of slot has its own prefix, and its rows contribute what the pack declares of that kind |
| PackForms.ReadableIff | wiki_core/_experience_pack_i18n.py:203-296 | an entry is readable exactly when its bundle is its own, declares the required locales, and labels in each just the id, five lists of capabilities, and its event kinds |
| PackLoading.NormalizeList | wiki_core/_experience_pack_common.py:255-265 | accepts exactly lists of well-formed names without repetition |
| PackLoading.CheckCapabilities | wiki_core/_experience_pack_state.py:134-152 | accepts exactly capability lists inside the pack's own namespaces |
| PackLoading.CheckRows | wiki_core/_experience_pack_state.py:162-187 | the seen-set loop accepts exactly rows that are named for their kind, declared, and pairwise distinct |
| PackLoading.CheckRelations | wiki_core/_experience_pack_state.py:188-216 | finds the first fault in order, dependencies, conflicts, their overlap, and none exactly in well-formed, distinct, disjoint lists |
| PackLoading.DistinctBySize | wiki_core/_experience_pack_state.py:240-245 | a receipt list has as many elements as members exactly when none repeats |
| PackLoading.LoadLock | wiki_core/_experience_pack_state.py:72-246 | accepts exactly the locks all of whose entries meet the rules, and otherwise names the first rule that some entry breaks; no file reads as the empty lock |
| PackComposition.OccupyRows | wiki_core/_experience_pack_state.py:314-323 | folding rows into the occupancy map records exactly the slots used, who came first, and whether any row is exclusive |
| PackComposition.Occupy | wiki_core/_experience_pack_state.py:314-323 | the one-pass map holds exactly the slots some active pack uses or holds exclusively |
| PackComposition.RowsFit | wiki_core/_experience_pack_state.py:324-328 | the candidate's rows fit exactly when they clash with no active pack's rows |
| PackComposition.AssertComposable | wiki_core/_experience_pack_state.py:278-328 | the five passes raise the first failure in order, and none exactly when the candidate is admissible |
| PackComposition.AdmissibleIffPairwise | wiki_core/_experience_pack_state.py:278-328 | admission means dependencies met, dependents accept the version, and no pairwise clash |
| PackRequests.AdmissibleIffFits | wiki_core/_experience_pack_state.py:278-328 | list by list: each dependency is another active pack inside its range, and beside each active pack no conflict, no unmet dependent, no shared name in six lists, and only appending rows at a shared slot |
| PackComposition.AdmissionKeepsComposed | wiki_core/_experience_pack_state.py:278-328 | adding or replacing an admissible pack keeps all active packs compatible and their dependencies met |
| PackComposition.WithdrawalKeepsComposed | wiki_core/_experience_pack_lifecycle.py:1033-1038 | so does taking out a pack without active dependents |
| PackComposition.InstallOrderIrrelevant | wiki_core/_experience_pack_state.py:278-328 | two packs that do not depend on each other install in either order or in neither, to equal locks up to receipts |
| PackComposition.ValidatorClashIsClash | wiki_core/_experience_pack_lifecycle.py:1233-1261 | the validator's slot map rejects nothing that admission accepts |
| PackComposition.LastModeIsARow | wiki_core/_experience_pack_lifecycle.py:1252-1261 | the validator's entry for a slot comes from one of its rows |
| PackComposition.ValidatorExactIffExclusiveLast | wiki_core/_experience_pack_lifecycle.py:1252-1261 | it finds every clash exactly when no exclusive row is followed by an appending one |
| PackComposition.ValidatorMissesShadowedRow | wiki_core/_experience_pack_lifecycle.py:1252-1261 | a concrete clash it misses |
| PackPlanning.ReceiptIdentityStable | wiki_core/_experience_pack_lifecycle.py:799-829 | `receipt_identity_not_stable` is unreachable for every request and lock |
| PackPlanning.PlanEffect | wiki_core/_experience_pack_lifecycle.py:754-829 | a plan changes one entry, appends its own receipt, and the receipt binds both locks |
| PackPlanning.PlanBundles | wiki_core/_experience_pack_lifecycle.py:754-829 | which bundle a plan creates and which it retires; an upgrade's new path differs from the old |
| PackRequests.InstallAccepted | wiki_core/_experience_pack_lifecycle.py:762-767 | an install is planned exactly when the pack is not installed and fits beside the active packs |
| PackRequests.UpgradeAccepted | wiki_core/_experience_pack_lifecycle.py:902-954 | an upgrade exactly when the pack is installed, the source is newer, has a migration that names exactly this step, and fits; each refusal before that exactly for its reason |
| PackRequests.DisableAccepted | wiki_core/_experience_pack_lifecycle.py:1022-1047 | a disable exactly when the pack is active and no other active pack depends on it; each refusal exactly for its reason |
| PackRequests.RemoveAccepted | wiki_core/_experience_pack_lifecycle.py:1022-1054 | a removal exactly when the pack is installed and no other active pack depends on it |
| PackRequests.ReceiptListsFiles | wiki_core/_experience_pack_lifecycle.py:772-801 | the receipt lists exactly the bundles made and retired, its own file, and the lock as new or replaced |
| PackRequests.ReceiptListsMigration | wiki_core/_experience_pack_lifecycle.py:783-797 | and a migration, from the retired version to the new one, for an upgrade alone |
| PackRequests.ReceiptNamesVersion | wiki_core/_experience_pack_lifecycle.py:802-826 | the receipt is about the version the lock then has, or had when the pack is taken out |
| PackPlanning.ReceiptsCollide | wiki_core/_experience_pack_lifecycle.py:59-94 | two plans have one receipt identity exactly for one request, branch and lock |
| PackPlanning.ReceiptNotInItsOwnLock | wiki_core/_experience_pack_lifecycle.py:70-94 | a receipt is never listed in the lock it was planned from |
| PackPlanning.PlanKeepsComposed | wiki_core/_experience_pack_lifecycle.py:754-829 | every accepted plan keeps the active packs compatible |
| PackPlanning.PlanKeepsLockOk | wiki_core/_experience_pack_lifecycle.py:1042-1083 | every accepted plan leaves a lock the loader accepts |
| PackHistory.LockSound | wiki_core/_experience_pack_lifecycle.py:754-829 | after any history the lock loads and its active packs compose |
| PackHistory.ReceiptsDetermineLock | wiki_core/_experience_pack_lifecycle.py:97-114 | the lock is rebuilt from the receipts alone: last projection, and each pack's receipts since its latest install, in order |
| PackHistory.ListedReceiptsRecorded | wiki_core/_experience_pack_lifecycle.py:559-612 | every receipt the lock lists is on record |
| PackHistory.RepeatedReceipt | wiki_core/_experience_pack_lifecycle.py:736-751 | a valid plan repeats a receipt exactly when the same request was committed before from the same lock; an install or upgrade over no lock file at all does not count |
| PackHistory.NewestListedIsNew | wiki_core/_experience_pack_lifecycle.py:777-780 | while the newest receipt is listed no request can repeat one |
| PackHistory.CyclesAccepted | wiki_core/_experience_pack_lifecycle.py:736-751 | one install and remove cycle on a branch is accepted from an empty lock file, two from no lock file |
| PackHistory.NextInstallRefused | wiki_core/_experience_pack_lifecycle.py:736-751 | the next install on that branch repeats a receipt |
| PackGraph.UpgradeKeepsAcyclicIff | wiki_core/_experience_pack_lifecycle.py:765-767 | an upgrade keeps the dependency graph acyclic exactly when it adds no dependency on a transitive dependent |
| PackGraph.HistoryAcyclic | wiki_core/_experience_pack_lifecycle.py:1033-1038 | histories without such upgrades stay acyclic |
| PackGraph.SomePackRemovable | wiki_core/_experience_pack_lifecycle.py:1033-1038 | an acyclic installation always has a removable pack |
| PackGraph.Drain | wiki_core/_experience_pack_lifecycle.py:1134-1174 | and is emptied by as many accepted removals as there are packs |
| PackGraph.CycleStays | wiki_core/_experience_pack_lifecycle.py:1033-1038 | if any disables and removals lead to acyclic dependencies, they were acyclic before: a cycle is never taken out |
| PackGraph.EmptiedIffAcyclic | wiki_core/_experience_pack_lifecycle.py:1033-1038 | disables and removals can empty an installation exactly when its active dependencies are acyclic |
| PackGraph.MutualDependencyRun | wiki_core/_experience_pack_lifecycle.py:917-994 | three accepted operations after which neither pack can be disabled or removed on any branch |
| PackMachine.StepLands | wiki_core/_experience_pack_lifecycle.py:855-873 | from the exact files of a step, any outcome of that step gives the exact files of the next |
| PackMachine.RunEnds | wiki_core/_experience_pack_lifecycle.py:955-994 | every way an operation can end under any faults |
| PackMachine.EveryBoundaryConsistent | wiki_core/_experience_pack_lifecycle.py:855-873 | at every step boundary, rollback steps included, the lock names only bundles present with the pinned files and receipts that exist |
| PackFaults.EndTouchesOnlyItsOwn | wiki_core/_experience_pack_lifecycle.py:861-872 | an operation touches only its own bundle, receipt and retired bundle; a failed one loses nothing |
| PackFaults.UndisturbedRun | wiki_core/_experience_pack_lifecycle.py:832-873 | without faults the outcome is the stated verdict and the files are the final files or unchanged |
| PackFaults.QuietRollback | wiki_core/_experience_pack_lifecycle.py:961-993 | an undisturbed rollback restores the starting files from any step |
| PackFaults.SingleFaultRestores | wiki_core/_experience_pack_lifecycle.py:1110-1112 | one fault leaves the files as before, or ends applied or in `owned_bundle_cleanup_recovery_required`, unless the receipt was taken |
| PackFaults.RefusalLeavesBundle | wiki_core/_experience_pack_lifecycle.py:861-872 | the one fault that strands a bundle |
| PackFaults.SingleFaultIff | wiki_core/_experience_pack_lifecycle.py:861-872 | the single-fault claim holds exactly when the plan's receipt is not already on disk behind a free bundle path |
| PackSystem.SerialTidy | wiki_core/_experience_pack_lifecycle.py:876-899 | running any committed requests one after another, from an empty lock with or without a file, leaves exactly what they account for |
| PackSystem.AppliedKeepsTidy | wiki_core/_experience_pack_lifecycle.py:955-994 | an applied operation leaves no bundle or receipt that is not accounted for, whatever faults it met |
| PackSystem.EveryStateOk | wiki_core/_experience_pack_lifecycle.py:195-221 | the system invariant in every state any interleaving reaches, from either start |
| PackSystem.Serializable | wiki_core/_experience_pack_lifecycle.py:195-247 | from either start, any interleaving of processes, faults and crashes gives the lock of running the committed requests one by one |
| PackSystem.AppliedExactlyOnce | wiki_core/_experience_pack_lifecycle.py:886-899 | an operation that took effect is committed once: no update is lost |
| PackSystem.CompareNeverFails | wiki_core/_experience_pack_lifecycle.py:224-247 | under the guard at most one process runs and the lock compare never fails |
| PackSystem.CrashBacked | wiki_core/_experience_pack_lifecycle.py:195-221 | what a crash leaves at any step agrees with the commits so far |
| PackProgress.RunsAlone | wiki_core/_experience_pack_lifecycle.py:195-247 | a process that finds the guard free enters, runs as the machine does under any faults, and leaves |
| PackProgress.SerialReached | wiki_core/_experience_pack_lifecycle.py:195-247 | running any requests one after another is a run of the system, with exactly their files and outcomes |
| PackProgress.DiesAnywhere | wiki_core/_experience_pack_lifecycle.py:195-221 | a process may die before it enters the guard and at every boundary of its run; the files stay as they then are |
| PackStore.Repository.CopyBundle | wiki_core/_experience_pack_lifecycle.py:250-275 | refuses an occupied path, else adds exactly the bundle |
| PackStore.Repository.WriteReceipt | wiki_core/_experience_pack_lifecycle.py:736-751 | exclusive creation: refuses a receipt on record, else adds exactly it |
| PackStore.Repository.AtomicWriteLock | wiki_core/_experience_pack_lifecycle.py:224-247 | replaces the lock only if it is the expected one |
| PackStore.Repository.QuarantineAndDelete | wiki_core/_experience_pack_lifecycle.py:446-526 | moves aside, deletes, moves back on a clean failure, never restores a damaged bundle |
| PackStore.PurgeOld | wiki_core/_experience_pack_lifecycle.py:446-526 | one deletion call is the machine's steps from the move to the cleanup decision |
| PackStore.PurgeNew | wiki_core/_experience_pack_lifecycle.py:861-872 | and likewise in the rollback of a new bundle |
| PackStore.Repository.PlanInstall | wiki_core/_experience_pack_lifecycle.py:754-829 | the planner that computes its receipt twice gives the specified plan |
| PackStore.Repository.PlanStateChange | wiki_core/_experience_pack_lifecycle.py:1022-1084 | the disable and remove planner gives the specified plan |
| PackStore.Repository.RetireBundle | wiki_core/_experience_pack_lifecycle.py:961-993 | deletion of the old bundle with its nested rollback is a run of the machine |
| PackStore.Repository.Install | wiki_core/_experience_pack_lifecycle.py:832-873 | the whole method, try and except, is a run of the machine |
| PackStore.Repository.Upgrade | wiki_core/_experience_pack_lifecycle.py:917-994 | the same for upgrade |
| PackStore.Repository.Disable | wiki_core/_experience_pack_lifecycle.py:1087-1113 | the same for disable |
| PackStore.Repository.Remove | wiki_core/_experience_pack_lifecycle.py:1134-1174 | the same for remove |
| PackValidation.ValidateInstallation | wiki_core/_experience_pack_lifecycle.py:1195-1280 | the nested loops report exactly the justified findings; every bundle the lock does not name is among them |
| PackPresentation.ComposeActivePacks | wiki_core/_experience_pack_state.py:331-394 | with arbitrary contents at each read it fails or returns the composition of the lock it loaded: exactly the active packs with their versions, their block packages, their rows by kind, and their labels; undisturbed it succeeds exactly when the entries compose; locale and identifier errors name a real mismatch |
| PackPresentation.CompositionUnique | wiki_core/_experience_pack_state.py:373-394 | a lock has one composition |
| PackPresentation.WalkBundle | wiki_core/_experience_pack_i18n.py:111-121 | the walk, part by part, accepts only the pinned tree, and an untouched bundle always |
| PackPresentation.ReadCatalogs | wiki_core/_experience_pack_i18n.py:255-288 | the declared catalogs, each read again and checked against the walk, are the pinned ones or the pack is refused |
| PackPresentation.LoadPresentation | wiki_core/_experience_pack_i18n.py:185-200 | whatever is written between any two reads, accepted labels are those the lock pins; an untouched bundle is refused only if its entry is unreadable |
| PackOutcomes.CleanIsTidy | wiki_core/_experience_pack_lifecycle.py:832-873 | any sequence of runs, under any faults, each applied or ended where it began, leaves exactly what some commits account for |
| PackOutcomes.CleanRunsValidate | wiki_core/_experience_pack_lifecycle.py:1195-1280 | after any such sequence there is no finding, and composition succeeds exactly when the locale sets agree |
| PackOutcomes.OneFaultIsClean | wiki_core/_experience_pack_lifecycle.py:961-993 | a run with at most one fault is of that kind unless the receipt was taken or recovery is required |
| PackOutcomes.CrashThenRetry | wiki_core/_experience_pack_lifecycle.py:855-873 | what the same request meets after a crash at each step before the lock is replaced |
| PackOutcomes.CrashAfterCommit | wiki_core/_experience_pack_lifecycle.py:955-994 | after the replacement, the same request is refused as already done |
| PackOutcomes.CrashStrands | wiki_core/_experience_pack_lifecycle.py:250-275 | which bundle a crash at each step leaves that the lock does not name; from files whose every bundle is named, exactly that one |
| PackOutcomes.StrandedForever | wiki_core/_experience_pack_lifecycle.py:250-275 | such a bundle stays through any later operations and faults, and that version is never installed |
| PackOutcomes.CyclesTakeReceipt | wiki_core/_experience_pack_lifecycle.py:736-751 | after the cycles a branch can make, the next install is planned and then refused over its receipt, files unchanged |
| PackOutcomes.CommittedRunsApply | wiki_core/_experience_pack_lifecycle.py:832-873 | each committed request is applied when run alone in its turn |
| PackOutcomes.LocalesDiffer | wiki_core/_experience_pack_state.py:356-365 | two accepted installs with different locale sets, after which nothing composes |
| PackValidation.NothingToReport | wiki_core/_experience_pack_lifecycle.py:647-709 | on the files of any committed history there is no finding |
| PackTampering.NothingFoundIff | wiki_core/_experience_pack_lifecycle.py:1195-1261 | no finding exactly in sound files, field by field: bundles, manifests, receipts and their projections, chains, orphans, dependencies and pairs |
| PackTampering.TamperingFoundIff | wiki_core/_experience_pack_lifecycle.py:529-612 | whatever is done to the bundle and receipt files of a committed installation, there is no finding exactly when the bundles are those pinned and no others, every listed receipt is there, and every receipt there is named by its contents and shows what it says was done |
| PackValidation.ComposesIffSameLocales | wiki_core/_experience_pack_state.py:356-372 | after any history all presentations read, identifiers are disjoint, and composition succeeds exactly when the locale sets agree |
| PackValidation.InstallationValid | wiki_core/_experience_pack_lifecycle.py:1262-1280 | valid exactly when there is no finding and the active entries compose |
| PackValidation.ValidIffSameLocales | wiki_core/_experience_pack_lifecycle.py:1195-1280 | a committed installation validates exactly when its active packs declare one locale set |
| KitContent.DecodeBatch | scripts/wiki_sync_from_kit.py:155-172 | the loop over a moving offset reads exactly the records asked for and nothing after them |
| KitContent.DecodeOfEncode | scripts/wiki_sync_from_kit.py:155-172 | decoding inverts the framing for any payload bytes |
| KitContent.PrefixRefused | scripts/wiki_sync_from_kit.py:157-167 | every strict prefix of an accepted stream is refused as incomplete |
| KitContent.ExtensionRefused | scripts/wiki_sync_from_kit.py:171-172 | every strict extension is refused as invalid |
| KitFraming.HeaderSizeIff | scripts/wiki_sync_from_kit.py:157-164 | a header is accepted exactly when it is the object's name, the word `blob` and a decimal size, with whitespace between |
| KitFraming.AcceptedIffFramed | scripts/wiki_sync_from_kit.py:155-172 | a stream is accepted, with these payloads, exactly when it is header, newline, payload, newline for each object asked for, and nothing else |
| KitContent.SelectEntries | scripts/wiki_sync_from_kit.py:134-152 | the selection is every allowed and not blocked entry in order; the reasons for refusing are real |
| KitContent.TrackedFiles | scripts/wiki_sync_from_kit.py:134-173 | each selected path gets its own payload and mode |
| KitSync.PathStaysOk | scripts/wiki_sync_from_kit.py:66-77 | a tree that gains only safe paths and no symlink refuses no more paths |
| KitSync.LockReadIff | scripts/wiki_sync_from_kit.py:176-186 | the lock is read from a regular file alone, sync's own or one that reads as such; no file reads as no rows |
| KitSync.PathOkIff | scripts/wiki_sync_from_kit.py:66-77 | a path is refused exactly for a backslash or an empty, dotted or `.git` part, or because it leads to or through a link or a nested repository |
| KitSync.NothingBeneathAFence | scripts/wiki_sync_from_kit.py:66-77 | no sync, finished or interrupted, changes anything at a link or a nested repository or beneath one |
| KitSync.OnlySafePathsChange | scripts/wiki_sync_from_kit.py:66-77 | whatever changes has no such part in its path |
| KitSync.LockedRecords | scripts/wiki_sync_from_kit.py:360-381 | the lock file says which revision this is and, for exactly the kit's files, what was written |
| KitSync.Consumer.CompareFiles | scripts/wiki_sync_from_kit.py:233-248 | accepts exactly when each of the kit's paths is absent, already the same, or as the lock says |
| KitSync.Consumer.BuildPlan | scripts/wiki_sync_from_kit.py:209-255 | a plan exists exactly when no path is refused and no local edit would be lost; each error names a real obstacle |
| KitSync.Consumer.CopyC1 | scripts/wiki_sync_from_kit.py:310-344 | succeeds exactly when nothing moved, nothing stands in the way and it is not interrupted, with the planned tree; else the tree is partway |
| KitSync.Consumer.DeleteFiles | scripts/wiki_sync_from_kit.py:321-325 | the deletion loop, stopped anywhere, leaves a tree on the way; finished, exactly the deletions |
| KitSync.Consumer.WriteFiles | scripts/wiki_sync_from_kit.py:326-344 | the same for the writing loop; it fails where a file or a parent directory cannot go |
| KitSync.Consumer.VerifyC1 | scripts/wiki_sync_from_kit.py:347-357 | accepts exactly when every managed file is still the kit's |
| KitSync.Consumer.WriteLock | scripts/wiki_sync_from_kit.py:360-381 | the tree gains exactly the new lock, whatever but a directory stands there |
| KitSync.Consumer.Sync | scripts/wiki_sync_from_kit.py:412-428 | succeeds exactly when the plan is accepted, nothing stands in its way or interrupts it, and the result verifies and can take the lock, which then records the revision and its files; otherwise the tree is as before, partway, or as the commands left it |
| KitSync.NoEditLost | scripts/wiki_sync_from_kit.py:236-254 | whatever sync overwrites or deletes was as the previous lock recorded; what it creates was absent |
| KitSync.AfterApply | scripts/wiki_sync_from_kit.py:310-344 | managed paths are the kit's, dropped files are gone, directories are made where needed, every other path is untouched |
| KitSync.RestartIff | scripts/wiki_sync_from_kit.py:236-254 | from where an interruption left the tree, the same revision is accepted exactly when no dropped file has become a directory |
| KitSync.RestartEnds | scripts/wiki_sync_from_kit.py:310-344 | and then it ends in the same tree |
| KitSync.RestartableIff | scripts/wiki_sync_from_kit.py:249-254 | accepted after every interruption if no managed file must make way for a directory, and only then where nothing stands in the copy's way |
| KitSync.CopyThenPlanAgain | scripts/wiki_sync_from_kit.py:209-344 | a full copy, and planning again before the lock is written: accepted exactly under that condition |
| KitSync.FileMakesWay | scripts/wiki_sync_from_kit.py:249-254 | an input where one must |
| KitSync.LockSurvives | scripts/wiki_sync_from_kit.py:360-381 | an interruption leaves the previous lock readable as it was |
| KitSync.OtherRevisionIff | scripts/wiki_sync_from_kit.py:236-254 | after an interruption another revision is accepted exactly when its paths are not refused, untouched paths suit it as before, and written ones agree with it or with the lock |
| KitSync.AddedThenRefused | scripts/wiki_sync_from_kit.py:242-244 | an interrupted first sync, and a revision with another file at its path, which is refused |
| KitSync.SecondSyncIdle | scripts/wiki_sync_from_kit.py:233-254 | a second sync plans nothing exactly when the lock file is not selected |
| KitSync.SelectingTheLockWedges | scripts/wiki_sync_from_kit.py:360-381 | selecting the lock file makes every later plan of any revision fail |
| KitSync.NextSyncAccepted | scripts/wiki_sync_from_kit.py:236-254 | after a sync, a next revision is accepted exactly when its own new paths are safe and absent or already equal; a directory left behind counts as present |
| KitSync.VersionsConverge | scripts/wiki_sync_from_kit.py:310-381 | over any sequence of versions, each planned from the lock it finds, interruptions, commands and consumer edits, a path the consumer leaves alone ends as the last version has it, gone, or as at the start |
| Text.WordsSeparate | wiki_core/chunking.py:18-19 | whitespace between two texts separates their words |
| Text.SpaceIff | wiki_core/chunking.py:18-19 | which characters are whitespace, one by one |
| Text.WordsOfJoinedWords | wiki_core/chunking.py:93-96 | splitting undoes joining words with a space |
| Text.SplitJoin | wiki_core/chunking.py:70-74 | splitting at a character and joining with it gives back the text |
| Text.StripShape | wiki_core/chunking.py:36-40 | stripping takes whitespace off both ends, and all of it |
| Text.Utf8Reads | wiki_core/chunking.py:86 | texts with the same UTF-8 bytes are the same |
| Text.BytesAreUtf8 | wiki_core/chunking.py:86 | the byte count is that of the UTF-8 encoding |
| Chunking.CutWindows | wiki_core/chunking.py:91-99 | the window loop ends and takes exactly the specified windows |
| Chunking.WindowsCover | wiki_core/chunking.py:92-99 | windows run from the first word to the last, in order, without a gap, none longer than the target, whatever the overlap |
| Chunking.EveryWordCovered | wiki_core/chunking.py:92-99 | every word is in some window |
| ChunkSizes.WindowsOverlap | wiki_core/chunking.py:92-99 | each window but the last is a full target long and shares exactly the overlap with the next, or all but one word |
| ChunkSizes.TargetInTokens | wiki_core/chunking.py:58 | the target is the most words whose tokens do not exceed those asked for, or 80 |
| ChunkSizes.OverlapInTokens | wiki_core/chunking.py:59 | and so the overlap, or none |
| ChunkSizes.OversizedIff | wiki_core/chunking.py:92 | a unit is cut exactly when it is no row and has more than one and a half times the target words |
| ChunkSizes.WeightIs | wiki_core/chunking.py:108-111 | a paragraph weighs its words, a row the least number that is no less than its words and a fifth of its bytes |
| ChunkSizes.RowRefusedIff | wiki_core/chunking.py:86-89 | a row is refused exactly over 32000 bytes or one and a half times the target words |
| Chunking.ExpandUnits | wiki_core/chunking.py:81-101 | rows are kept or refused, oversized units cut, others kept |
| Chunking.ExpandBounded | wiki_core/chunking.py:91-101 | after expansion no unit but a row exceeds one and a half times the target |
| Chunking.GroupUnits | wiki_core/chunking.py:103-121 | the grouping loop gives the texts between greedy boundaries |
| Chunking.CutsAreGrouping | wiki_core/chunking.py:103-121 | greedy boundaries respect the target |
| Chunking.GreedyOptimal | wiki_core/chunking.py:103-121 | no admissible contiguous grouping has fewer groups |
| ChunkSizes.FewestChunks | wiki_core/chunking.py:58-121 | no grouping of neighbouring units that holds groups of several to the tokens asked for has fewer groups than the text has chunks |
| Chunking.GroupRespectsTarget | wiki_core/chunking.py:112-116 | each group of two or more units weighs at most the target |
| Chunking.ChunkSize | wiki_core/chunking.py:112-121 | size bounds of the groups without rows |
| Chunking.SuffixDetermines | wiki_core/chunking.py:103-121 | from a common boundary on, equal units give equal groups |
| Chunking.GroupsRejoin | wiki_core/chunking.py:112-121 | joining the groups gives back the join of the units |
| SourceChunks.SplitKeepsWords | wiki_core/chunking.py:22-41 | however a text is split, its units hold its words in order and none is blank |
| SourceSplits.SplitUnitsIff | wiki_core/chunking.py:22-41 | a text is divided at blank lines exactly if they separate something, else at line ends if those do, else not at all |
| SourceSplits.LineBreakIff | wiki_core/chunking.py:39 | which characters end a line, one by one |
| SourceSplits.UnitsByIff | wiki_core/chunking.py:36-39 | there is one list of units that lie in the text in order, divided and trimmed, with none divided within; it has several exactly when the divider separates something |
| SourceSplits.PreservedLines | wiki_core/chunking.py:73 | the rows of preserved lines are exactly the lines that are not blank, as they are and in order |
| SourceSplits.ModesRefused | wiki_core/chunking.py:60-67 | a call is refused before its units are looked at exactly for two modes at once or units that differ from the text |
| SourceSplits.ModesOfUnits | wiki_core/chunking.py:68-77 | which units and which separator each mode gives |
| SourceChunks.ChunkText | wiki_core/chunking.py:44-136 | the whole function gives the specified chunks or error |
| SourceChunks.ChunksRejoin | wiki_core/chunking.py:103-136 | joining the chunks gives back the join of the expanded units |
| SourceSplits.PreservedLinesRejoin | wiki_core/chunking.py:70-136 | with preserved lines, joining the chunks gives back the lines that are not blank |
| ChunkSizes.IdIs | wiki_core/chunking.py:123-136 | a chunk's id is the source's, the ordinal in four digits or more, and the first ten of its digest |
| ChunkSizes.EstimateInWords | wiki_core/chunking.py:18-19 | an estimate is 1.35 tokens a word, rounded down, and one at least |
| ChunkSizes.EstimateIs | wiki_core/chunking.py:131-132 | and with a row the least number that is also no less than a quarter of the bytes |
| SourceChunks.SourceUnitsRejoin | wiki_core/chunking.py:62-69 | with document units and none oversized, joining the chunks is the exact text |
| SourceChunks.PlainTextKeepsWords | wiki_core/chunking.py:74-136 | without overlap or without an oversized unit, the chunks of a plain text hold its words exactly |
| SourceChunks.PlainChunkSize | wiki_core/chunking.py:18-19 | at most 1.5 times the target words; two or more units estimate at most the target tokens from 108 up |
| ChunkEdits.EditStaysLocal | wiki_core/chunking.py:46-57 | a unit replaced by one of equal weight changes at most one chunk, in id, text and digest |
| ChunkEdits.CutsKeptIff | wiki_core/chunking.py:112-119 | all boundaries stay exactly when the new weight respects the slack of its own group and the one before |
| ChunkEdits.GroupsKeptIff | wiki_core/chunking.py:103-121 | every other group keeps its text and place exactly then |
| ChunkEdits.AroundIff | wiki_core/chunking.py:112-119 | the texts before the edited group stay in place and those after it at the end exactly when there is room |
| ChunkEdits.EditIsLocalIff | wiki_core/chunking.py:46-57 | every other chunk of the document keeps its text exactly when the new weight leaves room, and number, id and ordinal too exactly when it respects the slack |
| ChunkEdits.OneWordSpreads | wiki_core/chunking.py:46-57 | a document of distinct paragraphs of which one word more leaves a chunk of unedited paragraphs in no new chunk |
| ChunkEdits.FiveWordsStay | wiki_core/chunking.py:112-119 | an unequal edit within the slack |
| ChunkEdits.OwnChunkSplits | wiki_core/chunking.py:112-119 | an edit with room and without slack |
| ChunkReading.CheckChunks | scripts/wiki_llm_context_pass.py:84-98 | accepts exactly non-blank chunks of this source with matching digests and distinct ids |
| ChunkReading.IdsDistinct | wiki_core/chunking.py:123-136 | ordinals alone keep chunk ids apart |
| ChunkReading.TextChunksAccepted | scripts/wiki_llm_context_pass.py:84-98 | chunks of plain text and of preserved lines always pass that check |
| ChunkReading.AcceptedIff | scripts/wiki_llm_context_pass.py:84-98 | chunks pass exactly when no group is of blank units only |
| ChunkReading.AcceptedIffNoBlankRun | wiki_core/chunking.py:112-121 | when blank units weigh nothing: exactly when no run of them lies between the start or a unit over the target and the end or a unit over the target |
| ChunkReading.EmptyParagraphRefused | wiki_core/chunking.py:112-121 | an empty paragraph before a long one becomes a refused blank chunk |
| ActionDialogue.ValidateHistory | wiki_core/action_dialogue.py:17-50 | the loop with seen and answered accepts exactly the valid histories |
| ActionDialogue.AppendEvent | wiki_core/action_dialogue.py:53-95 | adds the draft's event, its text without the whitespace around it, exactly when nothing objects, and otherwise gives the first objection in order; the stamp is not looked at |
| ActionDialogue.AcceptsIff | wiki_core/action_dialogue.py:53-92 | nothing objects exactly when the history is valid and not full, the action open, the text clean and short enough unstripped, and the event fits the history |
| ActionDialogue.EventForm | wiki_core/action_dialogue.py:27-31 | an event's own form: id, one of five kinds, text, coordinator, and one of two actors |
| ActionDialogue.StampForm | wiki_core/action_dialogue.py:31-38 | its stamp: an instant and a digest |
| ActionDialogue.AcceptedIffValid | wiki_core/action_dialogue.py:53-95 | with a valid stamp, that is exactly when the extended history is valid |
| ActionDialogue.AppendBadStamp | wiki_core/action_dialogue.py:93-95 | any bad stamp is accepted, and makes a history that is not valid |
| ActionDialogue.PrefixValid | wiki_core/action_dialogue.py:17-50 | every prefix of a valid history is valid |
| ActionDialogue.BadStampIsFinal | wiki_core/action_dialogue.py:53-95 | a bad stamp makes every later extension invalid |
| ActionDialogue.DialogueSummary | wiki_core/action_dialogue.py:98-103 | the pending questions of a valid history, refused otherwise |
| ActionDialogue.PendingStep | wiki_core/action_dialogue.py:98-103 | a question joins the end of what is pending, an answer takes out exactly its own |
| ActionDialogue.PendingIff | wiki_core/action_dialogue.py:98-103 | pending are exactly the questions that no answer names |
| ActionDialogue.AnswerCrosses | wiki_core/action_dialogue.py:41-47 | every answer crosses between the operator and the coordinator of its question |
| ActionDialogue.QuestionsBalance | wiki_core/action_dialogue.py:98-103 | questions are answers plus pending ids |
| ActionDialogue.AnswersPointBack | wiki_core/action_dialogue.py:42-47 | each answer has its own earlier question by the other actor |
| ArchiveLinks.SiblingsAgree | scripts/wiki_archive.py:62-76 | a path from two sibling folders leads to one place exactly when it climbs out |
| ArchiveLinks.RelativePathLeads | scripts/wiki_archive.py:120-121 | the computed relative path leads to its target |
| ArchiveLinks.RelativePathShortest | scripts/wiki_archive.py:120-121 | no path that leads there is shorter |
| ArchiveLinks.ResolveSkips | scripts/wiki_archive.py:116 | empty parts and single dots lead nowhere, any other name leads into it, and double dots undo the name before |
| ArchiveLinks.ProposalLinkKept | scripts/wiki_archive.py:62-76 | shifting a proposal's link keeps its target exactly when it is not an absolute path |
| ArchiveLinks.AbsoluteLinkMoved | scripts/wiki_archive.py:62-76 | an absolute one is then read from the folder above |
| ArchiveLinks.EventLinkKept | scripts/wiki_archive.py:142-169 | shifting an event's link keeps its target exactly when it climbs out of the folder |
| ArchiveLinks.InboundLinkFollows | scripts/wiki_archive.py:109-123 | a link to the moved page follows it if written with a name at its end; every other link keeps its target |
| ArchiveLinks.Wiki.MovePage | scripts/wiki_archive.py:166-191 | the loop over pages leaves the moved page shifted and all others rewritten |
| ArchiveLinks.Wiki.ArchiveOne | scripts/wiki_archive.py:138-191 | both moves, or nothing when a destination is taken |
| ArchiveLinks.LinksAfter | scripts/wiki_archive.py:138-191 | what becomes of each link of each page |
| ArchiveLinks.PagesAfter | scripts/wiki_archive.py:138-191 | no page is lost or made |
| ArchiveLinks.ContentsAfter | scripts/wiki_archive.py:62-123 | prose, titles, URLs, anchors and fragments are as they were |
| ArchiveLinks.OtherLinksUntouched | scripts/wiki_archive.py:109-123 | a page that stays keeps every link to no moved page, to the letter |
| ArchiveLinks.LinkGraphIff | scripts/wiki_archive.py:142-191 | a link names the same page as before, wherever that now is, exactly when it survives: by kind, by its last name, by whose it is |
| ArchiveLinks.SelfLinkLeftBehind | scripts/wiki_archive.py:102-105 | a page's link to itself names the place it moved from |

## Left out

- Pack resolution (`_experience_pack_validation` is not part of this model): a resolved source is taken to meet the
  per-entry rules and to carry catalogs for exactly its identifiers.
- Inode, symlink and descriptor checks of deletion: it completes, fails unchanged, or fails partway.
- Torn writes inside one primitive: each is all or nothing.
- Processes that ignore the operation guard, except readers of the composition; `owned_bundle_path_reoccupied`.
- Text of YAML and JSON, real SHA-256, malformed version tokens: values, injective digests and comparators.
- The order and detail strings of raised errors; sorted iteration, for which any order is allowed.
- The file inventory of a lock entry, which the tree digest stands for, and catalog copy keys and plain-label checks.
- Review-branch gates, dry runs, plan responses and Git: a branch is a string on the request.
- Floating-point rounding: 1.35 and 1.5 are the rationals 27/20 and 3/2.
- Kit sync: manifest patterns are two given predicates; the dirty-tree gate, printing, and the source-revision
  checks are not modelled; a revision's tree is taken to have no file that is a directory of another; the kit is one
  fixed map for a call. Integers of more digits than Python converts are read as numbers.
- KitSync.Consumer.Sync: the consumer's commands are one function of the tree, with no state of their own.
- Chunking: ill-typed document units; the extraction observation that an empty chunk list requires.
- Action dialogue: ill-typed records; instants and the secret scan are given predicates.
- Archive links: frontmatter annotations and the textual replacement of full paths, Git tracking and staging, the gate
  transition; the event is taken to lie in the events folder beside the proposal.
- PackLoading.LoadLock: status, digest form, paths and field sets are fixed by the types, and the file inventory is not
  among the rules, because the tree digest stands for it.
- ChunkEdits.EditIsLocalIff: neither the old nor the new unit is oversized.
- ChunkReading.AcceptedIffNoBlankRun: blank units weigh nothing; with blank rows the condition is that of AcceptedIff.
- Registry listing, audits, demo pages, uploads, web and language-model wrappers.
