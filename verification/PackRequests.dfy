/**
 Which requests are planned and which are refused, and why, said of the lock and the source alone.
 */
module PackRequests {
  import opened Outcomes
  import opened PackModel
  import opened PackNames
  import opened PackComposition
  import opened PackPlanning

  // ----- the rules, list by list ------------------------------------------------------------

  ghost predicate Apart(a: seq<string>, b: seq<string>) { forall name :: !(name in a && name in b) }

  /** Rows at one slot must all append. */
  ghost predicate MayShare(a: seq<SlotRow>, b: seq<SlotRow>) {
    forall x, y :: x in a && y in b && x.slot == y.slot ==> x.mode == Append && y.mode == Append
  }

  ghost predicate ListsApart(a: Capabilities, b: Capabilities) {
    && Apart(a.pageTypes, b.pageTypes) && Apart(a.blocks, b.blocks) && Apart(a.views, b.views)
    && Apart(a.commands, b.commands) && Apart(a.operations, b.operations)
    && Apart(a.temporalProfiles, b.temporalProfiles)
  }

  ghost predicate SlotsMayShare(a: Slots, b: Slots) {
    && MayShare(a.views, b.views) && MayShare(a.commands, b.commands)
    && MayShare(a.operations, b.operations) && MayShare(a.timelines, b.timelines)
  }

  /** Every dependency is another active pack, at a version inside its range. */
  ghost predicate FindsDependencies(m: Manifest, lock: Lock) {
    forall d :: d in m.dependencies ==>
      d.id != m.id && ActiveIn(lock, d.id) && Satisfies(lock[d.id].pin.version, d.range)
  }

  /** The pack may be active beside another that is. */
  ghost predicate FitsBeside(m: Manifest, other: PackId, pin: Pin) {
    && other !in m.conflicts && m.id !in pin.conflicts
    && (forall d :: d in pin.dependencies && d.id == m.id ==> Satisfies(m.version, d.range))
    && ListsApart(m.capabilities, pin.capabilities)
    && SlotsMayShare(m.slots, pin.slots)
  }

  ghost predicate Fits(m: Manifest, lock: Lock) {
    && FindsDependencies(m, lock)
    && forall other :: ActiveIn(lock, other) && other != m.id ==> FitsBeside(m, other, lock[other].pin)
  }

  /** Another active pack depends on it. */
  ghost predicate Needed(lock: Lock, id: PackId) {
    exists other, d :: ActiveIn(lock, other) && other != id && d in lock[other].pin.dependencies && d.id == id
  }

  // ----- admission by those rules -----------------------------------------------------------

  lemma ClashByLists(m: Manifest, p: Pin, other: PackId, q: Pin)
    requires p.capabilities == m.capabilities && p.slots == m.slots && p.conflicts == m.conflicts
    ensures DeclaredConflict(m.id, p, other, q) <==> other in m.conflicts || m.id in q.conflicts
    ensures CapabilityClash(p, q) <==> !ListsApart(m.capabilities, q.capabilities)
    ensures SlotClash(p, q) <==> !SlotsMayShare(m.slots, q.slots)
  {
    CapabilitiesByList(p.capabilities, q.capabilities);
    CapabilityClashByKey(p, q);
    SlotsByList(p.slots, q.slots);
  }

  lemma CapabilityClashByKey(p: Pin, q: Pin)
    ensures CapabilityClash(p, q) <==>
              exists key :: key != BlockPackages && SharesName(key, p.capabilities, q.capabilities)
  {
    if key :| key != BlockPackages && SharesName(key, p.capabilities, q.capabilities) {
      OwnedListed(key);
    }
  }

  lemma OwnedListed(key: Capability)
    requires key != BlockPackages
    ensures key in OWNED_CAPABILITIES
  {
  }

  lemma SharedByKey(key: Capability, a: Capabilities, b: Capabilities)
    ensures SharesName(key, a, b) <==> !Apart(a.Of(key), b.Of(key))
  {
  }

  lemma CapabilitiesByList(a: Capabilities, b: Capabilities)
    ensures (exists key :: key != BlockPackages && SharesName(key, a, b)) <==> !ListsApart(a, b)
  {
    hide SharesName, Apart;
    forall key { SharedByKey(key, a, b); }
    assert a.Of(PageTypes) == a.pageTypes && a.Of(Blocks) == a.blocks && a.Of(Views) == a.views;
    assert a.Of(Commands) == a.commands && a.Of(Operations) == a.operations;
    assert a.Of(TemporalProfiles) == a.temporalProfiles;
  }

  lemma RowsByList(a: seq<SlotRow>, b: seq<SlotRow>)
    ensures RowsClash(a, b) <==> !MayShare(a, b)
  {
  }

  lemma SlotsByList(a: Slots, b: Slots)
    ensures (exists kind: SlotKind :: RowsClash(a.Of(kind), b.Of(kind))) <==> !SlotsMayShare(a, b)
  {
    hide RowsClash, MayShare;
    RowsByList(a.views, b.views);
    RowsByList(a.commands, b.commands);
    RowsByList(a.operations, b.operations);
    RowsByList(a.timelines, b.timelines);
    assert a.Of(ViewSlots) == a.views && a.Of(CommandSlots) == a.commands;
    assert a.Of(OperationSlots) == a.operations && a.Of(TimelineSlots) == a.timelines;
    assert b.Of(ViewSlots) == b.views && b.Of(CommandSlots) == b.commands;
    assert b.Of(OperationSlots) == b.operations && b.Of(TimelineSlots) == b.timelines;
  }

  lemma FitsBesideByClash(src: PackSource, status: Status, other: PackId, q: Pin)
    ensures FitsBeside(src.tree.manifest, other, q)
       <==> !Clash(src.Id(), PinFor(src, status), other, q) && AcceptsVersion(q, src.Id(), src.Version())
  {
    hide CapabilityClash, SlotClash, ListsApart, SlotsMayShare;
    ClashByLists(src.tree.manifest, PinFor(src, status), other, q);
  }

  /** What the five passes of admission decide, over the packs that are active and not the candidate. */
  lemma AdmissibleIffFits(src: PackSource, status: Status, lock: Lock, excluding: Option<PackId>)
    requires excluding == if src.Id() in lock then Some(src.Id()) else None
    ensures Admissible(src.Id(), PinFor(src, status), ActiveEntries(lock, excluding)) <==> Fits(src.tree.manifest, lock)
  {
    hide Admissible, Clash, AcceptsVersion, FitsBeside, Satisfies;
    var others, m, p := ActiveEntries(lock, excluding), src.tree.manifest, PinFor(src, status);
    AdmissibleIffPairwise(src.Id(), p, others);
    assert forall o :: o in others <==> ActiveIn(lock, o) && o != m.id;
    forall o | o in others { FitsBesideByClash(src, status, o, others[o].pin); }
    DependenciesFound(m, p, lock, others);
  }

  lemma DependenciesFound(m: Manifest, p: Pin, lock: Lock, others: Lock)
    requires p.dependencies == m.dependencies
    requires forall o :: (o in others <==> ActiveIn(lock, o) && o != m.id) && (o in others ==> others[o] == lock[o])
    ensures DependenciesMet(p, others) <==> FindsDependencies(m, lock)
  {
    hide Satisfies;
    forall d
      ensures DependencyMet(d, others) <==>
                d.id != m.id && ActiveIn(lock, d.id) && Satisfies(lock[d.id].pin.version, d.range)
    {
    }
  }

  lemma DependentIffNeeded(lock: Lock, id: PackId)
    ensures HasActiveDependent(lock, id) <==> Needed(lock, id)
  {
    var others := ActiveEntries(lock, Some(id));
    if HasActiveDependent(lock, id) {
      var other :| other in others && DependsOn(others[other].pin, id);
      var i :| 0 <= i < |others[other].pin.dependencies| && others[other].pin.dependencies[i].id == id;
      assert ActiveIn(lock, other) && lock[other].pin.dependencies[i] in lock[other].pin.dependencies;
    }
    if other, d :| ActiveIn(lock, other) && other != id && d in lock[other].pin.dependencies && d.id == id {
      assert other in others && DependsOn(others[other].pin, id);
    }
  }

  // ----- requests ---------------------------------------------------------------------------

  lemma InstallAccepted(src: PackSource, branch: string, lock: Lock, lockFile: bool)
    ensures PlanFor(Job(Install(src), branch), lock, lockFile).Ok? <==> src.Id() !in lock && Fits(src.tree.manifest, lock)
    ensures PlanFor(Job(Install(src), branch), lock, lockFile) == Err(PackAlreadyInstalled) <==> src.Id() in lock
  {
    hide Fits, AdmissionFailure;
    InstallReceiptStable(src, lock, lockFile, branch, None);
    if src.Id() !in lock {
      AdmissibleIffFits(src, Active, lock, None);
      AdmissionCode(src.Id(), PinFor(src, Active), ActiveEntries(lock, None));
    }
  }

  /** A newer version, with a migration that names exactly this step, that fits beside the others. */
  lemma UpgradeAccepted(src: PackSource, branch: string, lock: Lock, lockFile: bool)
    ensures var id, to, migrations := src.Id(), src.Version(), src.tree.migrations;
            var r := PlanFor(Job(Upgrade(src), branch), lock, lockFile);
            && (r.Ok? <==>
                  && id in lock && Precedes(lock[id].pin.version, to)
                  && lock[id].pin.version in migrations
                  && migrations[lock[id].pin.version] == Migration(id, lock[id].pin.version, to)
                  && Fits(src.tree.manifest, lock))
            && (r == Err(PackNotInstalled) <==> id !in lock)
            && (r == Err(UpgradeRequiresNewerVersion) <==> id in lock && !Precedes(lock[id].pin.version, to))
            && (r == Err(UpgradeMigrationMissing) <==>
                  id in lock && Precedes(lock[id].pin.version, to) && lock[id].pin.version !in migrations)
            && (r == Err(UpgradeMigrationVersionMismatch) <==>
                  && id in lock && Precedes(lock[id].pin.version, to) && lock[id].pin.version in migrations
                  && migrations[lock[id].pin.version] != Migration(id, lock[id].pin.version, to))
  {
    hide Fits, AdmissionFailure, Precedes;
    if src.Id() in lock {
      var entry := lock[src.Id()];
      InstallReceiptStable(src, lock, lockFile, branch, Some(entry));
      AdmissibleIffFits(src, entry.pin.status, lock, Some(src.Id()));
      AdmissionCode(src.Id(), PinFor(src, entry.pin.status), ActiveEntries(lock, Some(src.Id())));
    }
  }

  lemma AdmissionCode(a: PackId, p: Pin, active: Lock)
    ensures AdmissionFailure(a, p, active) in {None, Some(PackConflict), Some(DependencyNotSatisfied),
              Some(ReverseDependencyNotSatisfied), Some(CapabilityConflict), Some(ExclusiveSlotConflict)}
  {
  }

  lemma DisableAccepted(id: PackId, branch: string, lock: Lock, lockFile: bool)
    ensures var r := PlanFor(Job(Disable(id), branch), lock, lockFile);
            && (r.Ok? <==> ActiveIn(lock, id) && !Needed(lock, id))
            && (r == Err(PackNotInstalled) <==> id !in lock)
            && (r == Err(DependentPackActive) <==> id in lock && Needed(lock, id))
            && (r == Err(PackAlreadyDisabled) <==> id in lock && !Needed(lock, id) && !ActiveIn(lock, id))
  {
    DependentIffNeeded(lock, id);
  }

  /** A pack that is switched off can be taken out as well. */
  lemma RemoveAccepted(id: PackId, branch: string, lock: Lock, lockFile: bool)
    ensures var r := PlanFor(Job(Remove(id), branch), lock, lockFile);
            && (r.Ok? <==> id in lock && !Needed(lock, id))
            && (r == Err(PackNotInstalled) <==> id !in lock)
            && (r == Err(DependentPackActive) <==> id in lock && Needed(lock, id))
  {
    DependentIffNeeded(lock, id);
  }

  // ----- what the receipt says was done -----------------------------------------------------

  ghost predicate NamesPath(o: Option<Owned>, path: BundlePath) { o.Some? && o.value.path == path }

  ghost predicate ListsFiles(changes: set<Change>, p: Plan, id: PackId, lockFile: bool) {
    && (forall path :: CreateBundle(path) in changes <==> NamesPath(p.created, path))
    && (forall path :: DeleteBundle(path) in changes <==> NamesPath(p.retired, path))
    && (forall pack :: CreateReceipt(pack) in changes <==> pack == id)
    && (CreateLock in changes <==> p.created.Some? && !lockFile)
    && (ReplaceLock in changes <==> CreateLock !in changes)
  }

  ghost predicate ListsMigration(changes: set<Change>, p: Plan, op: Op) {
    forall dir, from, to :: ValidateMigration(dir, from, to) in changes <==>
      && op.Upgrade? && dir == op.src.tree.manifest.upgradesDir
      && NamesPath(p.retired, BundlePath(Target(op), from)) && NamesPath(p.created, BundlePath(Target(op), to))
  }

  lemma ChangesOf(job: Job, lock: Lock, lockFile: bool)
    requires PlanFor(job, lock, lockFile).Ok?
    ensures var changes := PlanFor(job, lock, lockFile).value.receipt.changes;
            match job.op
            case Install(src) => changes == InstallChanges(src, lockFile, None)
            case Upgrade(src) => src.Id() in lock && changes == InstallChanges(src, lockFile, Some(lock[src.Id()]))
            case Disable(id) => changes == {ReplaceLock, CreateReceipt(id)}
            case Remove(id) =>
              id in lock && changes == {ReplaceLock, DeleteBundle(BundlePath(id, lock[id].pin.version)), CreateReceipt(id)}
  {
    hide AdmissionFailure, HasActiveDependent, MigrationFailure, Precedes, InstallChanges, PinFor;
  }

  /** The receipt lists exactly the bundles made and retired, its own file, and the lock as new or replaced. */
  lemma ReceiptListsFiles(job: Job, lock: Lock, lockFile: bool)
    requires PlanFor(job, lock, lockFile).Ok?
    ensures var p := PlanFor(job, lock, lockFile).value;
            ListsFiles(p.receipt.changes, p, Target(job.op), lockFile)
  {
    hide PlanFor;
    ChangesOf(job, lock, lockFile);
    PlanBundles(job, lock, lockFile);
    ReceiptTellsFile(job, lock, lockFile);
  }

  /** And the migration from the retired bundle to the new one, for an upgrade alone. */
  lemma ReceiptListsMigration(job: Job, lock: Lock, lockFile: bool)
    requires PlanFor(job, lock, lockFile).Ok?
    ensures var p := PlanFor(job, lock, lockFile).value;
            ListsMigration(p.receipt.changes, p, job.op)
  {
    hide PlanFor;
    ChangesOf(job, lock, lockFile);
    PlanBundles(job, lock, lockFile);
    ReceiptTellsFile(job, lock, lockFile);
  }

  /** The receipt is about the version the lock has for the pack afterwards, or had when it takes it out. */
  lemma ReceiptNamesVersion(job: Job, lock: Lock, lockFile: bool)
    requires PlanFor(job, lock, lockFile).Ok?
    ensures var p := PlanFor(job, lock, lockFile).value;
            var kept := if job.op.Remove? then lock else p.next;
            Target(job.op) in kept && p.receipt.version == kept[Target(job.op)].pin.version
  {
    hide AdmissionFailure, HasActiveDependent, MigrationFailure, Precedes;
  }
}
