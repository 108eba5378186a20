/**
 Planning: from a request and the lock it finds, an operation derives the next lock, the receipt
 it will write, the bundle it will create and the bundle it will retire. Planning writes nothing.
 */
module PackPlanning {
  import opened Outcomes
  import opened PackModel
  import opened PackNames
  import opened PackComposition

  datatype Op =
    | Install(src: PackSource)
    | Upgrade(src: PackSource)
    | Disable(id: PackId)
    | Remove(id: PackId)

  /** A request with the review branch recorded on its receipt. */
  datatype Job = Job(op: Op, branch: string)

  function Target(op: Op): PackId {
    match op
    case Install(src) => src.Id()
    case Upgrade(src) => src.Id()
    case Disable(id) => id
    case Remove(id) => id
  }

  predicate SourceResolved(op: Op) {
    match op
    case Install(src) => Resolved(src)
    case Upgrade(src) => Resolved(src)
    case Disable(_) => true
    case Remove(_) => true
  }

  /** A bundle directory with the files it must hold. */
  datatype Owned = Owned(path: BundlePath, tree: Tree)

  datatype Plan = Plan(
    previous: Lock, next: Lock, receipt: Identity, created: Option<Owned>, retired: Option<Owned>)
  {
    function Receipt(): ReceiptId { ReceiptId(receipt) }
  }

  function BundleOf(id: PackId, pin: Pin): Owned {
    Owned(BundlePath(id, pin.version), pin.treeSha.of)
  }

  function MakeReceipt(
    action: Action, id: PackId, version: Version, previous: Lock, next: Lock, changes: set<Change>,
    branch: string): Identity
  {
    Identity(action, id, version, LockSha(previous), Project(next), Sha(Project(next)), branch, changes)
  }

  // ----- install and upgrade ----------------------------------------------------------------

  function InstallChanges(src: PackSource, lockFile: bool, current: Option<Entry>): set<Change> {
    {CreateBundle(BundlePath(src.Id(), src.Version())),
     if lockFile then ReplaceLock else CreateLock,
     CreateReceipt(src.Id())}
    + match current
      case None => {}
      case Some(entry) =>
        {ValidateMigration(src.tree.manifest.upgradesDir, entry.pin.version, src.Version()),
         DeleteBundle(BundlePath(src.Id(), entry.pin.version))}
  }

  /**
   The receipt is computed twice, first against a lock without its own id and then against the
   lock that names it; the two must agree.
   */
  function InstallPlan(src: PackSource, lock: Lock, lockFile: bool, branch: string, current: Option<Entry>)
    : (r: Result<Plan, Code>)
  {
    var id := src.Id();
    if current.None? && id in lock then Err(PackAlreadyInstalled) else
    var action := if current.None? then InstallAction else UpgradeAction;
    var pin := PinFor(src, if current.None? then Active else current.value.pin.status);
    var failure := AdmissionFailure(id, pin, ActiveEntries(lock, if current.None? then None else Some(id)));
    if failure.Some? then Err(failure.value) else
    var prior := if current.None? then [] else current.value.receipts;
    var changes := InstallChanges(src, lockFile, current);
    var provisional := MakeReceipt(
      action, id, src.Version(), lock, LockWithEntry(lock, id, Some(Entry(pin, prior))), changes, branch);
    var next := LockWithEntry(lock, id, Some(Entry(pin, prior + [ReceiptId(provisional)])));
    var receipt := MakeReceipt(action, id, src.Version(), lock, next, changes, branch);
    if receipt != provisional then Err(ReceiptIdentityNotStable) else
    Ok(Plan(lock, next, receipt, Some(Owned(BundlePath(id, src.Version()), src.tree)),
            if current.None? then None else Some(BundleOf(id, current.value.pin))))
  }

  function MigrationFailure(src: PackSource, from: Version): Option<Code> {
    if from !in src.tree.migrations then Some(UpgradeMigrationMissing)
    else if src.tree.migrations[from] != Migration(src.Id(), from, src.Version()) then
      Some(UpgradeMigrationVersionMismatch)
    else None
  }

  // ----- disable and remove -----------------------------------------------------------------

  /** For disable the receipt is recomputed against the lock that names it, as for install. */
  function DisablePlan(id: PackId, lock: Lock, branch: string): Result<Plan, Code> {
    if id !in lock then Err(PackNotInstalled)
    else if HasActiveDependent(lock, id) then Err(DependentPackActive)
    else if lock[id].pin.status == Disabled then Err(PackAlreadyDisabled)
    else
      var entry := lock[id];
      var pin := entry.pin.(status := Disabled);
      var changes := {ReplaceLock, CreateReceipt(id)};
      var first := MakeReceipt(DisableAction, id, pin.version, lock,
                               LockWithEntry(lock, id, Some(Entry(pin, entry.receipts))), changes, branch);
      var next := LockWithEntry(lock, id, Some(Entry(pin, entry.receipts + [ReceiptId(first)])));
      Ok(Plan(lock, next, MakeReceipt(DisableAction, id, pin.version, lock, next, changes, branch), None, None))
  }

  function RemovePlan(id: PackId, lock: Lock, branch: string): Result<Plan, Code> {
    if id !in lock then Err(PackNotInstalled)
    else if HasActiveDependent(lock, id) then Err(DependentPackActive)
    else
      var pin := lock[id].pin;
      var next := LockWithEntry(lock, id, None);
      var changes := {ReplaceLock, DeleteBundle(BundlePath(id, pin.version)), CreateReceipt(id)};
      Ok(Plan(lock, next, MakeReceipt(RemoveAction, id, pin.version, lock, next, changes, branch),
              None, Some(BundleOf(id, pin))))
  }

  /** The plan of any request, before the checks that look at the disk. */
  function PlanFor(job: Job, lock: Lock, lockFile: bool): Result<Plan, Code> {
    match job.op
    case Install(src) => InstallPlan(src, lock, lockFile, job.branch, None)
    case Upgrade(src) =>
      if src.Id() !in lock then Err(PackNotInstalled)
      else if !Precedes(lock[src.Id()].pin.version, src.Version()) then Err(UpgradeRequiresNewerVersion)
      else if MigrationFailure(src, lock[src.Id()].pin.version).Some? then
        Err(MigrationFailure(src, lock[src.Id()].pin.version).value)
      else InstallPlan(src, lock, lockFile, job.branch, Some(lock[src.Id()]))
    case Disable(id) => DisablePlan(id, lock, job.branch)
    case Remove(id) => RemovePlan(id, lock, job.branch)
  }

  // ----- what a plan binds ------------------------------------------------------------------

  lemma ReceiptListsNotProjected(lock: Lock, id: PackId, pin: Pin, a: seq<ReceiptId>, b: seq<ReceiptId>)
    ensures Project(LockWithEntry(lock, id, Some(Entry(pin, a))))
         == Project(LockWithEntry(lock, id, Some(Entry(pin, b))))
         == Project(lock)[id := pin]
  {
  }

  /** Writing a receipt's own id into the lock never changes that id. */
  lemma ReceiptIdentityStable(job: Job, lock: Lock, lockFile: bool)
    ensures PlanFor(job, lock, lockFile) != Err(ReceiptIdentityNotStable)
  {
    match job.op
    case Install(src) => InstallReceiptStable(src, lock, lockFile, job.branch, None);
    case Upgrade(src) =>
      if src.Id() in lock {
        InstallReceiptStable(src, lock, lockFile, job.branch, Some(lock[src.Id()]));
      }
    case Disable(_) =>
    case Remove(_) =>
  }

  lemma InstallReceiptStable(src: PackSource, lock: Lock, lockFile: bool, branch: string, current: Option<Entry>)
    ensures InstallPlan(src, lock, lockFile, branch, current) != Err(ReceiptIdentityNotStable)
  {
    var id := src.Id();
    var action := if current.None? then InstallAction else UpgradeAction;
    var pin := PinFor(src, if current.None? then Active else current.value.pin.status);
    var prior := if current.None? then [] else current.value.receipts;
    var provisional := MakeReceipt(action, id, src.Version(), lock,
      LockWithEntry(lock, id, Some(Entry(pin, prior))), InstallChanges(src, lockFile, current), branch);
    ReceiptListsNotProjected(lock, id, pin, prior, prior + [ReceiptId(provisional)]);
  }

  /** The entry a plan leaves for its target, without the receipt list. */
  function NextPin(op: Op, lock: Lock): Option<Pin> {
    match op
    case Install(src) => Some(PinFor(src, Active))
    case Upgrade(src) =>
      if src.Id() in lock then Some(PinFor(src, lock[src.Id()].pin.status)) else None
    case Disable(id) => if id in lock then Some(lock[id].pin.(status := Disabled)) else None
    case Remove(_) => None
  }

  function ReceiptsBefore(op: Op, lock: Lock): seq<ReceiptId> {
    if op.Install? || Target(op) !in lock then [] else lock[Target(op)].receipts
  }

  function ActionOf(op: Op): Action {
    match op
    case Install(_) => InstallAction
    case Upgrade(_) => UpgradeAction
    case Disable(_) => DisableAction
    case Remove(_) => RemoveAction
  }

  /**
   The whole effect of a valid plan: one entry changes, its receipt list grows by the plan's own
   receipt, and the receipt binds the lock it was planned from and the projection of the next.
   */
  lemma PlanEffect(job: Job, lock: Lock, lockFile: bool)
    requires PlanFor(job, lock, lockFile).Ok?
    ensures var p := PlanFor(job, lock, lockFile).value;
            var id := Target(job.op);
            && p.previous == lock
            && p.receipt.previous == LockSha(lock)
            && p.receipt.next == Project(p.next)
            && p.receipt.nextSha == Sha(Project(p.next))
            && p.receipt.pack == id
            && p.receipt.action == ActionOf(job.op)
            && p.receipt.branch == job.branch
            && p.next == LockWithEntry(lock, id,
                 if job.op.Remove? then None
                 else Some(Entry(NextPin(job.op, lock).value, ReceiptsBefore(job.op, lock) + [p.Receipt()])))
  {
    var id := Target(job.op);
    match job.op
    case Install(src) =>
    case Upgrade(src) =>
    case Disable(_) =>
      ReceiptListsNotProjected(lock, id, lock[id].pin.(status := Disabled), lock[id].receipts,
        PlanFor(job, lock, lockFile).value.next[id].receipts);
    case Remove(_) =>
  }

  lemma ReceiptVersion(job: Job, lock: Lock, lockFile: bool)
    requires PlanFor(job, lock, lockFile).Ok?
    ensures !job.op.Remove? ==>
              NextPin(job.op, lock).Some? && PlanFor(job, lock, lockFile).value.receipt.version == NextPin(job.op, lock).value.version
  {
  }

  lemma PlanBundles(job: Job, lock: Lock, lockFile: bool)
    requires PlanFor(job, lock, lockFile).Ok?
    ensures var p := PlanFor(job, lock, lockFile).value;
            var id := Target(job.op);
            && (p.created == if job.op.Install? || job.op.Upgrade?
                             then Some(BundleOf(id, NextPin(job.op, lock).value)) else None)
            && (p.retired == if job.op.Upgrade? || job.op.Remove? then Some(BundleOf(id, lock[id].pin)) else None)
            && (job.op.Install? <==> id !in lock)
            && (job.op.Upgrade? ==> Precedes(lock[id].pin.version, p.created.value.path.version))
  {
  }

  /**
   Two valid plans produce the same receipt exactly when they answer the same request, on the
   same branch, from the same lock, with the same answer to whether a lock file existed.
   */
  lemma ReceiptsCollide(j: Job, lock: Lock, file: bool, j': Job, lock': Lock, file': bool)
    requires PlanFor(j, lock, file).Ok? && PlanFor(j', lock', file').Ok?
    ensures PlanFor(j, lock, file).value.Receipt() == PlanFor(j', lock', file').value.Receipt()
       <==> && j == j' && lock == lock'
            && ((j.op.Install? || j.op.Upgrade?) ==> file == file')
  {
    hide PlanFor, NextPin;
    PlanEffect(j, lock, file);
    PlanEffect(j', lock', file');
    ReceiptTellsFile(j, lock, file);
    ReceiptTellsFile(j', lock', file');
    var r, r' := PlanFor(j, lock, file).value.receipt, PlanFor(j', lock', file').value.receipt;
    if r == r' {
      assert lock == lock' && ActionOf(j.op) == ActionOf(j'.op) && Target(j.op) == Target(j'.op);
      if j.op.Install? || j.op.Upgrade? {
        SameSource(j, j', lock, r.next);
      }
    } else if j == j' && lock == lock' {
      FileIrrelevant(j, lock, file, file');
    }
  }

  /** An install or upgrade records whether there was a lock file to replace. */
  lemma ReceiptTellsFile(job: Job, lock: Lock, lockFile: bool)
    requires PlanFor(job, lock, lockFile).Ok?
    ensures job.op.Install? || job.op.Upgrade? ==>
              NextPin(job.op, lock).Some?
              && (lockFile <==> ReplaceLock in PlanFor(job, lock, lockFile).value.receipt.changes)
  {
  }

  lemma FileIrrelevant(job: Job, lock: Lock, a: bool, b: bool)
    ensures a == b || job.op.Disable? || job.op.Remove? ==> PlanFor(job, lock, a) == PlanFor(job, lock, b)
  {
  }

  lemma SameSource(j: Job, j': Job, lock: Lock, next: Projection)
    requires (j.op.Install? && j'.op.Install?) || (j.op.Upgrade? && j'.op.Upgrade?)
    requires Target(j.op) == Target(j'.op)
    requires NextPin(j.op, lock).Some? && NextPin(j'.op, lock).Some?
    requires Target(j.op) in next
    requires next[Target(j.op)] == NextPin(j.op, lock).value == NextPin(j'.op, lock).value
    ensures j.op == j'.op
  {
  }

  // ----- what a plan preserves --------------------------------------------------------------

  lemma InstallPlanAdmits(src: PackSource, lock: Lock, lockFile: bool, branch: string, current: Option<Entry>)
    requires InstallPlan(src, lock, lockFile, branch, current).Ok?
    ensures Admissible(src.Id(), PinFor(src, if current.None? then Active else current.value.pin.status),
                       ActiveEntries(lock, if current.None? then None else Some(src.Id())))
    ensures current.None? ==> src.Id() !in lock
  {
  }

  lemma EntryChangeKeepsComposed(lock: Lock, id: PackId, e: Entry)
    requires Composed(lock)
    requires Admissible(id, e.pin, ActiveEntries(lock, if id in lock then Some(id) else None))
    requires e.pin.status == if id in lock then lock[id].pin.status else Active
    ensures Composed(lock[id := e])
  {
    if id !in lock {
      assert ActiveEntries(lock, None) == ActiveEntries(lock, Some(id));
    }
    AdmissionKeepsComposed(lock, id, e);
  }

  lemma WithdrawalPlanKeepsComposed(lock: Lock, id: PackId, next: Lock)
    requires Composed(lock) && !HasActiveDependent(lock, id)
    requires next == lock - {id} || (id in next && next == lock[id := next[id]] && next[id].pin.status == Disabled)
    ensures Composed(next)
  {
    assert ActiveEntries(next, None) == ActiveEntries(lock, Some(id));
    WithdrawalKeepsComposed(lock, id, next);
  }

  /** Every accepted plan keeps the active packs compatible and their dependencies met. */
  lemma PlanKeepsComposed(job: Job, lock: Lock, lockFile: bool)
    requires PlanFor(job, lock, lockFile).Ok? && Composed(lock)
    ensures Composed(PlanFor(job, lock, lockFile).value.next)
  {
    PlanEffect(job, lock, lockFile);
    var next, id := PlanFor(job, lock, lockFile).value.next, Target(job.op);
    match job.op
    case Install(src) =>
      InstallPlanAdmits(src, lock, lockFile, job.branch, None);
      EntryChangeKeepsComposed(lock, id, next[id]);
    case Upgrade(src) =>
      InstallPlanAdmits(src, lock, lockFile, job.branch, Some(lock[id]));
      EntryChangeKeepsComposed(lock, id, next[id]);
    case Disable(_) =>
      WithdrawalPlanKeepsComposed(lock, id, next);
    case Remove(_) =>
      WithdrawalPlanKeepsComposed(lock, id, next);
  }

  /**
   A receipt hashes the lock it was planned from, so it cannot already be listed in that lock.
   */
  lemma ReceiptNotInItsOwnLock(lock: Lock, r: ReceiptId)
    requires r.identity.previous == LockSha(lock)
    ensures forall id :: id in lock ==> r !in lock[id].receipts
  {
  }

  /** The next lock always passes the loader's rules, receipt lists included. */
  lemma PlanKeepsLockOk(job: Job, lock: Lock, lockFile: bool)
    requires PlanFor(job, lock, lockFile).Ok? && LockOk(lock) && SourceResolved(job.op)
    ensures LockOk(PlanFor(job, lock, lockFile).value.next)
  {
    PlanEffect(job, lock, lockFile);
    var p, id := PlanFor(job, lock, lockFile).value, Target(job.op);
    if !job.op.Remove? {
      ReceiptNotInItsOwnLock(lock, p.Receipt());
      assert PinOk(id, p.next[id].pin);
    }
    forall other | other in p.next && other != id
      ensures PinOk(other, p.next[other].pin) && Distinct(p.next[other].receipts)
    {
      assert other in lock;
    }
  }
}
