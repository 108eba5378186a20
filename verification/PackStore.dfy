/**
 The lifecycle as the source runs it: one object whose fields are the files of a repository, and
 methods that change them step by step, with the rollbacks of the `except` branches written out.
 Every operation is proved to be a run of the step machine, so what is proved of all runs holds of
 these methods.
 */
module PackStore {
  import opened Outcomes
  import opened PackModel
  import opened PackComposition
  import opened PackPlanning
  import opened PackMachine

  // ----- deletion as one call ---------------------------------------------------------------

  /** Move aside, delete, and on a failure that lost nothing move back. */
  function Purge(fs: Files, o: Owned, faults: Faults): (Option<Code>, Files, Faults) {
    var rest := Rest(faults);
    if First(faults) != NoFault then (Some(OperatingSystemError), fs, rest)
    else if !Matches(fs.bundles, o) then (Some(InstalledBundleDrift), fs, rest)
    else
      var aside := MoveAside(fs, o);
      match First(rest)
      case NoFault => (None, Discard(aside, o), Rest(rest))
      case Partly => (Some(OperatingSystemError), Damage(aside, o), Rest(rest))
      case Fails =>
        (Some(OperatingSystemError), if First(Rest(rest)) == NoFault then MoveBack(aside, o) else aside,
         Rest(Rest(rest)))
  }

  /** What follows the deletion of an old bundle. */
  function AfterPurge(job: Job, plan: Plan, r: (Option<Code>, Files, Faults)): (Outcome, Files) {
    match r.0
    case None => (Applied, r.1)
    case Some(code) => Run(job, CleanupFailed(plan, r.1, code), r.1, r.2)
  }

  lemma PurgeOld(job: Job, plan: Plan, fs: Files, faults: Faults)
    requires plan.retired.Some?
    ensures Run(job, MovingOld(plan), fs, faults) == AfterPurge(job, plan, Purge(fs, plan.retired.value, faults))
  {
    var o, rest := plan.retired.value, Rest(faults);
    if First(faults) == NoFault && Matches(fs.bundles, o) {
      var aside := MoveAside(fs, o);
      assert Step(job, MovingOld(plan), fs, NoFault) == (DeletingOld(plan), aside);
      assert Run(job, MovingOld(plan), fs, faults) == Run(job, DeletingOld(plan), aside, rest);
      if First(rest) == Fails {
        assert Run(job, DeletingOld(plan), aside, rest)
            == Run(job, MovingOldBack(plan, OperatingSystemError), aside, Rest(rest));
      }
    }
  }

  lemma PurgeNew(job: Job, plan: Plan, why: Code, fs: Files, faults: Faults)
    requires plan.created.Some?
    ensures var r := Purge(fs, plan.created.value, faults);
            Run(job, MovingNew(plan, why), fs, faults) == (Failed(if r.0.None? then why else r.0.value), r.1)
  {
    var o, rest := plan.created.value, Rest(faults);
    if First(faults) == NoFault && Matches(fs.bundles, o) {
      var aside := MoveAside(fs, o);
      assert Run(job, MovingNew(plan, why), fs, faults) == Run(job, DeletingNew(plan, why), aside, rest);
      if First(rest) == Fails {
        assert Step(job, DeletingNew(plan, why), aside, Fails) == (MovingNewBack(plan, OperatingSystemError), aside);
        assert Run(job, DeletingNew(plan, why), aside, rest)
            == Run(job, MovingNewBack(plan, OperatingSystemError), aside, Rest(rest));
        assert Run(job, MovingNewBack(plan, OperatingSystemError), aside, Rest(rest))
            == (Failed(OperatingSystemError), MoveNewBackStep(plan, aside, First(Rest(rest))).1);
      } else {
        var end := Step(job, DeletingNew(plan, why), aside, First(rest));
        assert end == DeleteNewStep(plan, why, aside, First(rest)) && end.0.Done?;
        assert Run(job, end.0, end.1, Rest(rest)) == (end.0.outcome, end.1);
        assert Run(job, DeletingNew(plan, why), aside, rest) == (end.0.outcome, end.1);
      }
    }
  }

  // ----- the repository ---------------------------------------------------------------------

  class Repository {
    var lock: Lock
    var lockFile: bool
    var bundles: map<BundlePath, Tree>
    var receipts: map<ReceiptId, Identity>
    var quarantine: multiset<Remains>
    /** What the operating system will do to the next primitives. */
    var faults: Faults

    constructor (hadFile: bool, schedule: Faults)
      ensures State() == Files(map[], hadFile, map[], map[], multiset{}) && faults == schedule
    {
      lock, lockFile, bundles, receipts, quarantine := map[], hadFile, map[], map[], multiset{};
      faults := schedule;
    }

    function State(): Files
      reads this
    {
      Files(lock, lockFile, bundles, receipts, quarantine)
    }

    method TakeFault() returns (fault: Fault)
      modifies this`faults
      ensures fault == First(old(faults)) && faults == Rest(old(faults))
    {
      fault := First(faults);
      faults := Rest(faults);
    }

    // ----- primitives -----------------------------------------------------------------------

    method CopyBundle(o: Owned) returns (failure: Option<Code>)
      modifies this`bundles, this`faults
      ensures faults == Rest(old(faults))
      ensures failure == if First(old(faults)) != NoFault then Some(OperatingSystemError)
                         else if o.path in old(bundles) then Some(InstalledBundleAlreadyExists)
                         else None
      ensures bundles == if failure.None? then old(bundles)[o.path := o.tree] else old(bundles)
    {
      var fault := TakeFault();
      if fault != NoFault {
        return Some(OperatingSystemError);
      }
      if o.path in bundles {
        return Some(InstalledBundleAlreadyExists);
      }
      bundles := bundles[o.path := o.tree];
      return None;
    }

    /** Exclusive creation: an existing receipt of the same identity is an error. */
    method WriteReceipt(receipt: Identity) returns (failure: Option<Code>)
      modifies this`receipts, this`faults
      ensures faults == Rest(old(faults))
      ensures failure == if First(old(faults)) != NoFault then Some(OperatingSystemError)
                         else if ReceiptId(receipt) in old(receipts) then Some(ReceiptAlreadyExists)
                         else None
      ensures receipts == if failure.None? then old(receipts)[ReceiptId(receipt) := receipt] else old(receipts)
    {
      var fault := TakeFault();
      if fault != NoFault {
        return Some(OperatingSystemError);
      }
      if ReceiptId(receipt) in receipts {
        return Some(ReceiptAlreadyExists);
      }
      receipts := receipts[ReceiptId(receipt) := receipt];
      return None;
    }

    method AtomicWriteLock(next: Lock, expected: Lock) returns (failure: Option<Code>)
      modifies this`lock, this`lockFile, this`faults
      ensures faults == Rest(old(faults))
      ensures failure == if First(old(faults)) != NoFault then Some(OperatingSystemError)
                         else if old(lock) != expected then Some(PackLockChangedDuringOperation)
                         else None
      ensures if failure.None? then lock == next && lockFile else lock == old(lock) && lockFile == old(lockFile)
    {
      var fault := TakeFault();
      if fault != NoFault {
        return Some(OperatingSystemError);
      }
      if lock != expected {
        return Some(PackLockChangedDuringOperation);
      }
      lock, lockFile := next, true;
      return None;
    }

    method UnlinkReceipt(id: ReceiptId) returns (failure: Option<Code>)
      modifies this`receipts, this`faults
      ensures faults == Rest(old(faults))
      ensures failure == if First(old(faults)) != NoFault then Some(OperatingSystemError) else None
      ensures receipts == if failure.None? then old(receipts) - {id} else old(receipts)
    {
      var fault := TakeFault();
      if fault != NoFault {
        return Some(OperatingSystemError);
      }
      receipts := receipts - {id};
      return None;
    }

    method QuarantineAndDelete(o: Owned) returns (failure: Option<Code>)
      modifies this`bundles, this`quarantine, this`faults
      ensures (failure, State(), faults) == Purge(old(State()), o, old(faults))
    {
      var fault := TakeFault();
      if fault != NoFault {
        return Some(OperatingSystemError);
      }
      if !Matches(bundles, o) {
        return Some(InstalledBundleDrift);
      }
      bundles, quarantine := bundles - {o.path}, quarantine + multiset{Whole(o.tree)};
      fault := TakeFault();
      match fault {
        case NoFault =>
          quarantine := quarantine - multiset{Whole(o.tree)};
          return None;
        case Partly =>
          quarantine := quarantine - multiset{Whole(o.tree)} + multiset{Damaged(o.tree)};
        case Fails =>
          fault := TakeFault();
          if fault == NoFault {
            bundles, quarantine := bundles[o.path := o.tree], quarantine - multiset{Whole(o.tree)};
          }
      }
      return Some(OperatingSystemError);
    }

    // ----- planning -------------------------------------------------------------------------

    /** The install and upgrade planner: it reads, computes the receipt twice, and writes nothing. */
    method PlanInstall(src: PackSource, branch: string, current: Option<Entry>) returns (r: Result<Plan, Code>)
      ensures r == InstallPlan(src, lock, lockFile, branch, current)
    {
      var id := src.Id();
      if current.None? && id in lock {
        return Err(PackAlreadyInstalled);
      }
      var action := if current.None? then InstallAction else UpgradeAction;
      var status := if current.None? then Active else current.value.pin.status;
      var failure := AssertComposable(src, status, lock, if current.None? then None else Some(id));
      if failure.Some? {
        return Err(failure.value);
      }
      var prior := if current.None? then [] else current.value.receipts;
      var changes := {CreateBundle(BundlePath(id, src.Version())), if lockFile then ReplaceLock else CreateLock,
                      CreateReceipt(id)};
      if current.Some? {
        changes := changes + {
          ValidateMigration(src.tree.manifest.upgradesDir, current.value.pin.version, src.Version()),
          DeleteBundle(BundlePath(id, current.value.pin.version))};
      }
      var pin := PinFor(src, status);
      var provisional := MakeReceipt(action, id, src.Version(), lock,
                                     LockWithEntry(lock, id, Some(Entry(pin, prior))), changes, branch);
      var next := LockWithEntry(lock, id, Some(Entry(pin, prior + [ReceiptId(provisional)])));
      var receipt := MakeReceipt(action, id, src.Version(), lock, next, changes, branch);
      assert changes == InstallChanges(src, lockFile, current);
      if receipt != provisional {
        return Err(ReceiptIdentityNotStable);
      }
      return Ok(Plan(lock, next, receipt, Some(Owned(BundlePath(id, src.Version()), src.tree)),
                     if current.None? then None else Some(BundleOf(id, current.value.pin))));
    }

    /** The loop over active dependents. */
    method FindDependent(id: PackId) returns (found: bool)
      ensures found == HasActiveDependent(lock, id)
    {
      var others := ActiveEntries(lock, Some(id));
      var rest := others.Keys;
      while rest != {}
        invariant rest <= others.Keys
        invariant forall other :: other in others && other !in rest ==> !DependsOn(others[other].pin, id)
      {
        var other :| other in rest;
        if DependsOn(others[other].pin, id) {
          return true;
        }
        rest := rest - {other};
      }
      return false;
    }

    method PlanStateChange(op: Op, branch: string) returns (r: Result<Plan, Code>)
      requires op.Disable? || op.Remove?
      ensures r == PlanFor(Job(op, branch), lock, lockFile)
    {
      var id := op.id;
      if id !in lock {
        return Err(PackNotInstalled);
      }
      var dependent := FindDependent(id);
      if dependent {
        return Err(DependentPackActive);
      }
      if op.Disable? {
        return DisablePlan(id, lock, branch);
      } else {
        return RemovePlan(id, lock, branch);
      }
    }

    // ----- the try blocks -------------------------------------------------------------------

    /** Where a run stands once the lock is replaced. */
    static function AfterReplace(plan: Plan): Pc {
      if plan.retired.Some? then MovingOld(plan) else Done(Applied)
    }

    /** Delete the operation's own new bundle, if it is there and unchanged. */
    method DeleteOwnBundle(ghost job: Job, plan: Plan, why: Code) returns (code: Code)
      modifies this`bundles, this`quarantine, this`faults
      ensures (Failed(code), State()) == Run(job, UndoBundle(plan, old(State()), why), old(State()), old(faults))
    {
      code := why;
      if plan.created.Some? && Matches(bundles, plan.created.value) {
        PurgeNew(job, plan, why, State(), faults);
        var failure := QuarantineAndDelete(plan.created.value);
        if failure.Some? {
          code := failure.value;
        }
      }
    }

    /** The rollback after the lock could not be replaced, or has been restored. */
    method UndoReceiptAndBundle(ghost job: Job, plan: Plan, why: Code) returns (code: Code)
      modifies this`receipts, this`bundles, this`quarantine, this`faults
      ensures (Failed(code), State()) == Run(job, Unwriting(plan, why), old(State()), old(faults))
    {
      var failure := UnlinkReceipt(plan.Receipt());
      if failure.Some? {
        return failure.value;
      }
      code := DeleteOwnBundle(job, plan, why);
    }

    /** Receipt, then lock; the start of disable and remove, and the end of install and upgrade. */
    method WriteAndReplace(ghost job: Job, plan: Plan) returns (failure: Option<Code>)
      modifies this
      ensures Run(job, Writing(plan), old(State()), old(faults))
           == if failure.None? then Run(job, AfterReplace(plan), State(), faults) else (Failed(failure.value), State())
    {
      hide PlanFor, PlanStep, CopyStep, MoveOldStep, DeleteOldStep, MoveOldBackStep, RestoreStep, MoveNewStep, DeleteNewStep,
           MoveNewBackStep, Discard, Damage, MoveAside, MoveBack;
      ghost var fs0, faults0 := State(), faults;
      var written := WriteReceipt(plan.receipt);
      if written.Some? {
        assert Run(job, Writing(plan), fs0, faults0) == Run(job, UndoBundle(plan, fs0, written.value), fs0, faults);
        var code := DeleteOwnBundle(job, plan, written.value);
        return Some(code);
      }
      ghost var fs1, faults1 := State(), faults;
      assert Run(job, Writing(plan), fs0, faults0) == Run(job, Replacing(plan), fs1, faults1);
      var replaced := AtomicWriteLock(plan.next, plan.previous);
      if replaced.Some? {
        assert Run(job, Replacing(plan), fs1, faults1) == Run(job, Unwriting(plan, replaced.value), fs1, faults);
        var code := UndoReceiptAndBundle(job, plan, replaced.value);
        return Some(code);
      }
      assert Run(job, Replacing(plan), fs1, faults1) == Run(job, AfterReplace(plan), State(), faults);
      return None;
    }

    /** Bundle, receipt, lock. */
    method CopyAndCommit(ghost job: Job, plan: Plan) returns (failure: Option<Code>)
      requires plan.created.Some?
      modifies this
      ensures Run(job, Copying(plan), old(State()), old(faults))
           == if failure.None? then Run(job, AfterReplace(plan), State(), faults) else (Failed(failure.value), State())
    {
      ghost var fs0, faults0 := State(), faults;
      failure := CopyBundle(plan.created.value);
      if failure.None? {
        assert Run(job, Copying(plan), fs0, faults0) == Run(job, Writing(plan), State(), faults);
        failure := WriteAndReplace(job, plan);
      }
    }

    /** Delete the retired bundle; if that fails and it is still in place, restore everything. */
    method RetireBundle(ghost job: Job, plan: Plan) returns (outcome: Outcome)
      requires plan.retired.Some?
      modifies this
      ensures (outcome, State()) == Run(job, MovingOld(plan), old(State()), old(faults))
    {
      PurgeOld(job, plan, State(), faults);
      var failure := QuarantineAndDelete(plan.retired.value);
      if failure.None? {
        return Applied;
      }
      if !Matches(bundles, plan.retired.value) {
        return RecoveryRequired;
      }
      ghost var fs0, faults0 := State(), faults;
      if lock == plan.next {
        assert CleanupFailed(plan, fs0, failure.value) == Restoring(plan, failure.value);
        var restored := AtomicWriteLock(plan.previous, plan.next);
        if restored.Some? {
          assert Run(job, Restoring(plan, failure.value), fs0, faults0) == (Failed(restored.value), State());
          return Failed(restored.value);
        }
        assert Run(job, Restoring(plan, failure.value), fs0, faults0)
            == Run(job, Unwriting(plan, failure.value), State(), faults);
      }
      var code := UndoReceiptAndBundle(job, plan, failure.value);
      return Failed(code);
    }

    // ----- the four operations --------------------------------------------------------------

    method Install(src: PackSource, branch: string) returns (outcome: Outcome)
      modifies this
      ensures (outcome, State()) == Run(Job(Op.Install(src), branch), Planning, old(State()), old(faults))
    {
      ghost var job, fs0, faults0 := Job(Op.Install(src), branch), State(), faults;
      var fault := TakeFault();
      if fault != NoFault {
        return Failed(OperatingSystemError);
      }
      var plan := PlanInstall(src, branch, None);
      if plan.Err? {
        return Failed(plan.error);
      }
      assert Run(job, Planning, fs0, faults0) == Run(job, Copying(plan.value), State(), faults);
      var failure := CopyAndCommit(job, plan.value);
      return if failure.None? then Applied else Failed(failure.value);
    }

    method Upgrade(src: PackSource, branch: string) returns (outcome: Outcome)
      modifies this
      ensures (outcome, State()) == Run(Job(Op.Upgrade(src), branch), Planning, old(State()), old(faults))
    {
      hide CopyStep, WriteStep, ReplaceStep, MoveOldStep, DeleteOldStep, MoveOldBackStep, RestoreStep, UnwriteStep,
           MoveNewStep, DeleteNewStep, MoveNewBackStep;
      ghost var job, fs0, faults0 := Job(Op.Upgrade(src), branch), State(), faults;
      var fault := TakeFault();
      if fault != NoFault {
        return Failed(OperatingSystemError);
      }
      if src.Id() !in lock {
        return Failed(PackNotInstalled);
      }
      var current := lock[src.Id()];
      if !Precedes(current.pin.version, src.Version()) {
        return Failed(UpgradeRequiresNewerVersion);
      }
      var migration := MigrationFailure(src, current.pin.version);
      if migration.Some? {
        return Failed(migration.value);
      }
      var plan := PlanInstall(src, branch, Some(current));
      if plan.Err? {
        return Failed(plan.error);
      }
      if !Matches(bundles, BundleOf(src.Id(), current.pin)) {
        return Failed(InstalledBundleDrift);
      }
      assert Run(job, Planning, fs0, faults0) == Run(job, Copying(plan.value), State(), faults);
      var failure := CopyAndCommit(job, plan.value);
      if failure.Some? {
        return Failed(failure.value);
      }
      outcome := RetireBundle(job, plan.value);
    }

    method Disable(id: PackId, branch: string) returns (outcome: Outcome)
      modifies this
      ensures (outcome, State()) == Run(Job(Op.Disable(id), branch), Planning, old(State()), old(faults))
    {
      ghost var job, fs0, faults0 := Job(Op.Disable(id), branch), State(), faults;
      var fault := TakeFault();
      if fault != NoFault {
        return Failed(OperatingSystemError);
      }
      var plan := PlanStateChange(Op.Disable(id), branch);
      if plan.Err? {
        return Failed(plan.error);
      }
      assert Run(job, Planning, fs0, faults0) == Run(job, Writing(plan.value), State(), faults);
      var failure := WriteAndReplace(job, plan.value);
      return if failure.None? then Applied else Failed(failure.value);
    }

    method Remove(id: PackId, branch: string) returns (outcome: Outcome)
      modifies this
      ensures (outcome, State()) == Run(Job(Op.Remove(id), branch), Planning, old(State()), old(faults))
    {
      ghost var job, fs0, faults0 := Job(Op.Remove(id), branch), State(), faults;
      var fault := TakeFault();
      if fault != NoFault {
        return Failed(OperatingSystemError);
      }
      var plan := PlanStateChange(Op.Remove(id), branch);
      if plan.Err? {
        return Failed(plan.error);
      }
      if !Matches(bundles, plan.value.retired.value) {
        return Failed(InstalledBundleDrift);
      }
      assert Run(job, Planning, fs0, faults0) == Run(job, Writing(plan.value), State(), faults);
      var failure := WriteAndReplace(job, plan.value);
      if failure.Some? {
        return Failed(failure.value);
      }
      outcome := RetireBundle(job, plan.value);
    }
  }
}
