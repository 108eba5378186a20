/**
 What faults can and cannot do to one operation: the files it may touch, its outcome when nothing goes
 wrong, and what a single fault leaves.
 */
module PackFaults {
  import opened PackModel
  import opened PackPlanning
  import opened PackMachine

  // ----- what an operation may touch --------------------------------------------------------

  /** Only the created bundle and the plan's receipt are added; only the retired bundle may go. */
  predicate TouchesOnlyItsOwn(plan: Plan, base: Files, fs: Files) {
    && (forall p :: p in base.bundles ==>
          (p in fs.bundles && fs.bundles[p] == base.bundles[p]) || (plan.retired.Some? && p == plan.retired.value.path))
    && (forall p :: p in fs.bundles && p !in base.bundles ==> plan.created.Some? && p == plan.created.value.path)
    && (forall r :: r in base.receipts ==> r in fs.receipts)
    && (forall r :: r in fs.receipts && r !in base.receipts ==> r == plan.Receipt())
    && (fs.lock == base.lock || fs.lock == plan.next)
  }

  predicate LosesNothing(base: Files, fs: Files) {
    forall p :: p in base.bundles ==> p in fs.bundles && fs.bundles[p] == base.bundles[p]
  }

  lemma SameFilesTouch(plan: Plan, base: Files, with: Files, fs: Files)
    requires TouchesOnlyItsOwn(plan, base, with) && LosesNothing(base, with)
    requires fs.bundles == with.bundles && fs.receipts == with.receipts && fs.lock == with.lock
    ensures TouchesOnlyItsOwn(plan, base, fs) && LosesNothing(base, fs)
  {
  }

  predicate Harmless(plan: Plan, base: Files, fs: Files) {
    TouchesOnlyItsOwn(plan, base, fs) && LosesNothing(base, fs)
  }

  lemma WithBundleHarmless(plan: Plan, base: Files)
    requires PathWasFree(plan, base)
    ensures Harmless(plan, base, base) && Harmless(plan, base, WithBundle(base, plan))
  {
  }

  lemma PreparedHarmless(plan: Plan, base: Files)
    requires PathWasFree(plan, base)
    ensures Harmless(plan, base, Prepared(base, plan)) && Harmless(plan, base, Switched(base, plan))
  {
    WithBundleHarmless(plan, base);
  }

  lemma LeftTouchesOnlyItsOwn(kind: Leftover, plan: Plan, base: Files, fs: Files)
    requires PathWasFree(plan, base) && LeftAs(kind, plan, base, fs)
    ensures TouchesOnlyItsOwn(plan, base, fs) && LosesNothing(base, fs)
  {
    hide TouchesOnlyItsOwn, LosesNothing, Prepared;
    WithBundleHarmless(plan, base);
    PreparedHarmless(plan, base);
    if kind == BundleAside || kind == BundleDamaged {
      assert WithBundle(base, plan).bundles - {plan.created.value.path} == base.bundles;
      SameFilesTouch(plan, base, base, fs);
    }
  }

  /** What the final files hold of bundles and receipts. */
  lemma FinalHolds(plan: Plan, base: Files, p: BundlePath)
    requires PathWasFree(plan, base)
    ensures var end := Final(base, plan).bundles;
            && (p in base.bundles ==>
                  (p in end && end[p] == base.bundles[p]) || (plan.retired.Some? && p == plan.retired.value.path))
            && (p in end && p !in base.bundles ==> plan.created.Some? && p == plan.created.value.path)
  {
  }

  lemma FinalReceipts(plan: Plan, base: Files)
    ensures Final(base, plan).receipts == base.receipts[plan.Receipt() := plan.receipt]
    ensures Final(base, plan).lock == plan.next
  {
  }

  lemma AppliedTouchesOnlyItsOwn(plan: Plan, base: Files, fs: Files)
    requires Ready(plan, base) && AppliedEnd(plan, base, fs)
    ensures TouchesOnlyItsOwn(plan, base, fs)
  {
    hide Final;
    FinalReceipts(plan, base);
    forall p { FinalHolds(plan, base, p); }
  }

  lemma AsideIsFinal(plan: Plan, base: Files)
    requires Ready(plan, base) && plan.retired.Some?
    ensures var aside, end := MoveAside(Switched(base, plan), plan.retired.value), Final(base, plan);
            && aside.bundles == end.bundles && aside.receipts == end.receipts && aside.lock == end.lock
            && Damage(aside, plan.retired.value).bundles == end.bundles
            && Damage(aside, plan.retired.value).receipts == end.receipts
            && Damage(aside, plan.retired.value).lock == end.lock
  {
  }

  lemma RecoveryTouchesOnlyItsOwn(plan: Plan, base: Files, fs: Files)
    requires Ready(plan, base) && RecoveryEnd(plan, base, fs)
    ensures TouchesOnlyItsOwn(plan, base, fs)
  {
    hide Final, MoveAside, Damage, Switched;
    AsideIsFinal(plan, base);
    FinalReceipts(plan, base);
    forall p { FinalHolds(plan, base, p); }
  }

  /** However an operation ends it has touched only its own; a failed one has lost nothing at all. */
  lemma EndTouchesOnlyItsOwn(plan: Plan, outcome: Outcome, base: Files, fs: Files)
    requires Ready(plan, base) && Ended(plan, outcome, base, fs)
    ensures TouchesOnlyItsOwn(plan, base, fs)
    ensures outcome.Failed? ==> LosesNothing(base, fs)
  {
    match outcome
    case Applied => AppliedTouchesOnlyItsOwn(plan, base, fs);
    case RecoveryRequired => RecoveryTouchesOnlyItsOwn(plan, base, fs);
    case Failed(_) =>
      if fs != base {
        var kind :| LeftAs(kind, plan, base, fs);
        LeftTouchesOnlyItsOwn(kind, plan, base, fs);
      }
  }

  // ----- runs without faults ----------------------------------------------------------------

  /** How an undisturbed operation ends, decided by what is on disk before it starts. */
  function Verdict(job: Job, base: Files): Outcome {
    match PlanFor(job, base.lock, base.lockFile)
    case Err(code) => Failed(code)
    case Ok(plan) =>
      if plan.retired.Some? && !Matches(base.bundles, plan.retired.value) then Failed(InstalledBundleDrift)
      else if plan.created.Some? && plan.created.value.path in base.bundles then Failed(InstalledBundleAlreadyExists)
      else if plan.Receipt() in base.receipts then Failed(ReceiptAlreadyExists)
      else Applied
  }

  predicate InRollback(pc: Pc) {
    pc.MovingOldBack? || pc.Restoring? || pc.Unwriting? || pc.MovingNew? || pc.DeletingNew?
  }

  predicate Forward(pc: Pc) {
    pc.Copying? || pc.Writing? || pc.Replacing? || pc.MovingOld? || pc.DeletingOld?
  }

  function FaultCount(faults: Faults): nat {
    if faults == [] then 0 else (if faults[0] == NoFault then 0 else 1) + FaultCount(faults[1..])
  }

  lemma RestCount(faults: Faults)
    ensures FaultCount(faults) == FaultCount(Rest(faults)) + if First(faults) == NoFault then 0 else 1
  {
  }

  /** Where an undisturbed rollback step leads: onward for the same reason, or back at the start. */
  predicate RollsBack(why: Code, base: Files, r: (Pc, Files)) {
    if r.0.Done? then r.0 == Done(Failed(why)) && r.1 == base else InRollback(r.0) && r.0.why == why
  }

  lemma QuietMoveBack(plan: Plan, why: Code, base: Files, fs: Files)
    requires At(MovingOldBack(plan, why), base, fs)
    ensures RollsBack(why, base, MoveOldBackStep(plan, why, fs, NoFault))
  {
    OldStillThere(plan, base);
    AsideAndBack(Switched(base, plan), plan.retired.value);
    CleanupLands(plan, base, why);
  }

  lemma QuietRestore(plan: Plan, why: Code, base: Files, fs: Files)
    requires At(Restoring(plan, why), base, fs)
    ensures RollsBack(why, base, RestoreStep(plan, why, fs, NoFault))
  {
  }

  lemma QuietUnwrite(plan: Plan, why: Code, base: Files, fs: Files)
    requires At(Unwriting(plan, why), base, fs)
    ensures RollsBack(why, base, UnwriteStep(plan, why, fs, NoFault))
  {
    UnwriteLands(plan, base);
    UndoBundleLands(plan, base, why);
  }

  lemma QuietDiscard(pc: Pc, base: Files, fs: Files)
    requires At(pc, base, fs) && (pc.MovingNew? || pc.DeletingNew?)
    ensures RollsBack(pc.why, base, if pc.MovingNew? then MoveNewStep(pc.plan, pc.why, fs, NoFault)
                                    else DeleteNewStep(pc.plan, pc.why, fs, NoFault))
  {
    NewBundleGone(pc.plan, base);
  }

  lemma QuietRollbackStep(job: Job, pc: Pc, base: Files, fs: Files)
    requires At(pc, base, fs) && InRollback(pc)
    ensures RollsBack(pc.why, base, Step(job, pc, fs, NoFault))
  {
    hide At, RollsBack;
    if pc.MovingOldBack? {
      QuietMoveBack(pc.plan, pc.why, base, fs);
    } else if pc.Restoring? {
      QuietRestore(pc.plan, pc.why, base, fs);
    } else if pc.Unwriting? {
      QuietUnwrite(pc.plan, pc.why, base, fs);
    } else {
      QuietDiscard(pc, base, fs);
    }
  }

  /** A rollback that is not itself disturbed restores the starting files exactly. */
  lemma {:induction false} QuietRollback(job: Job, pc: Pc, base: Files, fs: Files, faults: Faults)
    requires At(pc, base, fs) && InRollback(pc) && FaultCount(faults) == 0
    ensures Run(job, pc, fs, faults) == (Failed(pc.why), base)
    decreases Remaining(pc)
  {
    RestCount(faults);
    QuietRollbackStep(job, pc, base, fs);
    StepLands(job, pc, base, fs, NoFault);
    var (pc', fs') := Step(job, pc, fs, NoFault);
    if !pc'.Done? {
      QuietRollback(job, pc', base, fs', Rest(faults));
    }
  }

  /** A forward step either goes forward, or ends as the verdict says, or starts a rollback. */
  lemma ForwardStep(job: Job, pc: Pc, base: Files, fs: Files, fault: Fault)
    requires At(pc, base, fs) && Forward(pc)
    ensures var (pc', fs') := Step(job, pc, fs, fault);
            || (Forward(pc') && fault == NoFault)
            || InRollback(pc')
            || (pc' == Done(Applied) && fault == NoFault && fs' == Final(base, pc.plan))
            || (pc' == Done(RecoveryRequired) && fault == Partly)
            || (pc'.Done? && pc'.outcome.Failed? && fs' == base)
    ensures var (pc', fs') := Step(job, pc, fs, fault);
            fault == NoFault && !Forward(pc') && pc' != Done(Applied) ==>
              || (pc.Copying? && !PathWasFree(pc.plan, base) && pc' == Done(Failed(InstalledBundleAlreadyExists)))
              || (pc.Writing? && !ReceiptWasNew(pc.plan, base) && pc.plan.created.Some?
                  && pc' == MovingNew(pc.plan, ReceiptAlreadyExists))
              || (pc.Writing? && !ReceiptWasNew(pc.plan, base) && pc.plan.created.None?
                  && pc' == Done(Failed(ReceiptAlreadyExists)))
  {
    var plan := pc.plan;
    match pc
    case Copying(_) =>
    case Writing(_) => UndoBundleLands(plan, base, CodeOr(fault, ReceiptAlreadyExists));
    case Replacing(_) =>
    case MovingOld(_) =>
      OldStillThere(plan, base);
      CleanupLands(plan, base, CodeOr(fault, InstalledBundleDrift));
    case DeletingOld(_) =>
      OldStillThere(plan, base);
      AsideAndBack(Switched(base, plan), plan.retired.value);
      CleanupLands(plan, base, OperatingSystemError);
  }

  predicate Restored(plan: Plan, base: Files, r: (Outcome, Files)) {
    match r.0
    case Applied => r.1 == Final(base, plan)
    case RecoveryRequired => true
    case Failed(_) => r.1 == base
  }

  /** With at most one fault to come, and a receipt that is not taken, nothing is left behind. */
  lemma {:induction false} OneFaultRestored(job: Job, pc: Pc, base: Files, fs: Files, faults: Faults)
    requires At(pc, base, fs) && Forward(pc) && FaultCount(faults) <= 1
    requires pc.plan.created.Some? ==> ReceiptWasNew(pc.plan, base)
    ensures Restored(pc.plan, base, Run(job, pc, fs, faults))
    decreases Remaining(pc)
  {
    hide PlanFor, Final, FilesAt, Facts;
    RestCount(faults);
    ForwardStep(job, pc, base, fs, First(faults));
    StepLands(job, pc, base, fs, First(faults));
    var (pc', fs') := Step(job, pc, fs, First(faults));
    if Forward(pc') {
      OneFaultRestored(job, pc', base, fs', Rest(faults));
    } else if InRollback(pc') {
      QuietRollback(job, pc', base, fs', Rest(faults));
    }
  }

  /** Past planning, an undisturbed run ends as the verdict says. */
  lemma {:induction false} QuietRun(job: Job, pc: Pc, base: Files, fs: Files, faults: Faults)
    requires At(pc, base, fs) && Forward(pc) && FaultCount(faults) == 0
    ensures Run(job, pc, fs, faults)
         == if !PathWasFree(pc.plan, base) then (Failed(InstalledBundleAlreadyExists), base)
            else if !ReceiptWasNew(pc.plan, base) then (Failed(ReceiptAlreadyExists), base)
            else (Applied, Final(base, pc.plan))
    decreases Remaining(pc)
  {
    RestCount(faults);
    ForwardStep(job, pc, base, fs, NoFault);
    StepLands(job, pc, base, fs, NoFault);
    var (pc', fs') := Step(job, pc, fs, NoFault);
    if Forward(pc') {
      QuietRun(job, pc', base, fs', Rest(faults));
    } else if InRollback(pc') {
      QuietRollback(job, pc', base, fs', Rest(faults));
    }
  }

  /**
   An undisturbed operation ends exactly as the files it starts from decide: it is applied in
   full, or refused with the files untouched. In particular a valid plan is refused because its
   receipt exists exactly when a receipt of that identity is on disk.
   */
  lemma UndisturbedRun(job: Job, base: Files, faults: Faults)
    requires FaultCount(faults) == 0 && (base.lock != map[] ==> base.lockFile)
    ensures Run(job, Planning, base, faults)
         == (Verdict(job, base),
             if Verdict(job, base) == Applied then Final(base, PlanFor(job, base.lock, base.lockFile).value) else base)
  {
    hide PlanFor;
    RestCount(faults);
    PlanLands(job, base, NoFault);
    var pc := PlanStep(job, base, NoFault);
    if !pc.Done? {
      QuietRun(job, pc, base, base, Rest(faults));
    }
  }

  // ----- a single fault ---------------------------------------------------------------------

  /** The new bundle can be copied, but the receipt is already taken. */
  predicate ReceiptTaken(job: Job, base: Files) {
    Verdict(job, base) == Failed(ReceiptAlreadyExists) && PlanFor(job, base.lock, base.lockFile).value.created.Some?
  }

  lemma SingleFaultRestores(job: Job, base: Files, faults: Faults)
    requires base.lock != map[] ==> base.lockFile
    requires FaultCount(faults) <= 1 && !ReceiptTaken(job, base)
    ensures var (outcome, end) := Run(job, Planning, base, faults); outcome.Failed? ==> end == base
  {
    hide PlanFor;
    RestCount(faults);
    PlanLands(job, base, First(faults));
    var pc := PlanStep(job, base, First(faults));
    if !pc.Done? {
      if pc.plan.created.Some? && !ReceiptWasNew(pc.plan, base) {
        assert pc.Copying? && !PathWasFree(pc.plan, base);
        assert Step(job, pc, base, First(Rest(faults))).1 == base;
      } else {
        OneFaultRestored(job, pc, base, base, Rest(faults));
      }
    }
  }

  /** The fault that strikes the deletion of the bundle whose receipt was refused. */
  const FAULT_IN_REFUSAL: Faults := [NoFault, NoFault, NoFault, Fails]

  lemma RefusalLeavesBundle(job: Job, base: Files)
    requires base.lock != map[] ==> base.lockFile
    requires ReceiptTaken(job, base)
    ensures FaultCount(FAULT_IN_REFUSAL) == 1
    ensures var plan := PlanFor(job, base.lock, base.lockFile).value;
            && Run(job, Planning, base, FAULT_IN_REFUSAL) == (Failed(OperatingSystemError), WithBundle(base, plan))
            && WithBundle(base, plan) != base
  {
    TakenIsPlanned(job, base);
    hide PlanFor, Run;
    var plan := PlanFor(job, base.lock, base.lockFile).value;
    PlannedFirst(job, base, FAULT_IN_REFUSAL);
    CopiedThenRefused(job, plan, base);
    OneFault();
    assert WithBundle(base, plan).bundles.Keys != base.bundles.Keys;
  }

  lemma OneFault()
    ensures Rest(FAULT_IN_REFUSAL) == [NoFault, NoFault, Fails] && FaultCount(FAULT_IN_REFUSAL) == 1
  {
    assert FAULT_IN_REFUSAL[1..] == [NoFault, NoFault, Fails];
    assert FAULT_IN_REFUSAL[1..][1..] == [NoFault, Fails];
    assert [NoFault, Fails][1..] == [Fails];
  }

  lemma TakenIsPlanned(job: Job, base: Files)
    requires ReceiptTaken(job, base)
    ensures PlanFor(job, base.lock, base.lockFile).Ok?
  {
  }

  /** Planning comes first, and goes on to copy the bundle. */
  lemma PlannedFirst(job: Job, base: Files, faults: Faults)
    requires ReceiptTaken(job, base) && First(faults) == NoFault
    ensures var plan := PlanFor(job, base.lock, base.lockFile).value;
            Run(job, Planning, base, faults) == Run(job, Copying(plan), base, Rest(faults))
  {
    TakenIsPlanned(job, base);
    hide PlanFor;
    var plan := PlanFor(job, base.lock, base.lockFile).value;
    assert PlanStep(job, base, NoFault) == Copying(plan);
  }

  lemma CopiedThenRefused(job: Job, plan: Plan, base: Files)
    requires plan.created.Some? && PathWasFree(plan, base) && !ReceiptWasNew(plan, base)
    ensures Run(job, Copying(plan), base, [NoFault, NoFault, Fails])
         == (Failed(OperatingSystemError), WithBundle(base, plan))
  {
    var fs := WithBundle(base, plan);
    assert Step(job, Copying(plan), base, NoFault) == (Writing(plan), fs);
    assert Step(job, Writing(plan), fs, NoFault) == (MovingNew(plan, ReceiptAlreadyExists), fs);
    assert Step(job, MovingNew(plan, ReceiptAlreadyExists), fs, Fails) == (Done(Failed(OperatingSystemError)), fs);
    assert Rest([NoFault, NoFault, Fails]) == [NoFault, Fails];
    assert Rest([NoFault, Fails]) == [Fails];
    assert Run(job, MovingNew(plan, ReceiptAlreadyExists), fs, [Fails]) == (Failed(OperatingSystemError), fs);
    assert Run(job, Writing(plan), fs, [NoFault, Fails]) == (Failed(OperatingSystemError), fs);
  }

  /**
   No single fault leaves anything behind exactly when the operation would not already be refused
   over an existing receipt after copying its bundle. Where it would, a fault while that bundle is
   being deleted leaves it in place as an orphan.
   */
  lemma SingleFaultIff(job: Job, base: Files)
    requires base.lock != map[] ==> base.lockFile
    ensures !ReceiptTaken(job, base)
       <==> forall faults: Faults :: FaultCount(faults) <= 1 ==>
              var r := Run(job, Planning, base, faults); r.0.Failed? ==> r.1 == base
  {
    if ReceiptTaken(job, base) {
      RefusalLeavesBundle(job, base);
    } else {
      forall faults: Faults | FaultCount(faults) <= 1
        ensures var r := Run(job, Planning, base, faults); r.0.Failed? ==> r.1 == base
      {
        SingleFaultRestores(job, base, faults);
      }
    }
  }
}
