/**
 One operation as a sequence of atomic steps over the files it shares with other operations. Any
 step may fault; the `except` branches are steps too, and may fault in turn. A crash is a run that
 stops at some step boundary.
 */
module PackMachine {
  import opened Outcomes
  import opened PackModel
  import opened PackPlanning

  // ----- the files --------------------------------------------------------------------------

  /** A bundle moved aside for deletion: still whole, or with some of its files gone. */
  datatype Remains = Whole(tree: Tree) | Damaged(tree: Tree)

  /** `lock` is what loading gives, so the empty lock also stands for a missing file. */
  datatype Files = Files(
    lock: Lock, lockFile: bool, bundles: map<BundlePath, Tree>, receipts: map<ReceiptId, Identity>,
    quarantine: multiset<Remains>)

  predicate Matches(bundles: map<BundlePath, Tree>, o: Owned) {
    o.path in bundles && bundles[o.path] == o.tree
  }

  // ----- the steps --------------------------------------------------------------------------

  /** A step completes, fails and changes nothing, or (deletion only) fails partway. */
  datatype Fault = NoFault | Fails | Partly

  datatype Outcome = Applied | Failed(code: Code) | RecoveryRequired

  datatype Pc =
    | Planning
    | Copying(plan: Plan)
    | Writing(plan: Plan)
    | Replacing(plan: Plan)
    | MovingOld(plan: Plan)
    | DeletingOld(plan: Plan)
    | MovingOldBack(plan: Plan, why: Code)
    | Restoring(plan: Plan, why: Code)
    | Unwriting(plan: Plan, why: Code)
    | MovingNew(plan: Plan, why: Code)
    | DeletingNew(plan: Plan, why: Code)
    | MovingNewBack(plan: Plan, why: Code)
    | Done(outcome: Outcome)

  /** Control only moves forward through the operation and then through its rollback. */
  function Remaining(pc: Pc): nat {
    match pc
    case Planning => 12
    case Copying(_) => 11
    case Writing(_) => 10
    case Replacing(_) => 9
    case MovingOld(_) => 8
    case DeletingOld(_) => 7
    case MovingOldBack(_, _) => 6
    case Restoring(_, _) => 5
    case Unwriting(_, _) => 4
    case MovingNew(_, _) => 3
    case DeletingNew(_, _) => 2
    case MovingNewBack(_, _) => 1
    case Done(_) => 0
  }

  function CodeOr(fault: Fault, otherwise: Code): Code {
    if fault == NoFault then otherwise else OperatingSystemError
  }

  /** After the receipt is dealt with: delete the new bundle if it is there and still the operation's own. */
  function UndoBundle(plan: Plan, fs: Files, why: Code): Pc {
    if plan.created.Some? && Matches(fs.bundles, plan.created.value) then MovingNew(plan, why)
    else Done(Failed(why))
  }

  /** The old bundle could not be deleted: roll back if it is still in place. */
  function CleanupFailed(plan: Plan, fs: Files, why: Code): Pc {
    if plan.retired.Some? && Matches(fs.bundles, plan.retired.value) then
      if fs.lock == plan.next then Restoring(plan, why) else Unwriting(plan, why)
    else Done(RecoveryRequired)
  }

  function MoveAside(fs: Files, o: Owned): Files {
    fs.(bundles := fs.bundles - {o.path}, quarantine := fs.quarantine + multiset{Whole(o.tree)})
  }

  function MoveBack(fs: Files, o: Owned): Files {
    fs.(bundles := fs.bundles[o.path := o.tree], quarantine := fs.quarantine - multiset{Whole(o.tree)})
  }

  function Discard(fs: Files, o: Owned): Files {
    fs.(quarantine := fs.quarantine - multiset{Whole(o.tree)})
  }

  function Damage(fs: Files, o: Owned): Files {
    fs.(quarantine := fs.quarantine - multiset{Whole(o.tree)} + multiset{Damaged(o.tree)})
  }

  function PlanStep(job: Job, fs: Files, fault: Fault): (r: Pc)
    ensures Shaped(r) && Remaining(r) < Remaining(Planning)
  {
    if fault != NoFault then Done(Failed(OperatingSystemError)) else
    match PlanFor(job, fs.lock, fs.lockFile)
    case Err(code) => Done(Failed(code))
    case Ok(plan) =>
      if plan.retired.Some? && !Matches(fs.bundles, plan.retired.value) then Done(Failed(InstalledBundleDrift))
      else if plan.created.Some? then Copying(plan)
      else Writing(plan)
  }

  function CopyStep(plan: Plan, fs: Files, fault: Fault): (r: (Pc, Files))
    requires plan.created.Some?
    ensures Shaped(r.0) && Remaining(r.0) < Remaining(Copying(plan))
  {
    var o := plan.created.value;
    if fault != NoFault || o.path in fs.bundles then
      (Done(Failed(CodeOr(fault, InstalledBundleAlreadyExists))), fs)
    else (Writing(plan), fs.(bundles := fs.bundles[o.path := o.tree]))
  }

  function WriteStep(plan: Plan, fs: Files, fault: Fault): (r: (Pc, Files))
    ensures Shaped(r.0) && Remaining(r.0) < Remaining(Writing(plan))
  {
    if fault != NoFault || plan.Receipt() in fs.receipts then
      (UndoBundle(plan, fs, CodeOr(fault, ReceiptAlreadyExists)), fs)
    else (Replacing(plan), fs.(receipts := fs.receipts[plan.Receipt() := plan.receipt]))
  }

  /** The compare and the replacement of the lock file. */
  function ReplaceStep(plan: Plan, fs: Files, fault: Fault): (r: (Pc, Files))
    ensures Shaped(r.0) && Remaining(r.0) < Remaining(Replacing(plan))
  {
    if fault != NoFault || fs.lock != plan.previous then
      (Unwriting(plan, CodeOr(fault, PackLockChangedDuringOperation)), fs)
    else
      (if plan.retired.Some? then MovingOld(plan) else Done(Applied),
       fs.(lock := plan.next, lockFile := true))
  }

  function MoveOldStep(plan: Plan, fs: Files, fault: Fault): (r: (Pc, Files))
    requires plan.retired.Some?
    ensures Shaped(r.0) && Remaining(r.0) < Remaining(MovingOld(plan))
  {
    var o := plan.retired.value;
    if fault != NoFault || !Matches(fs.bundles, o) then
      (CleanupFailed(plan, fs, CodeOr(fault, InstalledBundleDrift)), fs)
    else (DeletingOld(plan), MoveAside(fs, o))
  }

  function DeleteOldStep(plan: Plan, fs: Files, fault: Fault): (r: (Pc, Files))
    requires plan.retired.Some?
    ensures Shaped(r.0) && Remaining(r.0) < Remaining(DeletingOld(plan))
  {
    var o := plan.retired.value;
    match fault
    case NoFault => (Done(Applied), Discard(fs, o))
    case Fails => (MovingOldBack(plan, OperatingSystemError), fs)
    case Partly => (CleanupFailed(plan, Damage(fs, o), OperatingSystemError), Damage(fs, o))
  }

  function MoveOldBackStep(plan: Plan, why: Code, fs: Files, fault: Fault): (r: (Pc, Files))
    requires plan.retired.Some?
    ensures Shaped(r.0) && Remaining(r.0) < Remaining(MovingOldBack(plan, why))
  {
    var o := plan.retired.value;
    if fault != NoFault then (CleanupFailed(plan, fs, OperatingSystemError), fs)
    else (CleanupFailed(plan, MoveBack(fs, o), why), MoveBack(fs, o))
  }

  function RestoreStep(plan: Plan, why: Code, fs: Files, fault: Fault): (r: (Pc, Files))
    ensures Shaped(r.0) && Remaining(r.0) < Remaining(Restoring(plan, why))
  {
    if fault != NoFault || fs.lock != plan.next then
      (Done(Failed(CodeOr(fault, PackLockChangedDuringOperation))), fs)
    else (Unwriting(plan, why), fs.(lock := plan.previous, lockFile := true))
  }

  function UnwriteStep(plan: Plan, why: Code, fs: Files, fault: Fault): (r: (Pc, Files))
    ensures Shaped(r.0) && Remaining(r.0) < Remaining(Unwriting(plan, why))
  {
    if fault != NoFault then (Done(Failed(OperatingSystemError)), fs)
    else
      var fs' := fs.(receipts := fs.receipts - {plan.Receipt()});
      (UndoBundle(plan, fs', why), fs')
  }

  function MoveNewStep(plan: Plan, why: Code, fs: Files, fault: Fault): (r: (Pc, Files))
    requires plan.created.Some?
    ensures Shaped(r.0) && Remaining(r.0) < Remaining(MovingNew(plan, why))
  {
    var o := plan.created.value;
    if fault != NoFault || !Matches(fs.bundles, o) then
      (Done(Failed(CodeOr(fault, InstalledBundleDrift))), fs)
    else (DeletingNew(plan, why), MoveAside(fs, o))
  }

  function DeleteNewStep(plan: Plan, why: Code, fs: Files, fault: Fault): (r: (Pc, Files))
    requires plan.created.Some?
    ensures Shaped(r.0) && Remaining(r.0) < Remaining(DeletingNew(plan, why))
  {
    var o := plan.created.value;
    match fault
    case NoFault => (Done(Failed(why)), Discard(fs, o))
    case Fails => (MovingNewBack(plan, OperatingSystemError), fs)
    case Partly => (Done(Failed(OperatingSystemError)), Damage(fs, o))
  }

  function MoveNewBackStep(plan: Plan, fs: Files, fault: Fault): (r: (Pc, Files))
    requires plan.created.Some?
    ensures r.0.Done?
  {
    (Done(Failed(OperatingSystemError)), if fault == NoFault then MoveBack(fs, plan.created.value) else fs)
  }

  /** The bundle a step is about exists in the plan. */
  predicate Shaped(pc: Pc) {
    match pc
    case Copying(plan) => plan.created.Some?
    case MovingOld(plan) => plan.retired.Some?
    case DeletingOld(plan) => plan.retired.Some?
    case MovingOldBack(plan, _) => plan.retired.Some?
    case Restoring(plan, _) => plan.retired.Some?
    case MovingNew(plan, _) => plan.created.Some?
    case DeletingNew(plan, _) => plan.created.Some?
    case MovingNewBack(plan, _) => plan.created.Some?
    case _ => true
  }

  function Step(job: Job, pc: Pc, fs: Files, fault: Fault): (r: (Pc, Files))
    requires Shaped(pc) && !pc.Done?
    ensures Shaped(r.0) && Remaining(r.0) < Remaining(pc)
  {
    hide PlanStep, CopyStep, WriteStep, ReplaceStep, MoveOldStep, DeleteOldStep, MoveOldBackStep, RestoreStep,
         UnwriteStep, MoveNewStep, DeleteNewStep, MoveNewBackStep;
    match pc
    case Planning => (PlanStep(job, fs, fault), fs)
    case Copying(plan) => CopyStep(plan, fs, fault)
    case Writing(plan) => WriteStep(plan, fs, fault)
    case Replacing(plan) => ReplaceStep(plan, fs, fault)
    case MovingOld(plan) => MoveOldStep(plan, fs, fault)
    case DeletingOld(plan) => DeleteOldStep(plan, fs, fault)
    case MovingOldBack(plan, why) => MoveOldBackStep(plan, why, fs, fault)
    case Restoring(plan, why) => RestoreStep(plan, why, fs, fault)
    case Unwriting(plan, why) => UnwriteStep(plan, why, fs, fault)
    case MovingNew(plan, why) => MoveNewStep(plan, why, fs, fault)
    case DeletingNew(plan, why) => DeleteNewStep(plan, why, fs, fault)
    case MovingNewBack(plan, _) => MoveNewBackStep(plan, fs, fault)
  }

  // ----- whole runs -------------------------------------------------------------------------

  type Faults = seq<Fault>

  function First(faults: Faults): Fault { if faults == [] then NoFault else faults[0] }

  function Rest(faults: Faults): Faults { if faults == [] then [] else faults[1..] }

  /** The operation run alone from a step on, under a schedule of faults. */
  function Run(job: Job, pc: Pc, fs: Files, faults: Faults): (Outcome, Files)
    requires Shaped(pc)
    decreases Remaining(pc)
  {
    if pc.Done? then (pc.outcome, fs)
    else
      var (pc', fs') := Step(job, pc, fs, First(faults));
      Run(job, pc', fs', Rest(faults))
  }

  /** The files at every step boundary of the run: what a crash may leave. */
  function Boundaries(job: Job, pc: Pc, fs: Files, faults: Faults): seq<Files>
    requires Shaped(pc)
    decreases Remaining(pc)
  {
    if pc.Done? then [fs]
    else
      var (pc', fs') := Step(job, pc, fs, First(faults));
      [fs] + Boundaries(job, pc', fs', Rest(faults))
  }

  // ----- where a run can be -----------------------------------------------------------------

  function WithBundle(fs: Files, plan: Plan): Files {
    if plan.created.None? then fs
    else fs.(bundles := fs.bundles[plan.created.value.path := plan.created.value.tree])
  }

  function WithReceipt(fs: Files, plan: Plan): Files {
    fs.(receipts := fs.receipts[plan.Receipt() := plan.receipt])
  }

  function WithLock(fs: Files, plan: Plan): Files {
    fs.(lock := plan.next, lockFile := true)
  }

  function Prepared(base: Files, plan: Plan): Files { WithReceipt(WithBundle(base, plan), plan) }

  function Switched(base: Files, plan: Plan): Files { WithLock(Prepared(base, plan), plan) }

  function WithoutOld(fs: Files, plan: Plan): Files {
    if plan.retired.None? then fs else fs.(bundles := fs.bundles - {plan.retired.value.path})
  }

  /** The whole effect of an operation that is applied. */
  function Final(base: Files, plan: Plan): Files { WithoutOld(Switched(base, plan), plan) }

  /** The files at each step, from the files the operation started with. */
  function FilesAt(pc: Pc, base: Files): Files
    requires Shaped(pc) && !pc.Done?
  {
    match pc
    case Planning => base
    case Copying(_) => base
    case Writing(plan) => WithBundle(base, plan)
    case Replacing(plan) => Prepared(base, plan)
    case MovingOld(plan) => Switched(base, plan)
    case DeletingOld(plan) => MoveAside(Switched(base, plan), plan.retired.value)
    case MovingOldBack(plan, _) => MoveAside(Switched(base, plan), plan.retired.value)
    case Restoring(plan, _) => Switched(base, plan)
    case Unwriting(plan, _) => Prepared(base, plan)
    case MovingNew(plan, _) => WithBundle(base, plan)
    case DeletingNew(plan, _) => MoveAside(WithBundle(base, plan), plan.created.value)
    case MovingNewBack(plan, _) => MoveAside(WithBundle(base, plan), plan.created.value)
  }

  /** The plan was made from these files, and the bundle it retires was found intact in them. */
  predicate Ready(plan: Plan, base: Files) {
    && plan.previous == base.lock
    && (plan.retired.Some? ==> Matches(base.bundles, plan.retired.value) && base.lockFile)
  }

  predicate PathWasFree(plan: Plan, base: Files) {
    plan.created.Some? ==> plan.created.value.path !in base.bundles
  }

  predicate ReceiptWasNew(plan: Plan, base: Files) { plan.Receipt() !in base.receipts }

  /** What the steps so far have found out about the starting files. */
  predicate Facts(pc: Pc, base: Files)
    requires Shaped(pc) && !pc.Planning? && !pc.Done?
  {
    && Ready(pc.plan, base)
    && (!pc.Copying? ==> PathWasFree(pc.plan, base))
    && (!pc.Copying? && !pc.Writing? && !pc.MovingNew? && !pc.DeletingNew? && !pc.MovingNewBack? ==>
          ReceiptWasNew(pc.plan, base))
  }

  /** Mid-operation, the files are exactly what the steps so far have made of the starting files. */
  predicate At(pc: Pc, base: Files, fs: Files) {
    Shaped(pc) && !pc.Planning? && !pc.Done? && Facts(pc, base) && fs == FilesAt(pc, base)
  }

  predicate AppliedEnd(plan: Plan, base: Files, fs: Files) {
    PathWasFree(plan, base) && ReceiptWasNew(plan, base) && fs == Final(base, plan)
  }

  predicate RecoveryEnd(plan: Plan, base: Files, fs: Files) {
    && PathWasFree(plan, base) && ReceiptWasNew(plan, base) && plan.retired.Some?
    && (fs == MoveAside(Switched(base, plan), plan.retired.value)
        || fs == Damage(MoveAside(Switched(base, plan), plan.retired.value), plan.retired.value))
  }

  predicate FailedEnd(plan: Plan, base: Files, fs: Files) {
    fs == base || (PathWasFree(plan, base) && exists kind :: LeftAs(kind, plan, base, fs))
  }

  /** Every way an operation that has a plan can end. */
  predicate Ended(plan: Plan, outcome: Outcome, base: Files, fs: Files) {
    match outcome
    case Applied => AppliedEnd(plan, base, fs)
    case RecoveryRequired => RecoveryEnd(plan, base, fs)
    case Failed(_) => FailedEnd(plan, base, fs)
  }

  /** What a rollback that itself faults can leave. */
  datatype Leftover = BundleInPlace | BundleAside | BundleDamaged | ReceiptKept | LockKept

  predicate LeftAs(kind: Leftover, plan: Plan, base: Files, fs: Files) {
    match kind
    case BundleInPlace => plan.created.Some? && fs == WithBundle(base, plan)
    case BundleAside => plan.created.Some? && fs == MoveAside(WithBundle(base, plan), plan.created.value)
    case BundleDamaged =>
      plan.created.Some? && fs == Damage(MoveAside(WithBundle(base, plan), plan.created.value), plan.created.value)
    case ReceiptKept => ReceiptWasNew(plan, base) && fs == Prepared(base, plan)
    case LockKept => ReceiptWasNew(plan, base) && fs == Switched(base, plan)
  }

  lemma LeftEnd(kind: Leftover, plan: Plan, base: Files, fs: Files, code: Code)
    requires PathWasFree(plan, base) && LeftAs(kind, plan, base, fs)
    ensures Ended(plan, Failed(code), base, fs)
  {
  }

  // ----- one step at a time -----------------------------------------------------------------

  lemma UndoBundleLands(plan: Plan, base: Files, why: Code)
    requires Ready(plan, base) && PathWasFree(plan, base)
    ensures var pc := UndoBundle(plan, WithBundle(base, plan), why);
            if pc.Done? then pc == Done(Failed(why)) && WithBundle(base, plan) == base
            else pc == MovingNew(plan, why) && At(pc, base, WithBundle(base, plan))
  {
  }

  lemma AsideAndBack(fs: Files, o: Owned)
    requires Matches(fs.bundles, o)
    ensures MoveBack(MoveAside(fs, o), o) == fs
    ensures Discard(MoveAside(fs, o), o) == fs.(bundles := fs.bundles - {o.path})
  {
    assert fs.quarantine + multiset{Whole(o.tree)} - multiset{Whole(o.tree)} == fs.quarantine;
  }

  lemma OldStillThere(plan: Plan, base: Files)
    requires Ready(plan, base) && PathWasFree(plan, base) && plan.retired.Some?
    ensures Matches(Switched(base, plan).bundles, plan.retired.value)
  {
  }

  lemma UnwriteLands(plan: Plan, base: Files)
    requires ReceiptWasNew(plan, base)
    ensures Prepared(base, plan).(receipts := Prepared(base, plan).receipts - {plan.Receipt()})
         == WithBundle(base, plan)
  {
  }

  lemma NewBundleGone(plan: Plan, base: Files)
    requires plan.created.Some? && PathWasFree(plan, base)
    ensures var o := plan.created.value;
            Discard(MoveAside(WithBundle(base, plan), o), o) == base
  {
    AsideAndBack(WithBundle(base, plan), plan.created.value);
    assert WithBundle(base, plan).bundles - {plan.created.value.path} == base.bundles;
  }

  lemma RestoreLands(plan: Plan, base: Files)
    requires Ready(plan, base) && plan.retired.Some?
    ensures Switched(base, plan).(lock := plan.previous, lockFile := true) == Prepared(base, plan)
  {
  }

  /** The step's result is where the machine says it should be. */
  predicate Lands(plan: Plan, base: Files, r: (Pc, Files)) {
    if r.0.Done? then Ended(plan, r.0.outcome, base, r.1)
    else At(r.0, base, r.1) && r.0.plan == plan
  }

  lemma CopyLands(plan: Plan, base: Files, fault: Fault)
    requires At(Copying(plan), base, base)
    ensures Lands(plan, base, CopyStep(plan, base, fault))
  {
  }

  lemma WriteLands(plan: Plan, base: Files, fs: Files, fault: Fault)
    requires At(Writing(plan), base, fs)
    ensures Lands(plan, base, WriteStep(plan, fs, fault))
  {
    UndoBundleLands(plan, base, CodeOr(fault, ReceiptAlreadyExists));
  }

  lemma ReplaceLands(plan: Plan, base: Files, fs: Files, fault: Fault)
    requires At(Replacing(plan), base, fs)
    ensures Lands(plan, base, ReplaceStep(plan, fs, fault))
  {
  }

  lemma CleanupLands(plan: Plan, base: Files, why: Code)
    requires Ready(plan, base) && PathWasFree(plan, base) && ReceiptWasNew(plan, base) && plan.retired.Some?
    ensures CleanupFailed(plan, Switched(base, plan), why) == Restoring(plan, why)
    ensures At(Restoring(plan, why), base, Switched(base, plan))
    ensures var aside := MoveAside(Switched(base, plan), plan.retired.value);
            && CleanupFailed(plan, aside, why) == Done(RecoveryRequired)
            && CleanupFailed(plan, Damage(aside, plan.retired.value), why) == Done(RecoveryRequired)
  {
    OldStillThere(plan, base);
  }

  lemma MoveOldLands(plan: Plan, base: Files, fs: Files, fault: Fault)
    requires At(MovingOld(plan), base, fs)
    ensures Lands(plan, base, MoveOldStep(plan, fs, fault))
  {
    OldStillThere(plan, base);
    CleanupLands(plan, base, CodeOr(fault, InstalledBundleDrift));
  }

  lemma OldDeleted(plan: Plan, base: Files)
    requires Ready(plan, base) && PathWasFree(plan, base) && plan.retired.Some?
    ensures Discard(MoveAside(Switched(base, plan), plan.retired.value), plan.retired.value) == Final(base, plan)
  {
    hide Switched;
    OldStillThere(plan, base);
    AsideAndBack(Switched(base, plan), plan.retired.value);
  }

  lemma DeleteOldLands(plan: Plan, base: Files, fs: Files, fault: Fault)
    requires At(DeletingOld(plan), base, fs)
    ensures Lands(plan, base, DeleteOldStep(plan, fs, fault))
  {
    hide LeftAs, FailedEnd, Switched, MoveAside, Discard, Damage, Final;
    OldDeleted(plan, base);
    CleanupLands(plan, base, OperatingSystemError);
  }

  lemma MoveOldBackLands(plan: Plan, why: Code, base: Files, fs: Files, fault: Fault)
    requires At(MovingOldBack(plan, why), base, fs)
    ensures Lands(plan, base, MoveOldBackStep(plan, why, fs, fault))
  {
    OldStillThere(plan, base);
    AsideAndBack(Switched(base, plan), plan.retired.value);
    CleanupLands(plan, base, if fault == NoFault then why else OperatingSystemError);
  }

  lemma RestoreStepLands(plan: Plan, why: Code, base: Files, fs: Files, fault: Fault)
    requires At(Restoring(plan, why), base, fs)
    ensures Lands(plan, base, RestoreStep(plan, why, fs, fault))
  {
    if fault == NoFault {
      RestoreLands(plan, base);
    } else {
      LeftEnd(LockKept, plan, base, fs, OperatingSystemError);
    }
  }

  lemma UnwriteStepLands(plan: Plan, why: Code, base: Files, fs: Files, fault: Fault)
    requires At(Unwriting(plan, why), base, fs)
    ensures Lands(plan, base, UnwriteStep(plan, why, fs, fault))
  {
    if fault == NoFault {
      UnwriteLands(plan, base);
      UndoBundleLands(plan, base, why);
    } else {
      LeftEnd(ReceiptKept, plan, base, fs, OperatingSystemError);
    }
  }

  lemma MoveNewLands(plan: Plan, why: Code, base: Files, fs: Files, fault: Fault)
    requires At(MovingNew(plan, why), base, fs)
    ensures Lands(plan, base, MoveNewStep(plan, why, fs, fault))
  {
    if fault != NoFault {
      LeftEnd(BundleInPlace, plan, base, fs, OperatingSystemError);
    }
  }

  lemma DamagedNew(plan: Plan, base: Files, fs: Files)
    requires PathWasFree(plan, base) && plan.created.Some?
    requires fs == MoveAside(WithBundle(base, plan), plan.created.value)
    ensures FailedEnd(plan, base, Damage(fs, plan.created.value))
  {
    assert LeftAs(BundleDamaged, plan, base, Damage(fs, plan.created.value));
  }

  lemma DeleteNewLands(plan: Plan, why: Code, base: Files, fs: Files, fault: Fault)
    requires At(DeletingNew(plan, why), base, fs)
    ensures Lands(plan, base, DeleteNewStep(plan, why, fs, fault))
  {
    hide LeftAs, AppliedEnd, RecoveryEnd, Damage, Discard, Switched, Prepared;
    NewBundleGone(plan, base);
    DamagedNew(plan, base, fs);
  }

  lemma NewBundleBack(plan: Plan, base: Files)
    requires plan.created.Some?
    ensures var o, with := plan.created.value, WithBundle(base, plan); MoveBack(MoveAside(with, o), o) == with
  {
  }

  lemma MoveNewBackLands(plan: Plan, why: Code, base: Files, fs: Files, fault: Fault)
    requires At(MovingNewBack(plan, why), base, fs)
    ensures Lands(plan, base, MoveNewBackStep(plan, fs, fault))
  {
    if fault == NoFault {
      NewBundleBack(plan, base);
      LeftEnd(BundleInPlace, plan, base, WithBundle(base, plan), OperatingSystemError);
    } else {
      LeftEnd(BundleAside, plan, base, fs, OperatingSystemError);
    }
  }

  /** Every step, under any fault, leads to the files of the step it goes to, or to an expected end. */
  lemma StepLands(job: Job, pc: Pc, base: Files, fs: Files, fault: Fault)
    requires At(pc, base, fs)
    ensures Lands(pc.plan, base, Step(job, pc, fs, fault))
  {
    match pc
    case Copying(plan) => CopyLands(plan, base, fault);
    case Writing(plan) => WriteLands(plan, base, fs, fault);
    case Replacing(plan) => ReplaceLands(plan, base, fs, fault);
    case MovingOld(plan) => MoveOldLands(plan, base, fs, fault);
    case DeletingOld(plan) => DeleteOldLands(plan, base, fs, fault);
    case MovingOldBack(plan, why) => MoveOldBackLands(plan, why, base, fs, fault);
    case Restoring(plan, why) => RestoreStepLands(plan, why, base, fs, fault);
    case Unwriting(plan, why) => UnwriteStepLands(plan, why, base, fs, fault);
    case MovingNew(plan, why) => MoveNewLands(plan, why, base, fs, fault);
    case DeletingNew(plan, why) => DeleteNewLands(plan, why, base, fs, fault);
    case MovingNewBack(plan, why) => MoveNewBackLands(plan, why, base, fs, fault);
  }

  /** The first step either ends with nothing changed or leaves a plan to carry out. */
  lemma PlanLands(job: Job, base: Files, fault: Fault)
    requires base.lock != map[] ==> base.lockFile
    ensures var pc := PlanStep(job, base, fault);
            if pc.Done? then pc.outcome.Failed?
            else PlanFor(job, base.lock, base.lockFile) == Ok(pc.plan) && At(pc, base, base)
  {
    if PlanFor(job, base.lock, base.lockFile).Ok? {
      PlanEffect(job, base.lock, base.lockFile);
      PlanBundles(job, base.lock, base.lockFile);
    }
  }

  // ----- whole runs -------------------------------------------------------------------------

  lemma {:induction false} RunEnds(job: Job, pc: Pc, base: Files, fs: Files, faults: Faults)
    requires At(pc, base, fs)
    ensures var (outcome, end) := Run(job, pc, fs, faults); Ended(pc.plan, outcome, base, end)
    decreases Remaining(pc)
  {
    StepLands(job, pc, base, fs, First(faults));
    var (pc', fs') := Step(job, pc, fs, First(faults));
    if !pc'.Done? {
      RunEnds(job, pc', base, fs', Rest(faults));
    }
  }

  // ----- consistency at every step boundary -------------------------------------------------

  predicate BundlesPresent(lock: Lock, bundles: map<BundlePath, Tree>) {
    forall id :: id in lock ==> Matches(bundles, BundleOf(id, lock[id].pin))
  }

  predicate ReceiptsPresent(lock: Lock, receipts: map<ReceiptId, Identity>) {
    forall id :: id in lock ==> forall i :: 0 <= i < |lock[id].receipts| ==> lock[id].receipts[i] in receipts
  }

  predicate Genuine(receipts: map<ReceiptId, Identity>) {
    forall r :: r in receipts ==> receipts[r] == r.identity
  }

  /**
   The lock names only bundles that are present with exactly the pinned files, and only receipts
   that exist; every receipt file hashes to its own name.
   */
  predicate Consistent(fs: Files) {
    && BundlesPresent(fs.lock, fs.bundles)
    && ReceiptsPresent(fs.lock, fs.receipts)
    && Genuine(fs.receipts)
    && (fs.lock != map[] ==> fs.lockFile)
  }

  lemma ExtraFilesHarmless(lock: Lock, b: map<BundlePath, Tree>, b': map<BundlePath, Tree>)
    requires BundlesPresent(lock, b)
    requires forall p :: p in b ==> p in b' && b'[p] == b[p]
    ensures BundlesPresent(lock, b')
  {
  }

  lemma WithBundleConsistent(plan: Plan, base: Files)
    requires Consistent(base) && PathWasFree(plan, base)
    ensures Consistent(WithBundle(base, plan))
  {
    ExtraFilesHarmless(base.lock, base.bundles, WithBundle(base, plan).bundles);
  }

  lemma WithReceiptConsistent(plan: Plan, fs: Files)
    requires Consistent(fs)
    ensures Consistent(WithReceipt(fs, plan))
  {
    hide BundleOf;
  }

  lemma PreparedConsistent(plan: Plan, base: Files)
    requires Consistent(base) && PathWasFree(plan, base)
    ensures Consistent(WithBundle(base, plan)) && Consistent(Prepared(base, plan))
  {
    hide Consistent, PathWasFree, WithBundle, WithReceipt;
    WithBundleConsistent(plan, base);
    WithReceiptConsistent(plan, WithBundle(base, plan));
  }

  lemma AsideNewConsistent(plan: Plan, base: Files)
    requires Consistent(base) && PathWasFree(plan, base) && plan.created.Some?
    ensures var aside := MoveAside(WithBundle(base, plan), plan.created.value);
            Consistent(aside) && Consistent(Damage(aside, plan.created.value))
  {
    assert MoveAside(WithBundle(base, plan), plan.created.value).bundles == base.bundles;
  }

  /** What the plan's next lock names is among the files the plan prepares. */
  predicate NextBacked(plan: Plan, base: Files) {
    && BundlesPresent(plan.next, Prepared(base, plan).bundles)
    && ReceiptsPresent(plan.next, Prepared(base, plan).receipts)
    && (plan.retired.Some? ==> forall id :: id in plan.next ==>
          BundleOf(id, plan.next[id].pin).path != plan.retired.value.path)
  }

  lemma StillMatches(plan: Plan, base: Files, o: Owned)
    requires PathWasFree(plan, base) && Matches(base.bundles, o)
    ensures Matches(Prepared(base, plan).bundles, o)
  {
  }

  lemma CreatedMatches(plan: Plan, base: Files)
    requires plan.created.Some?
    ensures Matches(Prepared(base, plan).bundles, plan.created.value)
  {
  }

  lemma ReceiptsStillThere(plan: Plan, base: Files)
    ensures plan.Receipt() in Prepared(base, plan).receipts
    ensures forall r :: r in base.receipts ==> r in Prepared(base, plan).receipts
  {
  }

  lemma PlanBacksNext(job: Job, base: Files)
    requires Consistent(base) && PlanFor(job, base.lock, base.lockFile).Ok?
    requires PathWasFree(PlanFor(job, base.lock, base.lockFile).value, base)
    ensures NextBacked(PlanFor(job, base.lock, base.lockFile).value, base)
  {
    hide PlanFor, Prepared, Genuine, PathWasFree, BundleOf, Matches, NextPin;
    var plan, id := PlanFor(job, base.lock, base.lockFile).value, Target(job.op);
    PlanBundles(job, base.lock, base.lockFile);
    NextNames(job, base.lock, plan);
    ReceiptsStillThere(plan, base);
    forall other | other in plan.next
      ensures Matches(Prepared(base, plan).bundles, BundleOf(other, plan.next[other].pin))
      ensures forall i :: 0 <= i < |plan.next[other].receipts| ==>
        plan.next[other].receipts[i] in Prepared(base, plan).receipts
    {
      if other == id && plan.created.Some? {
        CreatedMatches(plan, base);
      } else {
        StillMatches(plan, base, BundleOf(other, base.lock[other].pin));
      }
    }
  }

  lemma NextNames(job: Job, lock: Lock, plan: Plan)
    requires PlanFor(job, lock, false) == Ok(plan) || PlanFor(job, lock, true) == Ok(plan)
    ensures plan.retired.Some? ==> forall id :: id in plan.next ==>
      BundleOf(id, plan.next[id].pin).path != plan.retired.value.path
    ensures forall id :: id in plan.next && id != Target(job.op) ==> id in lock && plan.next[id] == lock[id]
    ensures Target(job.op) in plan.next ==>
      && plan.next[Target(job.op)].receipts == ReceiptsBefore(job.op, lock) + [plan.Receipt()]
      && if plan.created.Some? then BundleOf(Target(job.op), plan.next[Target(job.op)].pin) == plan.created.value
         else Target(job.op) in lock
              && BundleOf(Target(job.op), plan.next[Target(job.op)].pin) == BundleOf(Target(job.op), lock[Target(job.op)].pin)
  {
    hide PlanFor;
    var file := PlanFor(job, lock, true) == Ok(plan);
    PlanEffect(job, lock, file);
    PlanBundles(job, lock, file);
  }

  lemma SwitchedConsistent(plan: Plan, base: Files)
    requires Consistent(base) && NextBacked(plan, base)
    ensures Consistent(Switched(base, plan)) && Consistent(Final(base, plan))
  {
    assert BundlesPresent(plan.next, Final(base, plan).bundles);
  }

  lemma SetAsideConsistent(plan: Plan, base: Files)
    requires Consistent(base) && NextBacked(plan, base) && plan.retired.Some?
    ensures var aside := MoveAside(Switched(base, plan), plan.retired.value);
            Consistent(aside) && Consistent(Damage(aside, plan.retired.value))
  {
    SwitchedConsistent(plan, base);
    assert MoveAside(Switched(base, plan), plan.retired.value).bundles == Final(base, plan).bundles;
  }

  predicate NextBackedIfFree(plan: Plan, base: Files) {
    PathWasFree(plan, base) ==> NextBacked(plan, base)
  }

  lemma AtConsistent(pc: Pc, base: Files, fs: Files)
    requires Consistent(base) && At(pc, base, fs) && NextBackedIfFree(pc.plan, base)
    ensures Consistent(fs)
  {
    if !pc.Copying? {
      PreparedConsistent(pc.plan, base);
      SwitchedConsistent(pc.plan, base);
      if pc.DeletingNew? || pc.MovingNewBack? {
        AsideNewConsistent(pc.plan, base);
      } else if pc.DeletingOld? || pc.MovingOldBack? {
        SetAsideConsistent(pc.plan, base);
      }
    }
  }

  lemma LeftConsistent(kind: Leftover, plan: Plan, base: Files, fs: Files)
    requires Consistent(base) && PathWasFree(plan, base) && NextBacked(plan, base) && LeftAs(kind, plan, base, fs)
    ensures Consistent(fs)
  {
    match kind
    case BundleInPlace => PreparedConsistent(plan, base);
    case BundleAside => AsideNewConsistent(plan, base);
    case BundleDamaged => AsideNewConsistent(plan, base);
    case ReceiptKept => PreparedConsistent(plan, base);
    case LockKept => SwitchedConsistent(plan, base);
  }

  lemma EndedConsistent(plan: Plan, outcome: Outcome, base: Files, fs: Files)
    requires Consistent(base) && Ended(plan, outcome, base, fs) && NextBackedIfFree(plan, base)
    ensures Consistent(fs)
  {
    match outcome
    case Applied => SwitchedConsistent(plan, base);
    case RecoveryRequired => SetAsideConsistent(plan, base);
    case Failed(_) =>
      if fs != base {
        var kind :| LeftAs(kind, plan, base, fs);
        LeftConsistent(kind, plan, base, fs);
      }
  }

  lemma {:induction false} LaterBoundariesConsistent(job: Job, pc: Pc, base: Files, fs: Files, faults: Faults, i: nat)
    requires Consistent(base) && At(pc, base, fs) && NextBackedIfFree(pc.plan, base)
    requires i < |Boundaries(job, pc, fs, faults)|
    ensures Consistent(Boundaries(job, pc, fs, faults)[i])
    decreases Remaining(pc)
  {
    hide PlanFor, Consistent, NextBacked, Facts, FilesAt;
    if i == 0 {
      AtConsistent(pc, base, fs);
    } else {
      StepLands(job, pc, base, fs, First(faults));
      var (pc', fs') := Step(job, pc, fs, First(faults));
      if pc'.Done? {
        EndedConsistent(pc.plan, pc'.outcome, base, fs');
      } else {
        LaterBoundariesConsistent(job, pc', base, fs', Rest(faults), i - 1);
      }
    }
  }

  /**
   Whatever faults strike, and wherever a crash stops the run, the lock on disk names only bundles
   that are present exactly as pinned and only receipts that exist.
   */
  lemma EveryBoundaryConsistent(job: Job, base: Files, faults: Faults, i: nat)
    requires Consistent(base)
    requires i < |Boundaries(job, Planning, base, faults)|
    ensures Consistent(Boundaries(job, Planning, base, faults)[i])
  {
    hide PlanFor;
    if i > 0 {
      PlanLands(job, base, First(faults));
      var pc := PlanStep(job, base, First(faults));
      if !pc.Done? {
        if PathWasFree(pc.plan, base) {
          PlanBacksNext(job, base);
        }
        LaterBoundariesConsistent(job, pc, base, base, Rest(faults), i - 1);
      }
    }
  }
}
