/**
 What operations leave for the ones that follow: runs that end clean, what a crash does to a retry, and
 the histories in which the declared failures do occur.
 */
module PackOutcomes {
  import opened Outcomes
  import opened PackModel
  import opened PackNames
  import opened PackPlanning
  import opened PackHistory
  import opened PackGraph
  import opened PackMachine
  import opened PackFaults
  import opened PackSystem
  import opened PackPresentation
  import opened PackValidation

  // ----- one faulted run after another ------------------------------------------------------

  datatype Attempt = Attempt(job: Job, faults: Faults)

  function EndOf(fs: Files, a: Attempt): (Outcome, Files) { Run(a.job, Planning, fs, a.faults) }

  /** The files after some attempts, one after another, each under its own faults. */
  function After(fs: Files, attempts: seq<Attempt>): Files {
    if attempts == [] then fs
    else EndOf(After(fs, attempts[..|attempts| - 1]), attempts[|attempts| - 1]).1
  }

  /** The attempt was applied, or left the files as it found them. */
  predicate Clean(fs: Files, a: Attempt) {
    SourceResolved(a.job.op) && (EndOf(fs, a).0 == Applied || EndOf(fs, a).1 == fs)
  }

  predicate AllClean(fs: Files, attempts: seq<Attempt>) {
    forall i :: 0 <= i < |attempts| ==> Clean(After(fs, attempts[..i]), attempts[i])
  }

  /** Clean attempts, applied or refused in any order and under any faults, leave what some commits account for. */
  lemma {:induction false} CleanIsTidy(hadFile: bool, attempts: seq<Attempt>) returns (log: Log)
    requires AllClean(NoFiles(hadFile), attempts)
    ensures Tidy(hadFile, After(NoFiles(hadFile), attempts), log)
  {
    hide Run, SourceResolved, PlanFor, Tidy, NoFiles;
    if attempts == [] {
      log := [];
      NothingIsTidy(hadFile);
    } else {
      var n := |attempts| - 1;
      var before, last := attempts[..n], attempts[n];
      var fs := After(NoFiles(hadFile), before);
      forall i | 0 <= i < n
        ensures Clean(After(NoFiles(hadFile), before[..i]), before[i])
      {
        assert before[..i] == attempts[..i];
      }
      log := CleanIsTidy(hadFile, before);
      assert Clean(fs, last);
      if EndOf(fs, last).0 == Applied {
        AppliedKeepsTidy(hadFile, last.job, fs, log, last.faults);
        log := log + [Commit(last.job, PlanFor(last.job, fs.lock, fs.lockFile).value)];
      }
    }
  }

  /**
   From an empty lock, with or without a file for it, any clean attempts leave an installation with nothing
   to report; it composes exactly when its active packs declare one locale set.
   */
  lemma CleanRunsValidate(hadFile: bool, attempts: seq<Attempt>, order: seq<PackId>)
    requires AllClean(NoFiles(hadFile), attempts)
    requires Enumerates(order, ActiveEntries(After(NoFiles(hadFile), attempts).lock, None).Keys)
    ensures var fs := After(NoFiles(hadFile), attempts);
            && (forall f :: !Justified(fs, order, f))
            && (Composes(ActiveEntries(fs.lock, None)) <==> SameLocales(PartsOf(ActiveEntries(fs.lock, None))))
  {
    hide AllClean, After, Justified, Composes, SameLocales, PartsOf, ValidLog, NoFiles;
    var log := CleanIsTidy(hadFile, attempts);
    ValidIffSameLocales(hadFile, log, After(NoFiles(hadFile), attempts), order);
  }

  /** One fault is clean, unless the receipt is taken or the old bundle could not be deleted. */
  lemma OneFaultIsClean(fs: Files, a: Attempt)
    requires (fs.lock != map[] ==> fs.lockFile) && SourceResolved(a.job.op)
    requires FaultCount(a.faults) <= 1 && !ReceiptTaken(a.job, fs) && EndOf(fs, a).0 != RecoveryRequired
    ensures Clean(fs, a)
  {
    hide Run, SourceResolved, PlanFor, ReceiptTaken;
    SingleFaultRestores(a.job, fs, a.faults);
  }

  // ----- a crash, and the same request again ------------------------------------------------

  /**
   The same request after a crash at any step before the lock is replaced. Once a new bundle is in place the
   retry is refused over it; once the receipt of a disable or remove is written it is refused over that.
   */
  lemma CrashThenRetry(job: Job, pc: Pc, base: Files, fs: Files)
    requires At(pc, base, fs) && PlanFor(job, base.lock, base.lockFile) == Ok(pc.plan) && !Committed(pc)
    ensures Verdict(job, fs) ==
            if pc.Copying? || pc.DeletingNew? || pc.MovingNewBack? then Verdict(job, base)
            else if pc.plan.created.Some? then Failed(InstalledBundleAlreadyExists)
            else if pc.Writing? then Verdict(job, base)
            else Failed(ReceiptAlreadyExists)
  {
    hide PlanFor, FilesAt, Matches;
    RetryFiles(pc, base, fs);
    RetryVerdict(job, pc.plan, base, fs);
  }

  /** What a crash before the replacement leaves, as a retry sees it. */
  lemma RetryFiles(pc: Pc, base: Files, fs: Files)
    requires At(pc, base, fs) && !Committed(pc)
    ensures fs.lock == base.lock && fs.lockFile == base.lockFile
    ensures pc.plan.retired.Some? ==> Matches(fs.bundles, pc.plan.retired.value)
    ensures pc.Copying? || pc.DeletingNew? || pc.MovingNewBack? ==> fs.bundles == base.bundles && fs.receipts == base.receipts
    ensures !(pc.Copying? || pc.DeletingNew? || pc.MovingNewBack?) && pc.plan.created.Some? ==>
              pc.plan.created.value.path in fs.bundles
    ensures pc.Writing? && pc.plan.created.None? ==> fs.receipts == base.receipts
    ensures pc.Replacing? || pc.Unwriting? ==> pc.plan.Receipt() in fs.receipts
  {
    if pc.DeletingNew? || pc.MovingNewBack? {
      assert WithBundle(base, pc.plan).bundles - {pc.plan.created.value.path} == base.bundles;
    }
  }

  lemma RetryVerdict(job: Job, plan: Plan, base: Files, fs: Files)
    requires PlanFor(job, base.lock, base.lockFile) == Ok(plan) && fs.lock == base.lock && fs.lockFile == base.lockFile
    requires plan.retired.Some? ==> Matches(base.bundles, plan.retired.value) && Matches(fs.bundles, plan.retired.value)
    ensures Verdict(job, fs) ==
            if plan.created.Some? && plan.created.value.path in fs.bundles then Failed(InstalledBundleAlreadyExists)
            else if plan.Receipt() in fs.receipts then Failed(ReceiptAlreadyExists)
            else Applied
    ensures Verdict(job, base) ==
            if plan.created.Some? && plan.created.value.path in base.bundles then Failed(InstalledBundleAlreadyExists)
            else if plan.Receipt() in base.receipts then Failed(ReceiptAlreadyExists)
            else Applied
  {
    hide PlanFor, Matches;
  }

  /** After the replacement the request has taken effect, and says so when it is made again. */
  lemma CrashAfterCommit(job: Job, pc: Pc, base: Files, fs: Files)
    requires At(pc, base, fs) && PlanFor(job, base.lock, base.lockFile) == Ok(pc.plan) && Committed(pc)
    ensures Verdict(job, fs) == Failed(if job.op.Remove? then PackNotInstalled else UpgradeRequiresNewerVersion)
  {
    PlanEffect(job, base.lock, base.lockFile);
    PlanBundles(job, base.lock, base.lockFile);
    hide PlanFor, At;
    LockIsNext(pc, base, fs);
    AgainRefused(job, fs.lock, fs.lockFile);
  }

  lemma LockIsNext(pc: Pc, base: Files, fs: Files)
    requires At(pc, base, fs) && Committed(pc)
    ensures fs.lock == pc.plan.next && pc.plan.retired.Some?
  {
  }

  /** A removed pack is not installed; an upgraded one is not older than it. */
  lemma AgainRefused(job: Job, lock: Lock, lockFile: bool)
    requires job.op.Upgrade? || job.op.Remove?
    requires if job.op.Remove? then Target(job.op) !in lock
             else Target(job.op) in lock && lock[Target(job.op)].pin.version == job.op.src.Version()
    ensures PlanFor(job, lock, lockFile) == Err(if job.op.Remove? then PackNotInstalled else UpgradeRequiresNewerVersion)
  {
    hide InstallPlan, MigrationFailure;
  }

  // ----- a bundle that nothing names --------------------------------------------------------

  predicate Stranded(fs: Files, p: BundlePath) { p in fs.bundles && !Named(fs.lock, p) }

  lemma PlanPaths(job: Job, lock: Lock, lockFile: bool)
    requires PlanFor(job, lock, lockFile).Ok?
    ensures var plan := PlanFor(job, lock, lockFile).value;
            && (plan.created.Some? ==> !Named(lock, plan.created.value.path) && Named(plan.next, plan.created.value.path))
            && (plan.retired.Some? ==> Named(lock, plan.retired.value.path) && !Named(plan.next, plan.retired.value.path))
            && (forall p :: Named(plan.next, p) ==> Named(lock, p) || (plan.created.Some? && p == plan.created.value.path))
            && (forall p :: Named(lock, p) ==> Named(plan.next, p) || (plan.retired.Some? && p == plan.retired.value.path))
  {
    hide PlanFor;
    PlanEffect(job, lock, lockFile);
    PlanBundles(job, lock, lockFile);
  }

  /** The bundle on disk that the lock does not name while an operation is at a step. */
  function StrandedBy(pc: Pc): set<BundlePath>
    requires Shaped(pc) && !pc.Planning? && !pc.Done?
  {
    if pc.Writing? || pc.Replacing? || pc.Unwriting? || pc.MovingNew? then
      if pc.plan.created.Some? then {pc.plan.created.value.path} else {}
    else if pc.MovingOld? || pc.Restoring? then {pc.plan.retired.value.path}
    else {}
  }

  lemma StepBundles(pc: Pc, base: Files, fs: Files, p: BundlePath)
    requires At(pc, base, fs)
    ensures fs.lock == if Committed(pc) then pc.plan.next else base.lock
    ensures var created := pc.plan.created.Some? && p == pc.plan.created.value.path;
            var retired := pc.plan.retired.Some? && p == pc.plan.retired.value.path;
            p in fs.bundles <==>
              if pc.Copying? || pc.DeletingNew? || pc.MovingNewBack? then p in base.bundles
              else if pc.DeletingOld? || pc.MovingOldBack? then (p in base.bundles || created) && !retired
              else p in base.bundles || created
  {
    hide WithBundle, Prepared, Switched, LeftAs;
    PreparedBundles(base, pc.plan, p);
  }

  lemma PreparedBundles(base: Files, plan: Plan, p: BundlePath)
    ensures p in WithBundle(base, plan).bundles <==>
            p in base.bundles || (plan.created.Some? && p == plan.created.value.path)
    ensures Switched(base, plan).bundles == Prepared(base, plan).bundles == WithBundle(base, plan).bundles
    ensures Prepared(base, plan).lock == WithBundle(base, plan).lock == base.lock && Switched(base, plan).lock == plan.next
  {
  }

  lemma RetiredIsThere(pc: Pc, base: Files, fs: Files)
    requires At(pc, base, fs)
    ensures pc.MovingOld? || pc.Restoring? ==> pc.plan.retired.Some? && pc.plan.retired.value.path in base.bundles
  {
  }

  /**
   A crash between bundle and lock strands the new bundle, one between lock and deletion the old; from files in which
   the lock names every bundle, no crash at any other step strands any.
   */
  lemma CrashStrands(job: Job, pc: Pc, base: Files, fs: Files, p: BundlePath)
    requires At(pc, base, fs) && PlanFor(job, base.lock, base.lockFile) == Ok(pc.plan)
    ensures p in StrandedBy(pc) ==> Stranded(fs, p)
    ensures OnlyNamedBundles(base) ==> (Stranded(fs, p) <==> p in StrandedBy(pc))
  {
    hide PlanFor, Named, FilesAt, Facts;
    PlanPaths(job, base.lock, base.lockFile);
    StepBundles(pc, base, fs, p);
    RetiredIsThere(pc, base, fs);
    NamedWhenOnlyNamed(base, p);
  }

  lemma NamedWhenOnlyNamed(fs: Files, p: BundlePath)
    ensures OnlyNamedBundles(fs) && p in fs.bundles ==> Named(fs.lock, p)
  {
  }

  lemma EndNamesNoMore(job: Job, plan: Plan, outcome: Outcome, base: Files, fs: Files, p: BundlePath)
    requires PlanFor(job, base.lock, base.lockFile) == Ok(plan)
    requires Ready(plan, base) && Ended(plan, outcome, base, fs) && Stranded(base, p)
    ensures Stranded(fs, p)
    ensures plan.created.Some? && p == plan.created.value.path ==> outcome.Failed?
  {
    hide PlanFor, Named;
    PlanPaths(job, base.lock, base.lockFile);
    EndTouchesOnlyItsOwn(plan, outcome, base, fs);
  }

  /** Whatever is tried next, under any faults, leaves it there, and does not install that version. */
  lemma StrandedStays(fs: Files, a: Attempt, p: BundlePath)
    requires (fs.lock != map[] ==> fs.lockFile) && Stranded(fs, p)
    ensures var (outcome, end) := EndOf(fs, a);
            && Stranded(end, p) && (end.lock != map[] ==> end.lockFile)
            && ((a.job.op.Install? || a.job.op.Upgrade?) && BundlePath(a.job.op.src.Id(), a.job.op.src.Version()) == p ==>
                  outcome.Failed?)
  {
    hide PlanFor, Stranded;
    var job := a.job;
    PlanLands(job, fs, First(a.faults));
    var pc := PlanStep(job, fs, First(a.faults));
    if !pc.Done? {
      RunEnds(job, pc, fs, fs, Rest(a.faults));
      var (outcome, end) := Run(job, pc, fs, Rest(a.faults));
      EndNamesNoMore(job, pc.plan, outcome, fs, end, p);
      EndHasFile(pc.plan, outcome, fs, end);
      CreatedPath(job, fs.lock, fs.lockFile);
    }
  }

  lemma EndHasFile(plan: Plan, outcome: Outcome, base: Files, fs: Files)
    requires Ended(plan, outcome, base, fs) && (base.lock != map[] ==> base.lockFile)
    ensures fs.lock != map[] ==> fs.lockFile
  {
  }

  lemma CreatedPath(job: Job, lock: Lock, lockFile: bool)
    requires PlanFor(job, lock, lockFile).Ok?
    ensures job.op.Install? || job.op.Upgrade? ==>
              var created := PlanFor(job, lock, lockFile).value.created;
              created.Some? && created.value.path == BundlePath(job.op.src.Id(), job.op.src.Version())
  {
    hide PlanFor;
    PlanEffect(job, lock, lockFile);
    PlanBundles(job, lock, lockFile);
  }

  /** So that version can never be installed again, by any sequence of operations. */
  lemma {:induction false} StrandedForever(fs: Files, attempts: seq<Attempt>, p: BundlePath, last: Attempt)
    requires (fs.lock != map[] ==> fs.lockFile) && Stranded(fs, p)
    ensures var end := After(fs, attempts);
            && Stranded(end, p) && (end.lock != map[] ==> end.lockFile)
            && ((last.job.op.Install? || last.job.op.Upgrade?)
                && BundlePath(last.job.op.src.Id(), last.job.op.src.Version()) == p ==>
                  EndOf(end, last).0.Failed?)
    decreases |attempts|
  {
    hide Run, Stranded;
    if attempts != [] {
      var n := |attempts| - 1;
      StrandedForever(fs, attempts[..n], p, last);
      StrandedStays(After(fs, attempts[..n]), attempts[n], p);
    }
    StrandedStays(After(fs, attempts), last, p);
  }

  // ----- the declared failures are reached --------------------------------------------------

  /**
   After the cycles a branch can make, the files are those of the committed runs, and the next install is
   planned, copied, and then refused over a receipt that is already there.
   */
  lemma CyclesTakeReceipt(hadFile: bool, log: Log, src: PackSource, branch: string)
    requires src.tree.manifest.dependencies == [] && Cycled(hadFile, log, src, branch)
    ensures var fs, job := Serial(hadFile, Jobs(log)), Job(Install(src), branch);
            && ReceiptTaken(job, fs)
            && Run(job, Planning, fs, []) == (Failed(ReceiptAlreadyExists), fs)
  {
    hide PlanFor, ValidLog, Run;
    var fs, job := Serial(hadFile, Jobs(log)), Job(Install(src), branch);
    SerialTidy(hadFile, log);
    NextInstallRefused(hadFile, log, src, branch);
    EmptyHoldsNothing(hadFile, fs, log);
    CreatedPath(job, fs.lock, fs.lockFile);
    PlanBundles(job, fs.lock, fs.lockFile);
    UndisturbedRun(job, fs, []);
  }

  lemma EmptyHoldsNothing(hadFile: bool, fs: Files, log: Log)
    requires Tidy(hadFile, fs, log) && LockAfter(log) == map[] && log != []
    ensures fs.lock == map[] && fs.lockFile && fs.bundles == map[]
    ensures forall r :: r in Receipts(log) ==> r in fs.receipts
  {
    hide ValidLog, Consistent;
    assert forall p :: p in fs.bundles ==> p.id in fs.lock;
  }

  /** Each of the cycles' own requests is applied when run alone in its turn. */
  lemma CommittedRunsApply(hadFile: bool, log: Log, i: nat)
    requires ValidLog(hadFile, log) && i < |log|
    ensures Run(log[i].job, Planning, Serial(hadFile, Jobs(log[..i])), []).0 == Applied
  {
    hide PlanFor, SourceResolved, Tidy, Run, ValidLog, Serial;
    Prefixes(hadFile, log, i);
    Prefixes(hadFile, log, i + 1);
    var before, c := log[..i], log[i];
    assert log[..i + 1] == before + [c];
    SerialTidy(hadFile, before);
    LastCommit(hadFile, log[..i + 1]);
    assert (before + [c])[..i] == before;
    SerialStep(hadFile, Serial(hadFile, Jobs(before)), before, c);
  }

  /** One sample pack committed after others, in locales of its own. */
  lemma InstallSample(hadFile: bool, log: Log, branch: string, id: PackId, locales: set<string>) returns (grown: Log)
    requires ValidLog(hadFile, log) && SampleLock(LockAfter(log)) && FreshBranch(log, branch)
    requires |id| == 1 && PackNames.Lower(id[0]) && id !in LockAfter(log) && REQUIRED_LOCALES <= locales
    ensures ValidLog(hadFile, grown) && SampleLock(LockAfter(grown)) && |grown| == |log| + 1 && grown[..|log|] == log
    ensures grown[|log|].job.op.Install? && grown[|log|].job.branch == branch
    ensures LockAfter(grown).Keys == LockAfter(log).Keys + {id} && LabelsOf(LockAfter(grown)[id]).Keys == locales
    ensures forall other :: other in LockAfter(log) ==> LockAfter(grown)[other] == LockAfter(log)[other]
  {
    hide PlanFor, Resolved, ValidLog;
    var v := Version(0, 1, 0);
    SampleResolved(id, v, [], map[], locales);
    grown := SampleCommit(hadFile, log, branch, id, v, [], map[], locales);
    SampleLocales(id, v, locales, LockAfter(grown)[id]);
  }

  /** Two packs, one with a locale more than the other: both installs are accepted, and nothing composes. */
  lemma LocalesDiffer(hadFile: bool) returns (log: Log)
    ensures ValidLog(hadFile, log) && |log| == 2 && LockAfter(log).Keys == {"a", "b"}
    ensures log[0].job.op.Install? && log[1].job.op.Install?
    ensures !Composes(ActiveEntries(LockAfter(log), None))
  {
    hide PlanFor, Composes, LabelsOf, SameLocales, AllReadable, IdentifiersDisjoint;
    assert ValidLog(hadFile, []) && Receipts([]) == [];
    hide ValidLog;
    var one := InstallSample(hadFile, [], "wiki/1", "a", REQUIRED_LOCALES);
    log := InstallSample(hadFile, one, "wiki/2", "b", REQUIRED_LOCALES + {"fr"});
    assert log[..1][0] == one[0];
    ComposesIffSameLocales(hadFile, log);
    assert "fr" !in REQUIRED_LOCALES;
    DifferentParts(ActiveEntries(LockAfter(log), None), "a", "b");
  }

  lemma SampleLocales(id: PackId, v: Version, locales: set<string>, e: Entry)
    requires e.pin == PinFor(Sample(id, v, [], map[], locales), Active)
    ensures LabelsOf(e).Keys == locales
  {
  }

  lemma DifferentParts(active: Lock, a: PackId, b: PackId)
    requires a in active && b in active && LabelsOf(active[a]).Keys != LabelsOf(active[b]).Keys
    ensures !SameLocales(PartsOf(active))
  {
    assert PartsOf(active)[a].Keys != PartsOf(active)[b].Keys;
  }
}
