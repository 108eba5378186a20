/**
 Many processes over the same files. Each runs one operation under the operation guard; processes
 arrive, wait, fault and crash at any step boundary, in any interleaving.
 */
module PackSystem {
  import opened Outcomes
  import opened PackModel
  import opened PackPlanning
  import opened PackHistory
  import opened PackMachine
  import opened PackFaults

  // ----- operations run one after another ---------------------------------------------------

  /** An empty lock, with or without a file for it. */
  function NoFiles(hadFile: bool): Files { Files(map[], hadFile, map[], map[], multiset{}) }

  /** The files after running these requests alone, in order, undisturbed. */
  function Serial(hadFile: bool, jobs: seq<Job>): Files {
    if jobs == [] then NoFiles(hadFile)
    else Run(jobs[|jobs| - 1], Planning, Serial(hadFile, jobs[..|jobs| - 1]), []).1
  }

  function Jobs(log: Log): (jobs: seq<Job>)
    ensures |jobs| == |log| && forall i :: 0 <= i < |log| ==> jobs[i] == log[i].job
  {
    seq(|log|, i requires 0 <= i < |log| => log[i].job)
  }

  /** The files agree with the commits; they may hold more, left by crashes or faulted rollbacks. */
  ghost predicate Backed(hadFile: bool, fs: Files, log: Log) {
    && ValidLog(hadFile, log)
    && fs.lock == LockAfter(log)
    && (fs.lockFile <==> hadFile || log != [])
    && (forall r :: r in Receipts(log) ==> r in fs.receipts)
    && Consistent(fs)
  }

  predicate OnlyNamedBundles(fs: Files) {
    forall p :: p in fs.bundles ==> p.id in fs.lock && p == BundleOf(p.id, fs.lock[p.id].pin).path
  }

  /** The files hold what the commits account for and nothing else. */
  ghost predicate Tidy(hadFile: bool, fs: Files, log: Log) {
    && Backed(hadFile, fs, log)
    && OnlyNamedBundles(fs)
    && (forall r :: r in fs.receipts ==> r in Receipts(log))
  }

  /** A commit, seen from files that agree with the commits before it. */
  predicate Follows(hadFile: bool, log: Log, c: Commit) {
    SourceResolved(c.job.op) && PlanFor(c.job, LockAfter(log), hadFile || log != []) == Ok(c.plan)
  }

  lemma CommitExtends(hadFile: bool, base: Files, log: Log, c: Commit)
    requires Backed(hadFile, base, log) && Follows(hadFile, log, c) && ReceiptWasNew(c.plan, base)
    ensures ValidLog(hadFile, log + [c]) && LockAfter(log + [c]) == c.plan.next
    ensures Receipts(log + [c]) == Receipts(log) + [c.plan.Receipt()]
  {
    hide PlanFor, SourceResolved;
    Extend(hadFile, log, c);
  }

  /** Files that hold the next lock and the plan's receipt agree with one more commit. */
  lemma CommitBacked(hadFile: bool, base: Files, log: Log, c: Commit, fs: Files)
    requires Backed(hadFile, base, log) && Follows(hadFile, log, c) && ReceiptWasNew(c.plan, base)
    requires fs.lock == c.plan.next && fs.lockFile && fs.receipts == Prepared(base, c.plan).receipts
    requires Consistent(fs)
    ensures Backed(hadFile, fs, log + [c])
  {
    hide PlanFor, SourceResolved;
    CommitExtends(hadFile, base, log, c);
  }

  lemma PlanReadyForTidy(hadFile: bool, fs: Files, log: Log, c: Commit)
    requires Tidy(hadFile, fs, log) && Follows(hadFile, log, c)
    ensures Ready(c.plan, fs) && PathWasFree(c.plan, fs) && NextBacked(c.plan, fs)
  {
    hide PlanFor, SourceResolved;
    PlanEffect(c.job, fs.lock, fs.lockFile);
    PlanBundles(c.job, fs.lock, fs.lockFile);
    PlanBacksNext(c.job, fs);
  }

  lemma FinalBundles(fs: Files, plan: Plan, p: BundlePath)
    requires p in Final(fs, plan).bundles
    ensures (plan.created.Some? && p == plan.created.value.path)
            || (p in fs.bundles && (plan.retired.Some? ==> p != plan.retired.value.path))
    ensures Final(fs, plan).lock == plan.next
  {
  }

  /** Applying a plan to tidy files leaves tidy files. */
  lemma FinalOnlyNamed(fs: Files, job: Job, plan: Plan)
    requires OnlyNamedBundles(fs) && PlanFor(job, fs.lock, fs.lockFile) == Ok(plan)
    ensures OnlyNamedBundles(Final(fs, plan))
  {
    hide PlanFor, SourceResolved, Final;
    PlanEffect(job, fs.lock, fs.lockFile);
    PlanBundles(job, fs.lock, fs.lockFile);
    NextNames(job, fs.lock, plan);
    var id, end := Target(job.op), Final(fs, plan);
    forall p | p in end.bundles
      ensures end.lock == plan.next && p.id in plan.next && p == BundleOf(p.id, plan.next[p.id].pin).path
    {
      FinalBundles(fs, plan, p);
      if p.id != id {
        assert p in fs.bundles;
      } else if !(plan.created.Some? && p == plan.created.value.path) {
        assert p in fs.bundles && p == BundleOf(id, fs.lock[id].pin).path;
      }
    }
    FinalLock(fs, plan);
  }

  lemma FinalLock(fs: Files, plan: Plan)
    ensures Final(fs, plan).lock == plan.next && Final(fs, plan).lockFile
    ensures Final(fs, plan).receipts == Prepared(fs, plan).receipts
  {
  }

  lemma NothingIsTidy(hadFile: bool)
    ensures Jobs([]) == [] && Tidy(hadFile, NoFiles(hadFile), [])
  {
  }

  lemma {:induction false} SerialTidy(hadFile: bool, log: Log)
    requires ValidLog(hadFile, log)
    ensures Tidy(hadFile, Serial(hadFile, Jobs(log)), log)
  {
    hide PlanFor, SourceResolved, Tidy, ValidLog;
    if log == [] {
      NothingIsTidy(hadFile);
    } else {
      var before, c := log[..|log| - 1], log[|log| - 1];
      var fs := Serial(hadFile, Jobs(before));
      LastCommit(hadFile, log);
      SerialTidy(hadFile, before);
      assert log == before + [c];
      assert Jobs(log)[..|before|] == Jobs(before);
      assert Follows(hadFile, before, c);
      SerialStep(hadFile, fs, before, c);
    }
  }

  lemma SerialStep(hadFile: bool, fs: Files, log: Log, c: Commit)
    requires Tidy(hadFile, fs, log) && Follows(hadFile, log, c) && ValidLog(hadFile, log + [c])
    ensures Run(c.job, Planning, fs, []) == (Applied, Final(fs, c.plan))
    ensures Tidy(hadFile, Final(fs, c.plan), log + [c])
  {
    hide PlanFor, SourceResolved, Final, Run, NextBacked, OnlyNamedBundles;
    PlanReadyForTidy(hadFile, fs, log, c);
    assert Receipts(log + [c]) == Receipts(log) + [c.plan.Receipt()];
    assert ReceiptWasNew(c.plan, fs) by {
      assert Receipts(log + [c])[|log|] == c.plan.Receipt();
      assert forall i :: 0 <= i < |log| ==> Receipts(log + [c])[i] == Receipts(log)[i];
    }
    UndisturbedRun(c.job, fs, []);
    AppliedEndTidy(hadFile, fs, log, c);
  }

  /** An operation that is applied to tidy files, whatever faults it met, leaves tidy files. */
  lemma AppliedKeepsTidy(hadFile: bool, job: Job, base: Files, log: Log, faults: Faults)
    requires Tidy(hadFile, base, log) && SourceResolved(job.op)
    requires Run(job, Planning, base, faults).0 == Applied
    ensures PlanFor(job, base.lock, base.lockFile).Ok?
    ensures Tidy(hadFile, Run(job, Planning, base, faults).1,
                 log + [Commit(job, PlanFor(job, base.lock, base.lockFile).value)])
  {
    hide PlanFor;
    PlanLands(job, base, First(faults));
    var pc := PlanStep(job, base, First(faults));
    RunEnds(job, pc, base, base, Rest(faults));
    AppliedEndTidy(hadFile, base, log, Commit(job, pc.plan));
  }

  lemma AppliedEndTidy(hadFile: bool, base: Files, log: Log, c: Commit)
    requires Tidy(hadFile, base, log) && Follows(hadFile, log, c) && ReceiptWasNew(c.plan, base)
    ensures Tidy(hadFile, Final(base, c.plan), log + [c])
  {
    hide PlanFor, ValidLog, Consistent, NextBacked, Final, Prepared, Ready, SourceResolved;
    PlanReadyForTidy(hadFile, base, log, c);
    SwitchedConsistent(c.plan, base);
    FinalLock(base, c.plan);
    CommitBacked(hadFile, base, log, c, Final(base, c.plan));
    CommitExtends(hadFile, base, log, c);
    FinalOnlyNamed(base, c.job, c.plan);
    PreparedReceipts(base, c.plan);
  }

  lemma PreparedReceipts(base: Files, plan: Plan)
    ensures Prepared(base, plan).receipts == base.receipts[plan.Receipt() := plan.receipt]
  {
  }

  // ----- processes --------------------------------------------------------------------------

  /** `base` records the files a process found when it entered; no step reads it. */
  datatype Process =
    | Waiting(job: Job)
    | Running(job: Job, pc: Pc, base: Files)
    | Finished(job: Job, outcome: Outcome)
    | Crashed(job: Job)

  datatype Signed = Signed(pid: nat, commit: Commit)

  datatype System = System(files: Files, holder: Option<nat>, processes: map<nat, Process>, log: seq<Signed>)

  function Commits(log: seq<Signed>): (commits: Log)
    ensures |commits| == |log| && forall i :: 0 <= i < |log| ==> commits[i] == log[i].commit
  {
    seq(|log|, i requires 0 <= i < |log| => log[i].commit)
  }

  datatype Event =
    | Arrive(pid: nat, job: Job)
    | Enter(pid: nat)
    | Advance(pid: nat, fault: Fault)
    | Leave(pid: nat)
    | Crash(pid: nat)

  predicate Enabled(s: System, e: Event) {
    match e
    case Arrive(pid, job) => pid !in s.processes && SourceResolved(job.op)
    case Enter(pid) => pid in s.processes && s.processes[pid].Waiting? && s.holder == None
    case Advance(pid, _) =>
      pid in s.processes && s.processes[pid].Running? && !s.processes[pid].pc.Done? && Shaped(s.processes[pid].pc)
    case Leave(pid) => pid in s.processes && s.processes[pid].Running? && s.processes[pid].pc.Done?
    case Crash(pid) => pid in s.processes && (s.processes[pid].Waiting? || s.processes[pid].Running?)
  }

  /** Replacing the lock commits; restoring it takes the commit back. */
  predicate Signs(pc: Pc, next: Pc) { pc.Replacing? && (next.MovingOld? || next == Done(Applied)) }

  predicate Reverts(pc: Pc, next: Pc) { pc.Restoring? && next.Unwriting? }

  function Record(log: seq<Signed>, pid: nat, job: Job, pc: Pc, next: Pc): seq<Signed> {
    if Signs(pc, next) then log + [Signed(pid, Commit(job, pc.plan))]
    else if Reverts(pc, next) && log != [] then log[..|log| - 1]
    else log
  }

  function Next(s: System, e: Event): System
    requires Enabled(s, e)
  {
    match e
    case Arrive(pid, job) => s.(processes := s.processes[pid := Waiting(job)])
    case Enter(pid) =>
      s.(holder := Some(pid), processes := s.processes[pid := Running(s.processes[pid].job, Planning, s.files)])
    case Advance(pid, fault) =>
      var p := s.processes[pid];
      var (pc, files) := Step(p.job, p.pc, s.files, fault);
      s.(files := files, processes := s.processes[pid := p.(pc := pc)], log := Record(s.log, pid, p.job, p.pc, pc))
    case Leave(pid) =>
      var p := s.processes[pid];
      s.(holder := None, processes := s.processes[pid := Finished(p.job, p.pc.outcome)])
    case Crash(pid) =>
      s.(holder := if s.holder == Some(pid) then None else s.holder,
         processes := s.processes[pid := Crashed(s.processes[pid].job)])
  }

  function Start(hadFile: bool): System { System(NoFiles(hadFile), None, map[], []) }

  /** The state after a sequence of events, if every one of them was possible when it came. */
  function Execute(hadFile: bool, events: seq<Event>): Option<System> {
    if events == [] then Some(Start(hadFile))
    else
      var before := Execute(hadFile, events[..|events| - 1]);
      var e := events[|events| - 1];
      if before.Some? && Enabled(before.value, e) then Some(Next(before.value, e)) else None
  }

  // ----- the invariant ----------------------------------------------------------------------

  /** The steps between replacing the lock and restoring it. */
  predicate Committed(pc: Pc) {
    pc.MovingOld? || pc.DeletingOld? || pc.MovingOldBack? || pc.Restoring?
  }

  /** The commits the running process found when it entered. */
  function LogAtEntry(log: seq<Signed>, pc: Pc): seq<Signed> {
    if Committed(pc) && log != [] then log[..|log| - 1] else log
  }

  ghost predicate MidOperation(hadFile: bool, pid: nat, job: Job, pc: Pc, base: Files, files: Files, log: seq<Signed>) {
    && !pc.Done?
    && SourceResolved(job.op)
    && Backed(hadFile, base, Commits(LogAtEntry(log, pc)))
    && if pc.Planning? then files == base
       else
         && At(pc, base, files)
         && PlanFor(job, base.lock, base.lockFile) == Ok(pc.plan)
         && (Committed(pc) ==> log != [] && log[|log| - 1] == Signed(pid, Commit(job, pc.plan)))
  }

  predicate TookEffect(outcome: Outcome) { outcome.Applied? || outcome.RecoveryRequired? }

  predicate SignedBy(log: seq<Signed>, pid: nat) {
    exists i :: 0 <= i < |log| && log[i].pid == pid
  }

  ghost predicate HolderOk(s: System) {
    && (s.holder.Some? ==> s.holder.value in s.processes && s.processes[s.holder.value].Running?)
    && (forall pid :: pid in s.processes && s.processes[pid].Running? ==> s.holder == Some(pid))
  }

  ghost predicate FilesOk(hadFile: bool, s: System) {
    if s.holder.None? then Backed(hadFile, s.files, Commits(s.log))
    else if s.holder.value in s.processes && s.processes[s.holder.value].Running?
            && !s.processes[s.holder.value].pc.Done? then
      var p := s.processes[s.holder.value];
      MidOperation(hadFile, s.holder.value, p.job, p.pc, p.base, s.files, s.log)
    else Backed(hadFile, s.files, Commits(s.log))
  }

  /** No process signs twice, none signs before it enters, and an applied operation has signed. */
  ghost predicate SignaturesOk(s: System) {
    && (forall i, j :: 0 <= i < j < |s.log| ==> s.log[i].pid != s.log[j].pid)
    && (forall i :: 0 <= i < |s.log| ==> s.log[i].pid in s.processes && s.log[i].commit.job == s.processes[s.log[i].pid].job)
    && (forall pid :: pid in s.processes ==>
          match s.processes[pid]
          case Waiting(_) => !SignedBy(s.log, pid)
          case Running(_, pc, _) =>
            if pc.Done? then TookEffect(pc.outcome) ==> SignedBy(s.log, pid)
            else SignedBy(s.log, pid) <==> Committed(pc)
          case Finished(_, outcome) => TookEffect(outcome) ==> SignedBy(s.log, pid)
          case Crashed(_) => true)
  }

  predicate JobsResolved(s: System) {
    forall pid :: pid in s.processes ==> SourceResolved(s.processes[pid].job.op)
  }

  ghost predicate Invariant(hadFile: bool, s: System) {
    HolderOk(s) && FilesOk(hadFile, s) && SignaturesOk(s) && JobsResolved(s)
  }

  // ----- one step of the running process ----------------------------------------------------

  /** The lock, lock file and receipts while the plan's commit stands. */
  predicate HoldsCommit(plan: Plan, base: Files, fs: Files) {
    fs.lock == plan.next && fs.lockFile && fs.receipts == Prepared(base, plan).receipts
  }

  /** The lock and lock file while it does not, and no receipt lost. */
  predicate HoldsNoCommit(base: Files, fs: Files) {
    fs.lock == base.lock && fs.lockFile == base.lockFile && forall r :: r in base.receipts ==> r in fs.receipts
  }

  lemma MoveOldStays(plan: Plan, base: Files, fs: Files, fault: Fault)
    requires At(MovingOld(plan), base, fs)
    ensures var (pc', fs') := MoveOldStep(plan, fs, fault);
            HoldsCommit(plan, base, fs') && (pc'.DeletingOld? || pc'.Restoring?)
  {
  }

  lemma DeleteOldStays(plan: Plan, base: Files, fs: Files, fault: Fault)
    requires At(DeletingOld(plan), base, fs)
    ensures var (pc', fs') := DeleteOldStep(plan, fs, fault);
            HoldsCommit(plan, base, fs') && (pc'.MovingOldBack? || (pc'.Done? && TookEffect(pc'.outcome)))
  {
  }

  lemma MoveOldBackStays(plan: Plan, why: Code, base: Files, fs: Files, fault: Fault)
    requires At(MovingOldBack(plan, why), base, fs)
    ensures var (pc', fs') := MoveOldBackStep(plan, why, fs, fault);
            HoldsCommit(plan, base, fs') && (pc'.Restoring? || pc' == Done(RecoveryRequired))
  {
  }

  lemma RestoreUndoes(plan: Plan, why: Code, base: Files, fs: Files, fault: Fault)
    requires At(Restoring(plan, why), base, fs)
    ensures var (pc', fs') := RestoreStep(plan, why, fs, fault);
            if pc'.Done? then HoldsCommit(plan, base, fs') && pc'.outcome.Failed?
            else pc'.Unwriting? && HoldsNoCommit(base, fs')
  {
  }

  /** A committed step keeps the commit until the lock is restored. */
  predicate KeepsCommit(pc: Pc, base: Files, r: (Pc, Files))
    requires !pc.Planning? && !pc.Done?
  {
    if r.0.Unwriting? then pc.Restoring? && HoldsNoCommit(base, r.1)
    else (Committed(r.0) || r.0.Done?) && HoldsCommit(pc.plan, base, r.1)
  }

  lemma CommittedStep(job: Job, pc: Pc, base: Files, fs: Files, fault: Fault)
    requires At(pc, base, fs) && Committed(pc)
    ensures KeepsCommit(pc, base, Step(job, pc, fs, fault))
  {
    match pc
    case MovingOld(plan) => MoveOldStays(plan, base, fs, fault);
    case DeletingOld(plan) => DeleteOldStays(plan, base, fs, fault);
    case MovingOldBack(plan, why) => MoveOldBackStays(plan, why, base, fs, fault);
    case Restoring(plan, why) => RestoreUndoes(plan, why, base, fs, fault);
  }

  lemma ReplaceCommits(plan: Plan, base: Files, fs: Files, fault: Fault)
    requires At(Replacing(plan), base, fs)
    ensures var (pc', fs') := ReplaceStep(plan, fs, fault);
            if pc'.Unwriting? then HoldsNoCommit(base, fs')
            else (pc'.MovingOld? || pc' == Done(Applied)) && HoldsCommit(plan, base, fs')
  {
  }

  lemma UnwriteStays(plan: Plan, why: Code, base: Files, fs: Files, fault: Fault)
    requires At(Unwriting(plan, why), base, fs)
    ensures var (pc', fs') := UnwriteStep(plan, why, fs, fault);
            HoldsNoCommit(base, fs') && (pc'.MovingNew? || (pc'.Done? && pc'.outcome.Failed?))
  {
  }

  /** Outside those steps nothing commits, save a successful replacement. */
  predicate MakesNoCommit(base: Files, r: (Pc, Files)) {
    HoldsNoCommit(base, r.1) && !Committed(r.0) && (r.0.Done? ==> r.0.outcome.Failed?)
  }

  lemma PreparingStays(pc: Pc, base: Files, fs: Files, fault: Fault)
    requires At(pc, base, fs) && (pc.Copying? || pc.Writing?)
    ensures MakesNoCommit(base, if pc.Copying? then CopyStep(pc.plan, fs, fault) else WriteStep(pc.plan, fs, fault))
  {
  }

  lemma MoveNewStays(plan: Plan, why: Code, base: Files, fs: Files, fault: Fault)
    requires plan.created.Some? && HoldsNoCommit(base, fs)
    ensures MakesNoCommit(base, MoveNewStep(plan, why, fs, fault))
  {
  }

  lemma DeleteNewStays(plan: Plan, why: Code, base: Files, fs: Files, fault: Fault)
    requires plan.created.Some? && HoldsNoCommit(base, fs)
    ensures MakesNoCommit(base, DeleteNewStep(plan, why, fs, fault))
  {
  }

  lemma MoveNewBackStays(plan: Plan, base: Files, fs: Files, fault: Fault)
    requires plan.created.Some? && HoldsNoCommit(base, fs)
    ensures MakesNoCommit(base, MoveNewBackStep(plan, fs, fault))
  {
  }

  lemma PutBackHolds(pc: Pc, base: Files, fs: Files)
    requires At(pc, base, fs) && (pc.MovingNew? || pc.DeletingNew? || pc.MovingNewBack?)
    ensures pc.plan.created.Some? && HoldsNoCommit(base, fs)
  {
  }

  lemma UncommittedStep(job: Job, pc: Pc, base: Files, fs: Files, fault: Fault)
    requires At(pc, base, fs) && !Committed(pc) && !pc.Replacing?
    ensures MakesNoCommit(base, Step(job, pc, fs, fault))
  {
    match pc
    case Copying(_) => PreparingStays(pc, base, fs, fault);
    case Writing(_) => PreparingStays(pc, base, fs, fault);
    case Unwriting(plan, why) => UnwriteStays(plan, why, base, fs, fault);
    case MovingNew(plan, why) =>
      PutBackHolds(pc, base, fs);
      MoveNewStays(plan, why, base, fs, fault);
    case DeletingNew(plan, why) =>
      PutBackHolds(pc, base, fs);
      DeleteNewStays(plan, why, base, fs, fault);
    case MovingNewBack(plan, _) =>
      PutBackHolds(pc, base, fs);
      MoveNewBackStays(plan, base, fs, fault);
  }

  /** The log at entry is unaffected, and the log after the step follows from it. */
  lemma RecordedAtEntry(log: seq<Signed>, pid: nat, job: Job, pc: Pc, next: Pc)
    requires !pc.Planning? && !pc.Done? && (Committed(pc) ==> log != [])
    requires Committed(next) ==> Committed(pc) || (pc.Replacing? && next.MovingOld?)
    requires Committed(pc) ==> Committed(next) || next.Done? || (pc.Restoring? && next.Unwriting?)
    ensures var log' := Record(log, pid, job, pc, next);
            var entry := LogAtEntry(log, pc);
            && (!next.Done? ==> LogAtEntry(log', next) == entry)
            && log' == (if Signs(pc, next) then entry + [Signed(pid, Commit(job, pc.plan))]
                        else if Committed(pc) && !next.Unwriting? then log
                        else entry)
  {
  }

  lemma CommitsSnoc(log: seq<Signed>, x: Signed)
    ensures Commits(log + [x]) == Commits(log) + [x.commit]
  {
  }

  lemma EndBacked(hadFile: bool, pid: nat, job: Job, pc: Pc, base: Files, fs: Files, log: seq<Signed>, committed: bool)
    requires Backed(hadFile, base, Commits(log)) && SourceResolved(job.op) && !pc.Planning? && !pc.Done?
    requires PlanFor(job, base.lock, base.lockFile) == Ok(pc.plan)
    requires committed ==> HoldsCommit(pc.plan, base, fs) && ReceiptWasNew(pc.plan, base)
    requires !committed ==> HoldsNoCommit(base, fs)
    requires Consistent(fs)
    ensures Backed(hadFile, fs, Commits(if committed then log + [Signed(pid, Commit(job, pc.plan))] else log))
  {
    hide PlanFor, SourceResolved;
    if committed {
      CommitsSnoc(log, Signed(pid, Commit(job, pc.plan)));
      CommitBacked(hadFile, base, Commits(log), Commit(job, pc.plan), fs);
    }
  }

  lemma StepConsistent(job: Job, pc: Pc, base: Files, fs: Files, fault: Fault)
    requires Consistent(base) && At(pc, base, fs) && PlanFor(job, base.lock, base.lockFile) == Ok(pc.plan)
    ensures Consistent(Step(job, pc, fs, fault).1)
  {
    hide PlanFor;
    if PathWasFree(pc.plan, base) {
      PlanBacksNext(job, base);
    }
    StepLands(job, pc, base, fs, fault);
    var (pc', fs') := Step(job, pc, fs, fault);
    if pc'.Done? {
      EndedConsistent(pc.plan, pc'.outcome, base, fs');
    } else {
      AtConsistent(pc', base, fs');
    }
  }

  /** What one step does to the control state, the files and the log, taken together. */
  ghost predicate StepOutcome(hadFile: bool, pid: nat, job: Job, base: Files, pc': Pc, fs': Files, log': seq<Signed>) {
    if pc'.Done? then Backed(hadFile, fs', Commits(log'))
    else MidOperation(hadFile, pid, job, pc', base, fs', log')
  }

  lemma FirstStep(hadFile: bool, pid: nat, job: Job, base: Files, log: seq<Signed>, fault: Fault)
    requires MidOperation(hadFile, pid, job, Planning, base, base, log)
    ensures StepOutcome(hadFile, pid, job, base, PlanStep(job, base, fault), base, log)
    ensures !Committed(PlanStep(job, base, fault))
    ensures PlanStep(job, base, fault).Done? ==> PlanStep(job, base, fault).outcome.Failed?
  {
    hide PlanFor, SourceResolved;
    PlanLands(job, base, fault);
  }

  lemma CommittedEnds(hadFile: bool, pid: nat, job: Job, pc: Pc, base: Files, fs: Files, log: seq<Signed>, r: (Pc, Files))
    requires MidOperation(hadFile, pid, job, pc, base, fs, log) && !pc.Planning? && Committed(pc)
    requires r.0.Done? && HoldsCommit(pc.plan, base, r.1) && Consistent(r.1)
    ensures Backed(hadFile, r.1, Commits(log))
  {
    hide PlanFor, SourceResolved;
    var entry := LogAtEntry(log, pc);
    assert log == entry + [Signed(pid, Commit(job, pc.plan))];
    EndBacked(hadFile, pid, job, pc, base, r.1, entry, true);
  }

  lemma CommittedContinues(hadFile: bool, pid: nat, job: Job, pc: Pc, base: Files, fs: Files, log: seq<Signed>, r: (Pc, Files))
    requires MidOperation(hadFile, pid, job, pc, base, fs, log) && !pc.Planning? && Committed(pc)
    requires At(r.0, base, r.1) && r.0.plan == pc.plan
    requires Committed(r.0) || (pc.Restoring? && r.0.Unwriting?)
    ensures MidOperation(hadFile, pid, job, r.0, base, r.1, Record(log, pid, job, pc, r.0))
  {
    hide PlanFor, SourceResolved;
    RecordedAtEntry(log, pid, job, pc, r.0);
  }

  lemma ReplacingLater(hadFile: bool, pid: nat, job: Job, plan: Plan, base: Files, fs: Files, log: seq<Signed>, fault: Fault)
    requires MidOperation(hadFile, pid, job, Replacing(plan), base, fs, log)
    ensures var (pc', fs') := ReplaceStep(plan, fs, fault);
            StepOutcome(hadFile, pid, job, base, pc', fs', Record(log, pid, job, Replacing(plan), pc'))
  {
    hide PlanFor, SourceResolved, Final, FailedEnd, RecoveryEnd, Consistent, FilesAt, Facts;
    var (pc', fs') := ReplaceStep(plan, fs, fault);
    ReplaceLands(plan, base, fs, fault);
    ReplaceCommits(plan, base, fs, fault);
    RecordedAtEntry(log, pid, job, Replacing(plan), pc');
    if pc'.Done? {
      StepConsistent(job, Replacing(plan), base, fs, fault);
      EndBacked(hadFile, pid, job, Replacing(plan), base, fs', log, true);
    }
  }

  lemma UncommittedLater(hadFile: bool, pid: nat, job: Job, pc: Pc, base: Files, fs: Files, log: seq<Signed>, r: (Pc, Files))
    requires MidOperation(hadFile, pid, job, pc, base, fs, log) && !pc.Planning? && !Committed(pc) && !pc.Replacing?
    requires Lands(pc.plan, base, r) && MakesNoCommit(base, r) && Consistent(r.1)
    ensures StepOutcome(hadFile, pid, job, base, r.0, r.1, Record(log, pid, job, pc, r.0))
  {
    hide PlanFor, SourceResolved;
    RecordedAtEntry(log, pid, job, pc, r.0);
    if r.0.Done? {
      EndBacked(hadFile, pid, job, pc, base, r.1, log, false);
    }
  }

  lemma LaterOutcome(hadFile: bool, pid: nat, job: Job, pc: Pc, base: Files, fs: Files, log: seq<Signed>, r: (Pc, Files))
    requires MidOperation(hadFile, pid, job, pc, base, fs, log) && !pc.Planning? && !pc.Replacing?
    requires Lands(pc.plan, base, r) && Consistent(r.1)
    requires if Committed(pc) then KeepsCommit(pc, base, r) else MakesNoCommit(base, r)
    ensures StepOutcome(hadFile, pid, job, base, r.0, r.1, Record(log, pid, job, pc, r.0))
  {
    hide PlanFor, SourceResolved, Backed, MakesNoCommit;
    if !Committed(pc) {
      UncommittedLater(hadFile, pid, job, pc, base, fs, log, r);
    } else if r.0.Done? {
      CommittedEnds(hadFile, pid, job, pc, base, fs, log, r);
    } else {
      CommittedContinues(hadFile, pid, job, pc, base, fs, log, r);
    }
  }

  lemma LaterStep(hadFile: bool, pid: nat, job: Job, pc: Pc, base: Files, fs: Files, log: seq<Signed>, fault: Fault)
    requires MidOperation(hadFile, pid, job, pc, base, fs, log) && !pc.Planning? && !pc.Replacing?
    ensures var r := Step(job, pc, fs, fault);
            StepOutcome(hadFile, pid, job, base, r.0, r.1, Record(log, pid, job, pc, r.0))
  {
    hide PlanFor, SourceResolved;
    StepLands(job, pc, base, fs, fault);
    StepConsistent(job, pc, base, fs, fault);
    if Committed(pc) {
      CommittedStep(job, pc, base, fs, fault);
    } else {
      UncommittedStep(job, pc, base, fs, fault);
    }
    LaterOutcome(hadFile, pid, job, pc, base, fs, log, Step(job, pc, fs, fault));
  }

  lemma AnyStep(hadFile: bool, pid: nat, job: Job, pc: Pc, base: Files, fs: Files, log: seq<Signed>, fault: Fault)
    requires MidOperation(hadFile, pid, job, pc, base, fs, log)
    ensures var r := Step(job, pc, fs, fault);
            StepOutcome(hadFile, pid, job, base, r.0, r.1, Record(log, pid, job, pc, r.0))
  {
    hide PlanFor, SourceResolved;
    if pc.Planning? {
      FirstStep(hadFile, pid, job, base, log, fault);
    } else if pc.Replacing? {
      ReplacingLater(hadFile, pid, job, pc.plan, base, fs, log, fault);
    } else {
      LaterStep(hadFile, pid, job, pc, base, fs, log, fault);
    }
  }

  /** Whether the process has signed follows its control state, up to the end of the operation. */
  predicate SignsAsItGoes(pc: Pc, next: Pc) {
    if Signs(pc, next) then !Committed(pc) && (Committed(next) || next.Done?)
    else if Reverts(pc, next) then Committed(pc) && !Committed(next) && !next.Done?
    else if next.Done? then TookEffect(next.outcome) ==> Committed(pc)
    else Committed(pc) == Committed(next)
  }

  lemma ReplacingSigns(plan: Plan, base: Files, fs: Files, fault: Fault)
    requires At(Replacing(plan), base, fs)
    ensures SignsAsItGoes(Replacing(plan), ReplaceStep(plan, fs, fault).0)
  {
  }

  lemma LaterSigns(pc: Pc, base: Files, r: (Pc, Files))
    requires !pc.Planning? && !pc.Done? && !pc.Replacing?
    requires if Committed(pc) then KeepsCommit(pc, base, r) else MakesNoCommit(base, r)
    ensures SignsAsItGoes(pc, r.0)
  {
  }

  lemma StepSigns(job: Job, pc: Pc, base: Files, fs: Files, fault: Fault)
    requires At(pc, base, fs)
    ensures SignsAsItGoes(pc, Step(job, pc, fs, fault).0)
  {
    if pc.Replacing? {
      ReplacingSigns(pc.plan, base, fs, fault);
    } else {
      if Committed(pc) {
        CommittedStep(job, pc, base, fs, fault);
      } else {
        UncommittedStep(job, pc, base, fs, fault);
      }
      LaterSigns(pc, base, Step(job, pc, fs, fault));
    }
  }

  // ----- every event keeps the invariant ----------------------------------------------------

  lemma MidConsistent(job: Job, pc: Pc, base: Files, files: Files)
    requires Consistent(base) && At(pc, base, files) && PlanFor(job, base.lock, base.lockFile) == Ok(pc.plan)
    ensures Consistent(files)
  {
    hide PlanFor;
    if PathWasFree(pc.plan, base) {
      PlanBacksNext(job, base);
    }
    AtConsistent(pc, base, files);
  }

  lemma CrashCommitted(hadFile: bool, pid: nat, job: Job, pc: Pc, base: Files, files: Files, log: seq<Signed>)
    requires MidOperation(hadFile, pid, job, pc, base, files, log) && Committed(pc)
    requires HoldsCommit(pc.plan, base, files) && Consistent(files)
    ensures Backed(hadFile, files, Commits(log))
  {
    hide PlanFor, SourceResolved;
    CommittedEnds(hadFile, pid, job, pc, base, files, log, (Done(RecoveryRequired), files));
  }

  /** A crash leaves files that agree with the log as it stands. */
  lemma CrashBacked(hadFile: bool, pid: nat, job: Job, pc: Pc, base: Files, files: Files, log: seq<Signed>)
    requires MidOperation(hadFile, pid, job, pc, base, files, log)
    ensures Backed(hadFile, files, Commits(log))
  {
    hide PlanFor, SourceResolved;
    if !pc.Planning? {
      MidConsistent(job, pc, base, files);
      MidHolds(pc, base, files);
      if Committed(pc) {
        CrashCommitted(hadFile, pid, job, pc, base, files, log);
      } else {
        EndBacked(hadFile, pid, job, pc, base, files, log, false);
      }
    }
  }

  lemma MidHolds(pc: Pc, base: Files, files: Files)
    requires At(pc, base, files)
    ensures if Committed(pc) then HoldsCommit(pc.plan, base, files) && ReceiptWasNew(pc.plan, base)
            else HoldsNoCommit(base, files)
  {
  }

  lemma StaysSigned(log: seq<Signed>, x: Signed, pid: nat)
    ensures SignedBy(log + [x], pid) <==> SignedBy(log, pid) || x.pid == pid
  {
    assert (log + [x])[|log|] == x;
    assert forall i :: 0 <= i < |log| ==> (log + [x])[i] == log[i];
  }

  /** Who has signed after a step of `pid`: the others as before, and `pid` as its step says. */
  lemma SignersAfter(log: seq<Signed>, pid: nat, job: Job, pc: Pc, next: Pc)
    requires forall i, j :: 0 <= i < j < |log| ==> log[i].pid != log[j].pid
    requires !next.Planning? && (Signs(pc, next) ==> !pc.Planning? && !SignedBy(log, pid))
    requires Reverts(pc, next) ==> log != [] && log[|log| - 1].pid == pid
    ensures var after := Record(log, pid, job, pc, next);
            && (forall i, j :: 0 <= i < j < |after| ==> after[i].pid != after[j].pid)
            && (forall q :: q != pid ==> (SignedBy(after, q) <==> SignedBy(log, q)))
            && (SignedBy(after, pid) <==> Signs(pc, next) || (SignedBy(log, pid) && !Reverts(pc, next)))
            && (forall i :: 0 <= i < |after| ==> after[i] in log || (after[i].pid == pid && after[i].commit.job == job))
  {
    var after := Record(log, pid, job, pc, next);
    if Signs(pc, next) {
      forall q { StaysSigned(log, Signed(pid, Commit(job, pc.plan)), q); }
    } else if Reverts(pc, next) {
      var x := log[|log| - 1];
      assert log == after + [x];
      forall q { StaysSigned(after, x, q); }
      assert !SignedBy(after, pid) by {
        assert forall i :: 0 <= i < |after| ==> after[i] == log[i] && log[i].pid != pid;
      }
    }
  }

  /** Signatures after a step of `pid`, whatever it does to the log. */
  lemma AdvanceSignatures(s: System, pid: nat, pc': Pc, files': Files)
    requires SignaturesOk(s) && pid in s.processes && s.processes[pid].Running? && !s.processes[pid].pc.Done?
    requires SignsAsItGoes(s.processes[pid].pc, pc') && !pc'.Planning?
    requires Signs(s.processes[pid].pc, pc') ==> !s.processes[pid].pc.Planning?
    requires Committed(s.processes[pid].pc) ==> s.log != [] && s.log[|s.log| - 1].pid == pid
    ensures var p := s.processes[pid];
            SignaturesOk(s.(files := files', processes := s.processes[pid := p.(pc := pc')],
                            log := Record(s.log, pid, p.job, p.pc, pc')))
  {
    hide PlanFor, SourceResolved, Step, Record, SignedBy;
    var p := s.processes[pid];
    SignersAfter(s.log, pid, p.job, p.pc, pc');
    var after := Record(s.log, pid, p.job, p.pc, pc');
    forall i | 0 <= i < |after|
      ensures after[i].pid in s.processes && after[i].commit.job == s.processes[after[i].pid].job
    {
      if after[i] in s.log {
        var k :| 0 <= k < |s.log| && s.log[k] == after[i];
      }
    }
  }

  lemma AdvanceFiles(hadFile: bool, s: System, pid: nat, fault: Fault)
    requires Invariant(hadFile, s) && Enabled(s, Advance(pid, fault))
    ensures FilesOk(hadFile, Next(s, Advance(pid, fault)))
  {
    hide PlanFor, SourceResolved, Step;
    var p := s.processes[pid];
    assert s.holder == Some(pid);
    assert MidOperation(hadFile, pid, p.job, p.pc, p.base, s.files, s.log);
    AnyStep(hadFile, pid, p.job, p.pc, p.base, s.files, s.log, fault);
  }

  lemma MidIsAt(hadFile: bool, pid: nat, job: Job, pc: Pc, base: Files, files: Files, log: seq<Signed>)
    requires MidOperation(hadFile, pid, job, pc, base, files, log)
    ensures pc.Planning? ==> files == base
    ensures !pc.Planning? ==> At(pc, base, files)
    ensures Committed(pc) ==> log != [] && log[|log| - 1].pid == pid
  {
    hide PlanFor, Backed, SourceResolved;
  }

  lemma AdvanceSigned(hadFile: bool, s: System, pid: nat, fault: Fault)
    requires Invariant(hadFile, s) && Enabled(s, Advance(pid, fault))
    ensures SignaturesOk(Next(s, Advance(pid, fault)))
  {
    hide PlanFor, SourceResolved, Step, PlanStep, MidOperation, Backed, At;
    var p := s.processes[pid];
    var pc' := Step(p.job, p.pc, s.files, fault).0;
    MidIsAt(hadFile, pid, p.job, p.pc, p.base, s.files, s.log);
    assert SignsAsItGoes(p.pc, pc') by {
      if p.pc.Planning? {
        PlanSigns(hadFile, pid, p.job, s.files, s.log, fault);
      } else {
        StepSigns(p.job, p.pc, p.base, s.files, fault);
      }
    }
    AdvanceSignatures(s, pid, pc', Step(p.job, p.pc, s.files, fault).1);
  }

  lemma PlanSigns(hadFile: bool, pid: nat, job: Job, base: Files, log: seq<Signed>, fault: Fault)
    requires MidOperation(hadFile, pid, job, Planning, base, base, log)
    ensures SignsAsItGoes(Planning, Step(job, Planning, base, fault).0)
  {
    hide PlanFor, SourceResolved, Backed;
    FirstStep(hadFile, pid, job, base, log, fault);
  }

  lemma AdvanceKeepsInvariant(hadFile: bool, s: System, pid: nat, fault: Fault)
    requires Invariant(hadFile, s) && Enabled(s, Advance(pid, fault))
    ensures Invariant(hadFile, Next(s, Advance(pid, fault)))
  {
    hide PlanFor, SourceResolved, Step, MidOperation, Backed;
    AdvanceFiles(hadFile, s, pid, fault);
    AdvanceSigned(hadFile, s, pid, fault);
  }

  lemma ArriveKeepsInvariant(hadFile: bool, s: System, pid: nat, job: Job)
    requires Invariant(hadFile, s) && Enabled(s, Arrive(pid, job))
    ensures Invariant(hadFile, Next(s, Arrive(pid, job)))
  {
    hide PlanFor, SourceResolved, Step, MidOperation, Backed;
    assert !SignedBy(s.log, pid);
  }

  lemma EntryIsMidOperation(hadFile: bool, pid: nat, job: Job, files: Files, log: seq<Signed>)
    requires Backed(hadFile, files, Commits(log)) && SourceResolved(job.op)
    ensures MidOperation(hadFile, pid, job, Planning, files, files, log)
  {
    hide PlanFor, SourceResolved;
  }

  /** A process that enters while nobody is inside. */
  lemma EnterKeepsRest(s: System, pid: nat, s': System)
    requires HolderOk(s) && SignaturesOk(s) && JobsResolved(s)
    requires pid in s.processes && s.processes[pid].Waiting? && s.holder == None
    requires s' == s.(holder := Some(pid),
                      processes := s.processes[pid := Running(s.processes[pid].job, Planning, s.files)])
    ensures HolderOk(s') && SignaturesOk(s') && JobsResolved(s')
  {
    hide PlanFor, SourceResolved, Step, MidOperation, Backed;
  }

  lemma EnterKeepsInvariant(hadFile: bool, s: System, pid: nat)
    requires Invariant(hadFile, s) && Enabled(s, Enter(pid))
    ensures Invariant(hadFile, Next(s, Enter(pid)))
  {
    hide PlanFor, SourceResolved, Step, MidOperation, Backed;
    EntryIsMidOperation(hadFile, pid, s.processes[pid].job, s.files, s.log);
    EnterKeepsRest(s, pid, Next(s, Enter(pid)));
  }

  lemma LeaveKeepsInvariant(hadFile: bool, s: System, pid: nat)
    requires Invariant(hadFile, s) && Enabled(s, Leave(pid))
    ensures Invariant(hadFile, Next(s, Leave(pid)))
  {
    hide PlanFor, SourceResolved, Step, MidOperation, Backed;
  }

  lemma CrashKeepsInvariant(hadFile: bool, s: System, pid: nat)
    requires Invariant(hadFile, s) && Enabled(s, Crash(pid))
    ensures Invariant(hadFile, Next(s, Crash(pid)))
  {
    hide PlanFor, SourceResolved, Step, MidOperation, Backed;
    var p := s.processes[pid];
    if p.Running? && !p.pc.Done? {
      CrashBacked(hadFile, pid, p.job, p.pc, p.base, s.files, s.log);
    }
  }

  lemma StartOk(hadFile: bool)
    ensures Invariant(hadFile, Start(hadFile))
  {
    assert Commits([]) == [] && Receipts([]) == [];
  }

  lemma {:induction false} EveryStateOk(hadFile: bool, events: seq<Event>)
    requires Execute(hadFile, events).Some?
    ensures Invariant(hadFile, Execute(hadFile, events).value)
  {
    hide PlanFor, SourceResolved, Step, MidOperation, Backed;
    if events == [] {
      StartOk(hadFile);
    } else {
      var before := events[..|events| - 1];
      EveryStateOk(hadFile, before);
      var s := Execute(hadFile, before).value;
      match events[|events| - 1]
      case Arrive(pid, job) => ArriveKeepsInvariant(hadFile, s, pid, job);
      case Enter(pid) => EnterKeepsInvariant(hadFile, s, pid);
      case Advance(pid, fault) => AdvanceKeepsInvariant(hadFile, s, pid, fault);
      case Leave(pid) => LeaveKeepsInvariant(hadFile, s, pid);
      case Crash(pid) => CrashKeepsInvariant(hadFile, s, pid);
    }
  }

  // ----- what the invariant says ------------------------------------------------------------

  lemma HolderBacked(hadFile: bool, s: System)
    requires Invariant(hadFile, s)
    ensures Backed(hadFile, s.files, Commits(s.log))
  {
    hide PlanFor, SourceResolved;
    if s.holder.Some? {
      var p := s.processes[s.holder.value];
      if !p.pc.Done? {
        CrashBacked(hadFile, s.holder.value, p.job, p.pc, p.base, s.files, s.log);
      }
    }
  }

  /**
   In every reachable state, mid-operation or not, after any faults and crashes: the files are
   consistent, and the lock is the one that running the committed requests alone, one after
   another in commit order, would leave. Each of those runs alone is applied.
   */
  lemma Serializable(hadFile: bool, events: seq<Event>)
    requires Execute(hadFile, events).Some?
    ensures var s := Execute(hadFile, events).value;
            && Consistent(s.files)
            && ValidLog(hadFile, Commits(s.log))
            && s.files.lock == LockAfter(Commits(s.log)) == Serial(hadFile, Jobs(Commits(s.log))).lock
            && Tidy(hadFile, Serial(hadFile, Jobs(Commits(s.log))), Commits(s.log))
  {
    hide PlanFor, SourceResolved, Step, MidOperation, Backed;
    EveryStateOk(hadFile, events);
    HolderBacked(hadFile, Execute(hadFile, events).value);
    BackedIsSerial(hadFile, Execute(hadFile, events).value.files, Commits(Execute(hadFile, events).value.log));
  }

  lemma BackedIsSerial(hadFile: bool, files: Files, log: Log)
    requires Backed(hadFile, files, log)
    ensures Consistent(files) && ValidLog(hadFile, log)
    ensures files.lock == LockAfter(log) == Serial(hadFile, Jobs(log)).lock
    ensures Tidy(hadFile, Serial(hadFile, Jobs(log)), log)
  {
    hide PlanFor, SourceResolved, ValidLog, Serial;
    SerialTidy(hadFile, log);
  }

  /** No update is lost: an operation that took effect is in the commit log, exactly once. */
  lemma AppliedExactlyOnce(hadFile: bool, events: seq<Event>, pid: nat)
    requires Execute(hadFile, events).Some?
    requires var s := Execute(hadFile, events).value;
             pid in s.processes && s.processes[pid].Finished? && TookEffect(s.processes[pid].outcome)
    ensures var s := Execute(hadFile, events).value;
            exists i :: 0 <= i < |s.log| && s.log[i].pid == pid && s.log[i].commit.job == s.processes[pid].job
                     && forall j :: 0 <= j < |s.log| && s.log[j].pid == pid ==> j == i
  {
    hide PlanFor, SourceResolved, Step, MidOperation, Backed;
    EveryStateOk(hadFile, events);
    var s := Execute(hadFile, events).value;
    assert SignedBy(s.log, pid);
    var i :| 0 <= i < |s.log| && s.log[i].pid == pid;
    assert forall j :: 0 <= j < |s.log| && s.log[j].pid == pid ==> j == i;
  }

  lemma LockAsExpected(pc: Pc, base: Files, files: Files)
    requires At(pc, base, files)
    ensures pc.Replacing? ==> files.lock == pc.plan.previous
    ensures pc.Restoring? ==> files.lock == pc.plan.next
  {
  }

  /** At most one process is inside, and under the guard the compare with the lock never fails. */
  lemma CompareNeverFails(hadFile: bool, events: seq<Event>, pid: nat)
    requires Execute(hadFile, events).Some?
    requires pid in Execute(hadFile, events).value.processes && Execute(hadFile, events).value.processes[pid].Running?
    ensures var s := Execute(hadFile, events).value;
            var pc := s.processes[pid].pc;
            && (forall other :: other in s.processes && s.processes[other].Running? ==> other == pid)
            && (pc.Replacing? ==> s.files.lock == pc.plan.previous)
            && (pc.Restoring? ==> s.files.lock == pc.plan.next)
  {
    hide PlanFor, SourceResolved, Step, MidOperation, Backed;
    EveryStateOk(hadFile, events);
    var s := Execute(hadFile, events).value;
    var p := s.processes[pid];
    if p.pc.Replacing? || p.pc.Restoring? {
      MidIsAt(hadFile, pid, p.job, p.pc, p.base, s.files, s.log);
      LockAsExpected(p.pc, p.base, s.files);
    }
  }
}
