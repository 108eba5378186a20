/**
 Committed operations, oldest first, and what they say about the lock. A commit is the moment the
 lock file is replaced; the log here is what remains after any replacement that was rolled back.
 */
module PackHistory {
  import opened Outcomes
  import opened PackModel
  import opened PackNames
  import opened PackComposition
  import opened PackPlanning

  datatype Commit = Commit(job: Job, plan: Plan)

  type Log = seq<Commit>

  function LockAfter(log: Log): Lock {
    if log == [] then map[] else log[|log| - 1].plan.next
  }

  function Receipts(log: Log): (rs: seq<ReceiptId>)
    ensures |rs| == |log|
    ensures forall i :: 0 <= i < |log| ==> rs[i] == log[i].plan.Receipt()
  {
    seq(|log|, i requires 0 <= i < |log| => log[i].plan.Receipt())
  }

  /** A lock file was there from the start, or exists as soon as anything has been committed. */
  predicate Planned(hadFile: bool, log: Log, i: nat)
    requires i < |log|
  {
    && SourceResolved(log[i].job.op)
    && PlanFor(log[i].job, LockAfter(log[..i]), hadFile || 0 < i) == Ok(log[i].plan)
  }

  /** Every commit was planned from the lock its predecessors left, under a receipt of its own. */
  ghost predicate ValidLog(hadFile: bool, log: Log) {
    && (forall i :: 0 <= i < |log| ==> Planned(hadFile, log, i))
    && Distinct(Receipts(log))
  }

  lemma Prefixes(hadFile: bool, log: Log, n: nat)
    requires n <= |log| && ValidLog(hadFile, log)
    ensures ValidLog(hadFile, log[..n])
  {
    hide PlanFor, SourceResolved;
    forall i | 0 <= i < n ensures Planned(hadFile, log[..n], i) {
      assert log[..n][..i] == log[..i];
      assert Planned(hadFile, log, i);
    }
    assert forall i :: 0 <= i < n ==> Receipts(log[..n])[i] == Receipts(log)[i];
  }

  lemma LastCommit(hadFile: bool, log: Log)
    requires log != [] && ValidLog(hadFile, log)
    ensures var before := log[..|log| - 1];
            && ValidLog(hadFile, before)
            && SourceResolved(log[|before|].job.op)
            && PlanFor(log[|before|].job, LockAfter(before), hadFile || before != []) == Ok(log[|before|].plan)
  {
    hide PlanFor, SourceResolved;
    Prefixes(hadFile, log, |log| - 1);
    assert Planned(hadFile, log, |log| - 1);
  }

  lemma Extend(hadFile: bool, log: Log, c: Commit)
    requires ValidLog(hadFile, log) && SourceResolved(c.job.op)
    requires PlanFor(c.job, LockAfter(log), hadFile || log != []) == Ok(c.plan)
    requires c.plan.Receipt() !in Receipts(log)
    ensures ValidLog(hadFile, log + [c])
    ensures Receipts(log + [c]) == Receipts(log) + [c.plan.Receipt()]
    ensures LockAfter(log + [c]) == c.plan.next
  {
    hide PlanFor, SourceResolved;
    var grown := log + [c];
    forall i | 0 <= i < |grown| ensures Planned(hadFile, grown, i) {
      if i < |log| {
        assert grown[..i] == log[..i] && grown[i] == log[i];
        assert Planned(hadFile, log, i);
      } else {
        assert grown[..i] == log;
      }
    }
  }

  // ----- invariants of every history --------------------------------------------------------

  /** The lock always passes the loader's rules and its active packs always compose. */
  lemma {:induction false} LockSound(hadFile: bool, log: Log)
    requires ValidLog(hadFile, log)
    ensures LockOk(LockAfter(log)) && Composed(LockAfter(log))
  {
    hide PlanFor, SourceResolved;
    if log != [] {
      var before, c := log[..|log| - 1], log[|log| - 1];
      LastCommit(hadFile, log);
      LockSound(hadFile, before);
      PlanKeepsComposed(c.job, LockAfter(before), hadFile || before != []);
      PlanKeepsLockOk(c.job, LockAfter(before), hadFile || before != []);
    }
  }

  // ----- the receipts determine the lock ----------------------------------------------------

  predicate Installs(r: ReceiptId, id: PackId) {
    r.identity.action == InstallAction && r.identity.pack == id
  }

  /** The position of the pack's latest install receipt, or the length when there is none. */
  function LatestInstall(rs: seq<ReceiptId>, id: PackId): (k: nat)
    ensures k <= |rs|
    ensures k < |rs| ==> Installs(rs[k], id)
    ensures forall j :: 0 <= j < |rs| && Installs(rs[j], id) ==> j <= k < |rs|
  {
    if rs == [] then 0
    else if Installs(rs[|rs| - 1], id) then |rs| - 1
    else
      var k := LatestInstall(rs[..|rs| - 1], id);
      if k < |rs| - 1 then k else |rs|
  }

  function ReceiptsOf(rs: seq<ReceiptId>, id: PackId): seq<ReceiptId> {
    if rs == [] then []
    else if rs[0].identity.pack == id then [rs[0]] + ReceiptsOf(rs[1..], id)
    else ReceiptsOf(rs[1..], id)
  }

  /**
   A lock read off the receipts alone: entries from the last receipt's projection, and for each
   the receipts of that pack since its latest install, in order.
   */
  function Rebuild(rs: seq<ReceiptId>): Lock {
    if rs == [] then map[]
    else
      var next := rs[|rs| - 1].identity.next;
      map id | id in next :: Entry(next[id], Chain(rs, id))
  }

  lemma {:induction false} ReceiptsOfSnoc(rs: seq<ReceiptId>, r: ReceiptId, id: PackId)
    ensures ReceiptsOf(rs + [r], id) == ReceiptsOf(rs, id) + if r.identity.pack == id then [r] else []
  {
    if rs == [] {
      assert rs + [r] == [r];
      assert [r][1..] == [];
    } else {
      ReceiptsOfSnoc(rs[1..], r, id);
      assert (rs + [r])[1..] == rs[1..] + [r];
    }
  }

  lemma LatestInstallSnoc(rs: seq<ReceiptId>, r: ReceiptId, id: PackId)
    ensures LatestInstall(rs + [r], id)
         == if Installs(r, id) then |rs|
            else if LatestInstall(rs, id) < |rs| then LatestInstall(rs, id) else |rs| + 1
  {
  }

  /** The receipts of a pack since its latest install: its receipt list, as the log tells it. */
  function Chain(rs: seq<ReceiptId>, id: PackId): seq<ReceiptId> {
    ReceiptsOf(rs[LatestInstall(rs, id)..], id)
  }

  lemma ChainStarts(rs: seq<ReceiptId>, r: ReceiptId, id: PackId)
    requires Installs(r, id)
    ensures Chain(rs + [r], id) == [r]
  {
    LatestInstallSnoc(rs, r, id);
    assert (rs + [r])[|rs|..] == [r];
    ReceiptsOfSnoc([], r, id);
    assert [] + [r] == [r];
  }

  lemma ChainGrows(rs: seq<ReceiptId>, r: ReceiptId, id: PackId)
    requires !Installs(r, id) && LatestInstall(rs, id) < |rs|
    ensures Chain(rs + [r], id) == Chain(rs, id) + if r.identity.pack == id then [r] else []
  {
    var k := LatestInstall(rs, id);
    LatestInstallSnoc(rs, r, id);
    assert (rs + [r])[k..] == rs[k..] + [r];
    ReceiptsOfSnoc(rs[k..], r, id);
  }

  /** Every listed pack has an install receipt. */
  lemma {:induction false} ListedPacksWereInstalled(hadFile: bool, log: Log, id: PackId)
    requires ValidLog(hadFile, log) && id in LockAfter(log)
    ensures LatestInstall(Receipts(log), id) < |log|
  {
    hide PlanFor, SourceResolved;
    var before, c := log[..|log| - 1], log[|log| - 1];
    LastCommit(hadFile, log);
    PlanEffect(c.job, LockAfter(before), hadFile || before != []);
    if c.job.op.Install? && Target(c.job.op) == id {
      assert Installs(Receipts(log)[|before|], id);
    } else {
      PlanBundles(c.job, LockAfter(before), hadFile || before != []);
      assert id in LockAfter(before);
      ListedPacksWereInstalled(hadFile, before, id);
      var k := LatestInstall(Receipts(before), id);
      assert Receipts(log)[k] == Receipts(before)[k];
    }
  }

  /** One entry of the lock against the log, given the entry before the last commit. */
  lemma LastChain(hadFile: bool, before: Log, c: Commit, id: PackId)
    requires ValidLog(hadFile, before + [c]) && ValidLog(hadFile, before)
    requires PlanFor(c.job, LockAfter(before), hadFile || before != []) == Ok(c.plan)
    requires id in c.plan.next
    requires id in LockAfter(before) ==> LockAfter(before)[id].receipts == Chain(Receipts(before), id)
    ensures c.plan.next[id].receipts == Chain(Receipts(before) + [c.plan.Receipt()], id)
  {
    hide PlanFor, SourceResolved;
    var lock, r, rs := LockAfter(before), c.plan.Receipt(), Receipts(before);
    PlanEffect(c.job, lock, hadFile || before != []);
    if Installs(r, id) {
      ChainStarts(rs, r, id);
    } else {
      PlanBundles(c.job, lock, hadFile || before != []);
      assert id in lock;
      ListedPacksWereInstalled(hadFile, before, id);
      ChainGrows(rs, r, id);
    }
  }

  lemma RebuildsTo(rs: seq<ReceiptId>, lock: Lock)
    requires rs != [] && rs[|rs| - 1].identity.next == Project(lock)
    requires forall id :: id in lock ==> lock[id].receipts == Chain(rs, id)
    ensures Rebuild(rs) == lock
  {
  }

  lemma RebuiltReceipts(rs: seq<ReceiptId>, id: PackId)
    requires id in Rebuild(rs)
    ensures Rebuild(rs)[id].receipts == Chain(rs, id)
  {
  }

  /** The receipt log determines the lock, receipt lists included. */
  lemma {:induction false} ReceiptsDetermineLock(hadFile: bool, log: Log)
    requires ValidLog(hadFile, log)
    ensures Rebuild(Receipts(log)) == LockAfter(log)
  {
    hide PlanFor, SourceResolved;
    if log != [] {
      var before, c := log[..|log| - 1], log[|log| - 1];
      LastCommit(hadFile, log);
      ReceiptsDetermineLock(hadFile, before);
      assert log == before + [c];
      assert Receipts(log) == Receipts(before) + [c.plan.Receipt()];
      assert c.plan.receipt.next == Project(c.plan.next) by {
        PlanEffect(c.job, LockAfter(before), hadFile || before != []);
      }
      forall id | id in c.plan.next
        ensures c.plan.next[id].receipts == Chain(Receipts(log), id)
      {
        if id in LockAfter(before) {
          RebuiltReceipts(Receipts(before), id);
        }
        LastChain(hadFile, before, c, id);
      }
      RebuildsTo(Receipts(log), c.plan.next);
    }
  }

  /** Every receipt the lock lists is on record. */
  lemma {:induction false} ListedReceiptsRecorded(hadFile: bool, log: Log, id: PackId, r: ReceiptId)
    requires ValidLog(hadFile, log) && id in LockAfter(log) && r in LockAfter(log)[id].receipts
    ensures r in Receipts(log)
  {
    hide PlanFor, SourceResolved;
    var before, c := log[..|log| - 1], log[|log| - 1];
    LastCommit(hadFile, log);
    PlanEffect(c.job, LockAfter(before), hadFile || before != []);
    if r == c.plan.Receipt() {
      assert Receipts(log)[|before|] == r;
    } else {
      ListedReceiptsRecorded(hadFile, before, id, r);
      var k :| 0 <= k < |before| && Receipts(before)[k] == r;
      assert Receipts(log)[k] == r;
    }
  }

  // ----- refusal of a receipt that is already on record -------------------------------------

  /**
   A valid plan repeats a recorded receipt exactly when the same request was committed before,
   from the same lock. An install or upgrade also records whether it created the lock file, so
   a first run over no lock file at all never counts against a later one.
   */
  lemma RepeatedReceipt(hadFile: bool, log: Log, job: Job)
    requires ValidLog(hadFile, log)
    requires PlanFor(job, LockAfter(log), hadFile || log != []).Ok?
    ensures PlanFor(job, LockAfter(log), hadFile || log != []).value.Receipt() in Receipts(log)
       <==> exists i :: 0 <= i < |log| && log[i].job == job && LockAfter(log[..i]) == LockAfter(log)
                     && ((job.op.Install? || job.op.Upgrade?) ==> hadFile || 0 < i)
  {
    hide PlanFor, SourceResolved;
    forall i | 0 <= i < |log|
      ensures PlanFor(job, LockAfter(log), hadFile || log != []).value.Receipt() == Receipts(log)[i]
         <==> log[i].job == job && LockAfter(log[..i]) == LockAfter(log)
              && ((job.op.Install? || job.op.Upgrade?) ==> hadFile || 0 < i)
    {
      assert Planned(hadFile, log, i);
      ReceiptsCollide(job, LockAfter(log), hadFile || log != [], log[i].job, LockAfter(log[..i]), hadFile || 0 < i);
    }
  }

  // ----- the refusal does happen ------------------------------------------------------------

  function WithCommit(hadFile: bool, log: Log, job: Job): Log
    requires PlanFor(job, LockAfter(log), hadFile || log != []).Ok?
  {
    log + [Commit(job, PlanFor(job, LockAfter(log), hadFile || log != []).value)]
  }

  lemma InstallIntoEmpty(src: PackSource, branch: string, lockFile: bool)
    requires src.tree.manifest.dependencies == []
    ensures PlanFor(Job(Install(src), branch), map[], lockFile).Ok?
    ensures PlanFor(Job(Install(src), branch), map[], lockFile).value.next.Keys == {src.Id()}
    ensures var p := PlanFor(Job(Install(src), branch), map[], lockFile).value;
            p.next[src.Id()].receipts == [p.Receipt()]
  {
    AdmissibleIffPairwise(src.Id(), PinFor(src, Active), ActiveEntries(map[], None));
    ReceiptIdentityStable(Job(Install(src), branch), map[], lockFile);
    PlanEffect(Job(Install(src), branch), map[], lockFile);
  }

  lemma RemoveOnly(lock: Lock, id: PackId, branch: string)
    requires lock.Keys == {id}
    ensures PlanFor(Job(Remove(id), branch), lock, true).Ok?
    ensures PlanFor(Job(Remove(id), branch), lock, true).value.next == map[]
  {
    assert ActiveEntries(lock, Some(id)) == map[];
  }

  /** A lock that lists the newest receipt has never been there before, so any request is new. */
  lemma NewestListedIsNew(hadFile: bool, log: Log, id: PackId, job: Job)
    requires ValidLog(hadFile, log) && log != []
    requires id in LockAfter(log) && Receipts(log)[|log| - 1] in LockAfter(log)[id].receipts
    requires PlanFor(job, LockAfter(log), hadFile || log != []).Ok?
    ensures PlanFor(job, LockAfter(log), hadFile || log != []).value.Receipt() !in Receipts(log)
  {
    hide PlanFor, SourceResolved;
    var newest := Receipts(log)[|log| - 1];
    forall i | 0 <= i < |log|
      ensures id in LockAfter(log[..i]) ==> newest !in LockAfter(log[..i])[id].receipts
    {
      Prefixes(hadFile, log, i);
      assert forall k :: 0 <= k < i ==> Receipts(log[..i])[k] == Receipts(log)[k];
      assert newest !in Receipts(log[..i]);
      if id in LockAfter(log[..i]) && newest in LockAfter(log[..i])[id].receipts {
        ListedReceiptsRecorded(hadFile, log[..i], id, newest);
        assert false;
      }
    }
    RepeatedReceipt(hadFile, log, job);
  }

  /** One install and remove, from an empty lock back to an empty lock. */
  lemma OneCycle(hadFile: bool, log: Log, src: PackSource, branch: string) returns (grown: Log)
    requires ValidLog(hadFile, log) && LockAfter(log) == map[]
    requires Resolved(src) && src.tree.manifest.dependencies == []
    requires PlanFor(Job(Install(src), branch), map[], hadFile || log != []).Ok? ==>
      PlanFor(Job(Install(src), branch), map[], hadFile || log != []).value.Receipt() !in Receipts(log)
    ensures ValidLog(hadFile, grown) && LockAfter(grown) == map[] && |grown| == |log| + 2 && grown[..|log|] == log
    ensures grown[|log|].job == Job(Install(src), branch)
    ensures grown[|log| + 1].job == Job(Remove(src.Id()), branch)
  {
    hide PlanFor, Resolved, ValidLog;
    InstallIntoEmpty(src, branch, hadFile || log != []);
    var one := WithCommit(hadFile, log, Job(Install(src), branch));
    Extend(hadFile, log, one[|log|]);
    RemoveOnly(LockAfter(one), src.Id(), branch);
    NewestListedIsNew(hadFile, one, src.Id(), Job(Remove(src.Id()), branch));
    grown := WithCommit(hadFile, one, Job(Remove(src.Id()), branch));
    Extend(hadFile, one, grown[|one|]);
  }

  /** From an empty lock, an install is refused exactly when it was committed over an empty lock before. */
  lemma InstallAgain(hadFile: bool, log: Log, src: PackSource, branch: string)
    requires ValidLog(hadFile, log) && LockAfter(log) == map[] && log != []
    requires src.tree.manifest.dependencies == []
    ensures PlanFor(Job(Install(src), branch), map[], true).Ok?
    ensures PlanFor(Job(Install(src), branch), map[], true).value.Receipt() in Receipts(log)
       <==> exists i :: 0 <= i < |log| && log[i].job == Job(Install(src), branch) && LockAfter(log[..i]) == map[]
                     && (hadFile || 0 < i)
  {
    hide PlanFor, SourceResolved;
    InstallIntoEmpty(src, branch, true);
    RepeatedReceipt(hadFile, log, Job(Install(src), branch));
  }

  /** How often one branch can install and remove a pack: the first install counts only over a lock file. */
  function Cycles(hadFile: bool): nat { if hadFile then 1 else 2 }

  ghost predicate Cycled(hadFile: bool, log: Log, src: PackSource, branch: string) {
    && ValidLog(hadFile, log) && |log| == 2 * Cycles(hadFile)
    && LockAfter(log) == map[] && LockAfter(log[..|log| - 2]) == map[]
    && forall i :: 0 <= i < |log| ==>
         log[i].job == Job(if i % 2 == 0 then Install(src) else Remove(src.Id()), branch)
  }

  /** As many install and remove cycles are accepted, from an empty lock with or without a file for it. */
  lemma CyclesAccepted(hadFile: bool, src: PackSource, branch: string) returns (log: Log)
    requires Resolved(src) && src.tree.manifest.dependencies == []
    ensures Cycled(hadFile, log, src, branch)
  {
    hide PlanFor, Resolved;
    InstallIntoEmpty(src, branch, hadFile);
    assert ValidLog(hadFile, []) && Receipts([]) == [];
    log := OneCycle(hadFile, [], src, branch);
    if !hadFile {
      var first := log;
      InstallAgain(hadFile, first, src, branch);
      log := OneCycle(hadFile, first, src, branch);
      assert log[..2] == first;
      assert log[0] == first[0] && log[1] == first[1];
    }
  }

  /**
   The next install is planned without objection and then refused, because its receipt is already on
   record: the second on a branch when an empty lock file was there from the start, else the third.
   */
  lemma NextInstallRefused(hadFile: bool, log: Log, src: PackSource, branch: string)
    requires src.tree.manifest.dependencies == []
    requires Cycled(hadFile, log, src, branch)
    ensures PlanFor(Job(Install(src), branch), LockAfter(log), true).Ok?
    ensures PlanFor(Job(Install(src), branch), LockAfter(log), true).value.Receipt() in Receipts(log)
  {
    hide PlanFor;
    assert log[|log| - 2].job == Job(Install(src), branch) && LockAfter(log[..|log| - 2]) == map[];
    InstallAgain(hadFile, log, src, branch);
  }
}
