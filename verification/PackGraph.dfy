/**
 The dependency graph of the active packs: when it is acyclic, what keeps it so, and what follows
 for taking packs out again.
 */
module PackGraph {
  import opened Outcomes
  import opened PackModel
  import opened PackNames
  import opened PackComposition
  import opened PackPlanning
  import opened PackHistory

  predicate Edge(active: Lock, a: PackId, b: PackId) {
    a in active && b in active && DependsOn(active[a].pin, b)
  }

  type Rank = map<PackId, nat>

  /** Dependencies have smaller ranks than their dependents. */
  ghost predicate Ranks(rank: Rank, active: Lock) {
    && active.Keys <= rank.Keys
    && forall a, b :: Edge(active, a, b) ==> rank[b] < rank[a]
  }

  ghost predicate Acyclic(lock: Lock) {
    exists rank :: Ranks(rank, ActiveEntries(lock, None))
  }

  ghost predicate IsPath(active: Lock, path: seq<PackId>, a: PackId, b: PackId) {
    && path != [] && path[0] == a && path[|path| - 1] == b
    && forall i :: 0 <= i < |path| - 1 ==> Edge(active, path[i], path[i + 1])
  }

  ghost predicate Reaches(active: Lock, a: PackId, b: PackId) {
    exists path :: IsPath(active, path, a, b)
  }

  lemma ReachesSelf(active: Lock, a: PackId)
    ensures Reaches(active, a, a)
  {
    assert IsPath(active, [a], a, a);
  }

  lemma ReachesVia(active: Lock, a: PackId, b: PackId, c: PackId)
    requires Edge(active, a, b) && Reaches(active, b, c)
    ensures Reaches(active, a, c)
  {
    var path :| IsPath(active, path, b, c);
    assert forall i :: 0 < i < |path| ==> ([a] + path)[i] == path[i - 1];
    assert IsPath(active, [a] + path, a, c);
  }

  /** Ranks fall along every edge of a path. */
  lemma {:induction false} RanksFall(rank: Rank, active: Lock, path: seq<PackId>, a: PackId, b: PackId)
    requires Ranks(rank, active) && IsPath(active, path, a, b) && a in active
    ensures b in active
    ensures |path| == 1 || rank[b] < rank[a]
  {
    if |path| > 1 {
      assert Edge(active, path[0], path[1]);
      assert forall i :: 0 <= i < |path| - 1 ==> path[1..][i] == path[i + 1];
      assert forall i :: 0 <= i < |path| - 2 ==> Edge(active, path[1..][i], path[1..][i + 1]) by {
        forall i | 0 <= i < |path| - 2 ensures Edge(active, path[1..][i], path[1..][i + 1]) {
          assert Edge(active, path[i + 1], path[i + 2]);
        }
      }
      RanksFall(rank, active, path[1..], path[1], b);
    }
  }

  lemma Bound(rank: Rank) returns (bound: nat)
    ensures forall a :: a in rank ==> rank[a] < bound
  {
    bound := 0;
    var rest := rank.Keys;
    while rest != {}
      invariant rest <= rank.Keys
      invariant forall a :: a in rank && a !in rest ==> rank[a] < bound
    {
      var a :| a in rest;
      bound := if rank[a] < bound then bound else rank[a] + 1;
      rest := rest - {a};
    }
  }

  // ----- install, disable and remove --------------------------------------------------------

  /** A pack nothing active depends on can be ranked above all its dependencies. */
  lemma JoinKeepsAcyclic(active: Lock, id: PackId, e: Entry, rank: Rank) returns (next: Rank)
    requires Ranks(rank, active) && id !in active
    requires forall a :: a in active ==> !DependsOn(active[a].pin, id)
    requires !DependsOn(e.pin, id)
    ensures Ranks(next, active[id := e])
  {
    var bound := Bound(rank);
    next := rank[id := bound];
    var grown := active[id := e];
    forall a, b | Edge(grown, a, b) ensures next[b] < next[a] {
      if a != id {
        assert a in active && grown[a] == active[a];
        assert Edge(active, a, b);
      } else {
        assert b in active;
      }
    }
  }

  lemma SubgraphKeepsAcyclic(active: Lock, next: Lock, rank: Rank)
    requires Ranks(rank, active)
    requires forall a :: a in next ==> a in active && next[a].pin == active[a].pin
    ensures Ranks(rank, next)
  {
  }

  /** Dependencies of composed packs are active, so nothing depends on an id that is not. */
  lemma NoDependentOnInactive(lock: Lock, id: PackId)
    requires Composed(lock) && id !in ActiveEntries(lock, None)
    ensures !HasActiveDependent(lock, id)
    ensures forall a :: a in ActiveEntries(lock, None) ==> !DependsOn(ActiveEntries(lock, None)[a].pin, id)
  {
    var active := ActiveEntries(lock, None);
    assert ActiveEntries(lock, Some(id)) == active;
    forall a | a in active ensures !DependsOn(active[a].pin, id) {
      forall i | 0 <= i < |active[a].pin.dependencies|
        ensures active[a].pin.dependencies[i].id != id
      {
        assert DependencyMet(active[a].pin.dependencies[i], active);
      }
    }
  }

  lemma NotItsOwnDependency(id: PackId, pin: Pin)
    requires PinOk(id, pin)
    ensures !DependsOn(pin, id)
  {
  }

  lemma InstallKeepsAcyclic(lock: Lock, id: PackId, e: Entry)
    requires Composed(lock) && Acyclic(lock) && id !in lock
    requires e.pin.status == Active && PinOk(id, e.pin)
    ensures Acyclic(lock[id := e])
  {
    var active := ActiveEntries(lock, None);
    var rank :| Ranks(rank, active);
    NoDependentOnInactive(lock, id);
    NotItsOwnDependency(id, e.pin);
    var next := JoinKeepsAcyclic(active, id, e, rank);
    assert ActiveEntries(lock[id := e], None) == active[id := e];
  }

  lemma WithdrawalKeepsAcyclic(lock: Lock, next: Lock, id: PackId)
    requires Acyclic(lock) && ActiveEntries(next, None) == ActiveEntries(lock, Some(id))
    ensures Acyclic(next)
  {
    var rank :| Ranks(rank, ActiveEntries(lock, None));
    SubgraphKeepsAcyclic(ActiveEntries(lock, None), ActiveEntries(next, None), rank);
  }

  // ----- upgrade ----------------------------------------------------------------------------

  /** The new version depends, directly or not, on itself through the packs already active. */
  ghost predicate BackEdge(active: Lock, id: PackId, pin: Pin) {
    exists d :: DependsOn(pin, d) && Reaches(active, d, id)
  }

  /** Lift the upgraded pack and everything that reaches it above all other packs. */
  lemma LiftDependents(active: Lock, id: PackId, e: Entry, rank: Rank) returns (next: Rank)
    requires Ranks(rank, active) && id in active && !BackEdge(active, id, e.pin)
    ensures Ranks(next, active[id := e])
  {
    var bound := Bound(rank);
    var lifted := set a | a in active && Reaches(active, a, id);
    next := map a | a in active :: if a in lifted then rank[a] + bound else rank[a];
    var grown := active[id := e];
    ReachesSelf(active, id);
    forall a, b | Edge(grown, a, b) ensures next[b] < next[a] {
      if a == id {
        assert DependsOn(e.pin, b);
        assert b !in lifted;
      } else {
        assert Edge(active, a, b);
        if b in lifted {
          ReachesVia(active, a, b, id);
        }
      }
    }
  }

  /** A path that ends at the upgraded pack only uses edges of the other packs. */
  lemma PathSurvivesUpgrade(active: Lock, id: PackId, e: Entry, rank: Rank, path: seq<PackId>, d: PackId)
    requires Ranks(rank, active) && id in active && d in active && IsPath(active, path, d, id)
    ensures IsPath(active[id := e], path, d, id)
  {
    forall i | 0 <= i < |path| - 1
      ensures Edge(active[id := e], path[i], path[i + 1])
    {
      assert Edge(active, path[i], path[i + 1]);
      var tail := path[i..];
      assert forall j :: 0 <= j < |tail| - 1 ==> Edge(active, tail[j], tail[j + 1]) by {
        forall j | 0 <= j < |tail| - 1 ensures Edge(active, tail[j], tail[j + 1]) {
          assert Edge(active, path[i + j], path[i + j + 1]);
        }
      }
      assert IsPath(active, tail, path[i], id);
      RanksFall(rank, active, tail, path[i], id);
      assert path[i] != id;
    }
  }

  /**
   Upgrading an active pack keeps the graph acyclic exactly when no dependency of the new version
   leads back to the pack. The admission check does not look at this.
   */
  lemma UpgradeKeepsAcyclicIff(lock: Lock, id: PackId, e: Entry)
    requires Acyclic(lock) && id in ActiveEntries(lock, None) && e.pin.status == Active
    requires forall d :: DependsOn(e.pin, d) ==> d in ActiveEntries(lock, None)
    ensures Acyclic(lock[id := e]) <==> !BackEdge(ActiveEntries(lock, None), id, e.pin)
  {
    var active := ActiveEntries(lock, None);
    var grown := active[id := e];
    assert ActiveEntries(lock[id := e], None) == grown;
    var rank :| Ranks(rank, active);
    if !BackEdge(active, id, e.pin) {
      var next := LiftDependents(active, id, e, rank);
    } else {
      var d :| DependsOn(e.pin, d) && Reaches(active, d, id);
      var path :| IsPath(active, path, d, id);
      PathSurvivesUpgrade(active, id, e, rank, path, d);
      forall next ensures !Ranks(next, grown) {
        if Ranks(next, grown) {
          assert Edge(grown, id, d);
          RanksFall(next, grown, path, d, id);
          assert false;
        }
      }
    }
  }

  // ----- whole histories --------------------------------------------------------------------

  /** No upgrade in the log introduced a dependency that leads back to the upgraded pack. */
  ghost predicate NoBackEdges(log: Log) {
    forall i :: 0 <= i < |log| && log[i].job.op.Upgrade? ==>
      !BackEdge(ActiveEntries(LockAfter(log[..i]), None), Target(log[i].job.op), PinFor(log[i].job.op.src, Active))
  }

  lemma UpgradePlanDependencies(lock: Lock, src: PackSource, branch: string, lockFile: bool)
    requires PlanFor(Job(Upgrade(src), branch), lock, lockFile).Ok?
    ensures forall d :: DependsOn(PinFor(src, Active), d) ==> d in ActiveEntries(lock, None)
    ensures forall s :: DependsOn(PinFor(src, s), src.Id()) == DependsOn(PinFor(src, Active), src.Id())
  {
    var id := src.Id();
    InstallPlanAdmits(src, lock, lockFile, branch, Some(lock[id]));
    var pin := PinFor(src, lock[id].pin.status);
    forall d | DependsOn(PinFor(src, Active), d) ensures d in ActiveEntries(lock, None) {
      var i :| 0 <= i < |pin.dependencies| && pin.dependencies[i].id == d;
      assert DependencyMet(pin.dependencies[i], ActiveEntries(lock, Some(id)));
    }
  }

  lemma UpgradeCommitAcyclic(lock: Lock, lockFile: bool, job: Job)
    requires Acyclic(lock) && job.op.Upgrade? && PlanFor(job, lock, lockFile).Ok?
    requires !BackEdge(ActiveEntries(lock, None), Target(job.op), PinFor(job.op.src, Active))
    ensures Acyclic(PlanFor(job, lock, lockFile).value.next)
  {
    PlanEffect(job, lock, lockFile);
    var next, id := PlanFor(job, lock, lockFile).value.next, Target(job.op);
    if lock[id].pin.status == Active {
      UpgradePlanDependencies(lock, job.op.src, job.branch, lockFile);
      UpgradeKeepsAcyclicIff(lock, id, next[id]);
    } else {
      assert ActiveEntries(next, None) == ActiveEntries(lock, None) == ActiveEntries(lock, Some(id));
      WithdrawalKeepsAcyclic(lock, next, id);
    }
  }

  lemma WithdrawalLeavesOthers(lock: Lock, lockFile: bool, job: Job)
    requires (job.op.Disable? || job.op.Remove?) && PlanFor(job, lock, lockFile).Ok?
    ensures ActiveEntries(PlanFor(job, lock, lockFile).value.next, None) == ActiveEntries(lock, Some(Target(job.op)))
  {
    hide HasActiveDependent;
  }

  lemma WithdrawalCommitAcyclic(lock: Lock, lockFile: bool, job: Job)
    requires Acyclic(lock) && (job.op.Disable? || job.op.Remove?) && PlanFor(job, lock, lockFile).Ok?
    ensures Acyclic(PlanFor(job, lock, lockFile).value.next)
  {
    hide PlanFor;
    WithdrawalLeavesOthers(lock, lockFile, job);
    WithdrawalKeepsAcyclic(lock, PlanFor(job, lock, lockFile).value.next, Target(job.op));
  }

  lemma CommitKeepsAcyclic(lock: Lock, lockFile: bool, job: Job)
    requires Composed(lock) && Acyclic(lock) && SourceResolved(job.op)
    requires PlanFor(job, lock, lockFile).Ok?
    requires job.op.Upgrade? ==>
      !BackEdge(ActiveEntries(lock, None), Target(job.op), PinFor(job.op.src, Active))
    ensures Acyclic(PlanFor(job, lock, lockFile).value.next)
  {
    if job.op.Upgrade? {
      UpgradeCommitAcyclic(lock, lockFile, job);
    } else if job.op.Install? {
      PlanEffect(job, lock, lockFile);
      PlanBundles(job, lock, lockFile);
      InstallKeepsAcyclic(lock, Target(job.op), PlanFor(job, lock, lockFile).value.next[Target(job.op)]);
    } else {
      WithdrawalCommitAcyclic(lock, lockFile, job);
    }
  }

  /** Runs of install, disable and remove, and of upgrades without back edges, stay acyclic. */
  lemma {:induction false} HistoryAcyclic(hadFile: bool, log: Log)
    requires ValidLog(hadFile, log) && NoBackEdges(log)
    ensures Acyclic(LockAfter(log))
  {
    hide PlanFor, SourceResolved;
    if log == [] {
      assert Ranks(map[], ActiveEntries(map[], None));
    } else {
      var before := log[..|log| - 1];
      LastCommit(hadFile, log);
      assert forall i :: 0 <= i < |before| ==> log[..i] == before[..i];
      HistoryAcyclic(hadFile, before);
      LockSound(hadFile, before);
      CommitKeepsAcyclic(LockAfter(before), hadFile || before != [], log[|before|].job);
    }
  }

  // ----- taking packs out -------------------------------------------------------------------

  /** An acyclic installation always has a pack that nothing active depends on. */
  lemma SomePackRemovable(lock: Lock) returns (id: PackId)
    requires Composed(lock) && Acyclic(lock) && lock != map[]
    ensures id in lock && !HasActiveDependent(lock, id)
  {
    var active := ActiveEntries(lock, None);
    if disabled :| disabled in lock && disabled !in active {
      NoDependentOnInactive(lock, disabled);
      return disabled;
    }
    var rank :| Ranks(rank, active);
    var some :| some in lock;
    id := Topmost(active, rank, some);
    forall a | a in ActiveEntries(lock, Some(id)) ensures !DependsOn(ActiveEntries(lock, Some(id))[a].pin, id) {
      assert a in active;
      assert !Edge(active, a, id);
    }
  }

  lemma {:induction false} Topmost(active: Lock, rank: Rank, from: PackId) returns (top: PackId)
    requires Ranks(rank, active) && from in active
    ensures top in active && forall a :: a in active ==> rank[a] <= rank[top]
  {
    top := from;
    var rest := active.Keys;
    while rest != {}
      invariant rest <= active.Keys && top in active
      invariant forall a :: a in active && a !in rest ==> rank[a] <= rank[top]
    {
      var a :| a in rest;
      if rank[top] < rank[a] { top := a; }
      rest := rest - {a};
    }
  }

  ghost predicate FreshBranch(log: Log, branch: string) {
    forall i :: 0 <= i < |log| ==> log[i].job.branch != branch
  }

  /** Removals of different packs on a branch no earlier commit used. */
  ghost predicate Removals(log: Log, from: nat, branch: string)
    requires from <= |log|
  {
    && FreshBranch(log[..from], branch)
    && (forall i :: from <= i < |log| ==> log[i].job.op.Remove? && log[i].job.branch == branch)
    && (forall i :: from <= i < |log| ==> log[i].job.op.id !in LockAfter(log))
  }

  lemma RemovalCommits(hadFile: bool, log: Log, from: nat, branch: string, id: PackId) returns (grown: Log)
    requires ValidLog(hadFile, log) && from <= |log| && Removals(log, from, branch)
    requires id in LockAfter(log) && !HasActiveDependent(LockAfter(log), id)
    ensures ValidLog(hadFile, grown) && |grown| == |log| + 1 && grown[..|log|] == log
    ensures LockAfter(grown) == LockAfter(log) - {id}
    ensures Removals(grown, from, branch)
  {
    var job := Job(Remove(id), branch);
    var lock := LockAfter(log);
    assert PlanFor(job, lock, hadFile || log != []).Ok?;
    RepeatedReceipt(hadFile, log, job);
    forall i | 0 <= i < |log| ensures log[i].job != job {
      if i < from {
        assert log[..from][i] == log[i];
      }
    }
    grown := WithCommit(hadFile, log, job);
    Extend(hadFile, log, grown[|log|]);
    assert grown[..from] == log[..from];
  }

  lemma RemovalShrinks(lock: Lock, id: PackId)
    requires Acyclic(lock) && id in lock
    ensures Acyclic(lock - {id}) && |lock - {id}| == |lock| - 1
  {
    assert ActiveEntries(lock - {id}, None) == ActiveEntries(lock, Some(id));
    WithdrawalKeepsAcyclic(lock, lock - {id}, id);
    assert (lock - {id}).Keys == lock.Keys - {id};
  }

  lemma DrainOne(hadFile: bool, log: Log, from: nat, branch: string) returns (grown: Log)
    requires ValidLog(hadFile, log) && from <= |log| && Removals(log, from, branch)
    requires Acyclic(LockAfter(log)) && LockAfter(log) != map[]
    ensures ValidLog(hadFile, grown) && |grown| == |log| + 1 && grown[..|log|] == log
    ensures Removals(grown, from, branch)
    ensures Acyclic(LockAfter(grown)) && |LockAfter(grown)| == |LockAfter(log)| - 1
  {
    hide PlanFor, SourceResolved;
    var id;
    assert Composed(LockAfter(log)) by { LockSound(hadFile, log); }
    id := SomePackRemovable(LockAfter(log));
    RemovalShrinks(LockAfter(log), id);
    grown := RemovalCommits(hadFile, log, from, branch, id);
  }

  /**
   An acyclic installation can be drained: on a fresh branch, as many removals as there are
   installed packs leave nothing installed, and every one of them is accepted.
   */
  lemma {:induction false} Drain(hadFile: bool, log: Log, from: nat, branch: string) returns (drained: Log)
    requires ValidLog(hadFile, log) && from <= |log| && Removals(log, from, branch)
    requires Acyclic(LockAfter(log))
    ensures ValidLog(hadFile, drained) && LockAfter(drained) == map[]
    ensures |drained| == |log| + |LockAfter(log)| && drained[..|log|] == log
    ensures Removals(drained, from, branch)
    decreases |LockAfter(log)|
  {
    hide PlanFor, SourceResolved;
    if |LockAfter(log)| == 0 {
      drained := log;
    } else {
      var grown := DrainOne(hadFile, log, from, branch);
      drained := Drain(hadFile, grown, from, branch);
      assert drained[..|log|] == drained[..|grown|][..|log|];
    }
  }

  // ----- exactly when an installation can be emptied ----------------------------------------

  lemma WithdrawnEntry(lock: Lock, id: PackId)
    requires id in lock && !HasActiveDependent(lock, id)
    ensures var active, rest := ActiveEntries(lock, None), ActiveEntries(lock, Some(id));
            && id !in rest && (forall a :: a in rest ==> !DependsOn(rest[a].pin, id))
            && active == if id in active then rest[id := lock[id]] else rest
  {
    hide DependsOn;
  }

  lemma WithdrawalLosesNoCycle(lock: Lock, next: Lock, id: PackId)
    requires LockOk(lock) && id in lock && !HasActiveDependent(lock, id)
    requires ActiveEntries(next, None) == ActiveEntries(lock, Some(id)) && Acyclic(next)
    ensures Acyclic(lock)
  {
    assert PinOk(id, lock[id].pin);
    hide PinOk, LockOk, DependsOn, ActiveEntries, HasActiveDependent, Ranks;
    var active, rest := ActiveEntries(lock, None), ActiveEntries(next, None);
    var rank :| Ranks(rank, rest);
    WithdrawnEntry(lock, id);
    if id in active {
      NotItsOwnDependency(id, lock[id].pin);
      rank := JoinKeepsAcyclic(rest, id, lock[id], rank);
    }
    assert Ranks(rank, active);
  }

  /** The commits from a position on only take packs out. */
  ghost predicate Withdrawals(log: Log, from: nat) {
    forall i :: from <= i < |log| ==> log[i].job.op.Disable? || log[i].job.op.Remove?
  }

  lemma WithdrawalPlanned(lock: Lock, lockFile: bool, job: Job)
    requires (job.op.Disable? || job.op.Remove?) && PlanFor(job, lock, lockFile).Ok?
    ensures Target(job.op) in lock && !HasActiveDependent(lock, Target(job.op))
  {
  }

  /** However many packs are taken out, in whatever order, a cycle stays. */
  lemma {:induction false} CycleStays(hadFile: bool, log: Log, from: nat)
    requires ValidLog(hadFile, log) && from <= |log| && Withdrawals(log, from)
    requires Acyclic(LockAfter(log))
    ensures Acyclic(LockAfter(log[..from]))
    decreases |log|
  {
    hide PlanFor, SourceResolved, ValidLog, Acyclic, HasActiveDependent, LockOk;
    if from == |log| {
      assert log[..from] == log;
    } else {
      var before, c := log[..|log| - 1], log[|log| - 1];
      LastCommit(hadFile, log);
      LockSound(hadFile, before);
      WithdrawalPlanned(LockAfter(before), hadFile || before != [], c.job);
      WithdrawalLeavesOthers(LockAfter(before), hadFile || before != [], c.job);
      WithdrawalLosesNoCycle(LockAfter(before), LockAfter(log), Target(c.job.op));
      assert before[..from] == log[..from];
      CycleStays(hadFile, before, from);
    }
  }

  /** Some branch name is longer than every one used so far. */
  lemma {:induction false} SomeFreshBranch(log: Log) returns (branch: string)
    ensures FreshBranch(log, branch)
    ensures forall i :: 0 <= i < |log| ==> |log[i].job.branch| < |branch|
  {
    branch := "x";
    for n := 0 to |log|
      invariant branch != "" && forall i :: 0 <= i < n ==> |log[i].job.branch| < |branch|
    {
      branch := branch + log[n].job.branch;
    }
  }

  ghost predicate Emptied(hadFile: bool, log: Log, emptied: Log) {
    && ValidLog(hadFile, emptied) && |log| <= |emptied| && emptied[..|log|] == log
    && Withdrawals(emptied, |log|) && LockAfter(emptied) == map[]
  }

  /** Disables and removals can empty an installation exactly when its active packs' dependencies are acyclic. */
  lemma EmptiedIffAcyclic(hadFile: bool, log: Log)
    requires ValidLog(hadFile, log)
    ensures (exists emptied :: Emptied(hadFile, log, emptied)) <==> Acyclic(LockAfter(log))
  {
    hide ValidLog, Acyclic;
    if Acyclic(LockAfter(log)) {
      var branch := SomeFreshBranch(log);
      assert log[..|log|] == log;
      var drained := Drain(hadFile, log, |log|, branch);
      assert Emptied(hadFile, log, drained);
    }
    forall emptied | Emptied(hadFile, log, emptied)
      ensures Acyclic(LockAfter(log))
    {
      NothingIsAcyclic();
      CycleStays(hadFile, emptied, |log|);
    }
  }

  lemma NothingIsAcyclic()
    ensures Acyclic(map[])
  {
    assert Ranks(map[], ActiveEntries(map[], None));
  }

  // ----- two packs that can never be taken out ----------------------------------------------

  const NO_CAPABILITIES: Capabilities := Capabilities([], [], [], [], [], [], [])
  const NO_SLOTS: Slots := Slots([], [], [], [])

  /** A minimal resolved source. */
  function Sample(id: PackId, version: Version, needs: seq<PackId>,
                  migrations: map<Version, Migration>, locales: set<string>): PackSource {
    var kinds := {id + ".event"};
    var names := Identifiers(id, NO_CAPABILITIES, kinds);
    PackSource("packs", Tree(
      Manifest(id, version, NO_CAPABILITIES, NO_SLOTS,
               seq(|needs|, i requires 0 <= i < |needs| => Dependency(needs[i], [Comparator(AtLeast, Version(0, 0, 0))])),
               [], "upgrades", locales),
      migrations, kinds, map l | l in locales :: map n | n in names :: n, map[]))
  }

  lemma SampleResolved(id: PackId, version: Version, needs: seq<PackId>,
                       migrations: map<Version, Migration>, locales: set<string>)
    requires |id| == 1 && Lower(id[0]) && REQUIRED_LOCALES <= locales
    requires |needs| <= 1 && forall i :: 0 <= i < |needs| ==> IsPackId(needs[i]) && needs[i] != id
    ensures Resolved(Sample(id, version, needs, migrations, locales))
  {
    var src := Sample(id, version, needs, migrations, locales);
    assert DottedPrefix(id) <= id + ".event";
    assert forall key: Capability :: NO_CAPABILITIES.Of(key) == [];
    assert forall kind: SlotKind :: NO_SLOTS.Of(kind) == [];
    assert PinOk(src.Id(), PinFor(src, Active));
  }

  lemma SampleAdmissible(id: PackId, version: Version, needs: seq<PackId>,
                         migrations: map<Version, Migration>, locales: set<string>,
                         status: Status, active: Lock)
    requires forall i :: 0 <= i < |needs| ==> needs[i] in active
    requires forall other :: other in active ==> IsSamplePin(active[other].pin)
    ensures Admissible(id, PinFor(Sample(id, version, needs, migrations, locales), status), active)
    ensures IsSamplePin(PinFor(Sample(id, version, needs, migrations, locales), status))
  {
    var p := PinFor(Sample(id, version, needs, migrations, locales), status);
    AdmissibleIffPairwise(id, p, active);
    forall b | b in active ensures !Clash(id, p, b, active[b].pin) {
      assert forall kind: SlotKind :: p.slots.Of(kind) == [];
      assert forall key: Capability :: p.capabilities.Of(key) == [];
    }
    forall i | 0 <= i < |p.dependencies| ensures DependencyMet(p.dependencies[i], active) {
      assert p.dependencies[i].id == needs[i];
    }
  }

  /** No capabilities, no slots, no conflicts, and any version satisfies every dependency. */
  ghost predicate IsSamplePin(p: Pin) {
    && p.capabilities == NO_CAPABILITIES && p.slots == NO_SLOTS && p.conflicts == []
    && forall i :: 0 <= i < |p.dependencies| ==> p.dependencies[i].range == [Comparator(AtLeast, Version(0, 0, 0))]
  }

  ghost predicate SampleLock(lock: Lock) {
    forall id :: id in lock ==> IsSamplePin(lock[id].pin) && lock[id].pin.status == Active
  }

  function SampleJob(lock: Lock, src: PackSource, branch: string): Job {
    Job(if src.Id() in lock then Upgrade(src) else Install(src), branch)
  }

  lemma SamplePlan(lock: Lock, lockFile: bool, branch: string,
                   id: PackId, version: Version, needs: seq<PackId>,
                   migrations: map<Version, Migration>, locales: set<string>)
    requires SampleLock(lock)
    requires forall i :: 0 <= i < |needs| ==> needs[i] in lock && needs[i] != id
    requires id in lock ==>
      var was := lock[id].pin.version;
      Precedes(was, version) && was in migrations && migrations[was] == Migration(id, was, version)
    ensures var src := Sample(id, version, needs, migrations, locales);
            var plan := PlanFor(SampleJob(lock, src, branch), lock, lockFile);
            && plan.Ok?
            && plan.value.next.Keys == lock.Keys + {id}
            && plan.value.next[id].pin == PinFor(src, Active)
            && SampleLock(plan.value.next)
            && (forall other :: other in lock && other != id ==> plan.value.next[other] == lock[other])
  {
    hide PlanFor, PinFor, Sample, IsSamplePin;
    var src := Sample(id, version, needs, migrations, locales);
    SampleIs(id, version, needs, migrations, locales);
    SampleAdmissible(id, version, needs, migrations, locales, Active,
                     ActiveEntries(lock, if id in lock then Some(id) else None));
    AdmittedPlan(lock, lockFile, branch, src);
    PlanEffect(SampleJob(lock, src, branch), lock, lockFile);
  }

  lemma SampleIs(id: PackId, version: Version, needs: seq<PackId>,
                 migrations: map<Version, Migration>, locales: set<string>)
    ensures var src := Sample(id, version, needs, migrations, locales);
            src.Id() == id && src.Version() == version && src.tree.migrations == migrations
            && PinFor(src, Active).status == Active
  {
  }

  /** An admissible pack is planned, as an upgrade when an older active version is there with a migration from it. */
  lemma AdmittedPlan(lock: Lock, lockFile: bool, branch: string, src: PackSource)
    requires Admissible(src.Id(), PinFor(src, Active), ActiveEntries(lock, if src.Id() in lock then Some(src.Id()) else None))
    requires src.Id() in lock ==>
      var was := lock[src.Id()].pin;
      was.status == Active && Precedes(was.version, src.Version()) && MigrationFailure(src, was.version).None?
    ensures PlanFor(SampleJob(lock, src, branch), lock, lockFile).Ok?
  {
    hide Precedes, MigrationFailure;
    ReceiptIdentityStable(SampleJob(lock, src, branch), lock, lockFile);
  }

  lemma FreshBranchNew(hadFile: bool, log: Log, job: Job)
    requires ValidLog(hadFile, log) && FreshBranch(log, job.branch)
    requires PlanFor(job, LockAfter(log), hadFile || log != []).Ok?
    ensures PlanFor(job, LockAfter(log), hadFile || log != []).value.Receipt() !in Receipts(log)
  {
    hide PlanFor, SourceResolved;
    RepeatedReceipt(hadFile, log, job);
  }

  /** Committing a sample install or upgrade on a branch of its own. */
  lemma SampleCommit(hadFile: bool, log: Log, branch: string, id: PackId, version: Version, needs: seq<PackId>,
                     migrations: map<Version, Migration>, locales: set<string>) returns (grown: Log)
    requires ValidLog(hadFile, log) && SampleLock(LockAfter(log)) && FreshBranch(log, branch)
    requires Resolved(Sample(id, version, needs, migrations, locales))
    requires forall i :: 0 <= i < |needs| ==> needs[i] in LockAfter(log) && needs[i] != id
    requires id in LockAfter(log) ==>
      var was := LockAfter(log)[id].pin.version;
      Precedes(was, version) && was in migrations && migrations[was] == Migration(id, was, version)
    ensures ValidLog(hadFile, grown) && SampleLock(LockAfter(grown)) && |grown| == |log| + 1 && grown[..|log|] == log
    ensures grown[|log|].job == SampleJob(LockAfter(log), Sample(id, version, needs, migrations, locales), branch)
    ensures LockAfter(grown).Keys == LockAfter(log).Keys + {id}
    ensures LockAfter(grown)[id].pin == PinFor(Sample(id, version, needs, migrations, locales), Active)
    ensures forall other :: other in LockAfter(log) && other != id ==> LockAfter(grown)[other] == LockAfter(log)[other]
  {
    hide PlanFor;
    var job := SampleJob(LockAfter(log), Sample(id, version, needs, migrations, locales), branch);
    SamplePlan(LockAfter(log), hadFile || log != [], branch, id, version, needs, migrations, locales);
    FreshBranchNew(hadFile, log, job);
    grown := WithCommit(hadFile, log, job);
    Extend(hadFile, log, grown[|log|]);
  }

  lemma SampleNeeds(id: PackId, version: Version, needs: seq<PackId>,
                    migrations: map<Version, Migration>, locales: set<string>)
    ensures forall i :: 0 <= i < |needs| ==>
      DependsOn(PinFor(Sample(id, version, needs, migrations, locales), Active), needs[i])
  {
    var p := PinFor(Sample(id, version, needs, migrations, locales), Active);
    assert forall i :: 0 <= i < |needs| ==> p.dependencies[i].id == needs[i];
  }

  lemma InstallA(hadFile: bool) returns (log: Log)
    ensures ValidLog(hadFile, log) && SampleLock(LockAfter(log)) && |log| == 1
    ensures LockAfter(log).Keys == {"a"} && LockAfter(log)["a"].pin.version == Version(0, 1, 0)
    ensures log[0].job.op.Install? && log[0].job.branch == "wiki/1"
  {
    hide PlanFor, SourceResolved;
    SampleResolved("a", Version(0, 1, 0), [], map[], REQUIRED_LOCALES);
    assert ValidLog(hadFile, []) && Receipts([]) == [];
    log := SampleCommit(hadFile, [], "wiki/1", "a", Version(0, 1, 0), [], map[], REQUIRED_LOCALES);
  }

  lemma InstallBoth(hadFile: bool) returns (log: Log)
    ensures ValidLog(hadFile, log) && SampleLock(LockAfter(log)) && |log| == 2
    ensures LockAfter(log).Keys == {"a", "b"}
    ensures log[0].job.op.Install? && log[0].job.branch == "wiki/1"
    ensures log[1].job.op.Install? && log[1].job.branch == "wiki/2"
    ensures LockAfter(log)["a"].pin.version == Version(0, 1, 0)
    ensures LockAfter(log)["b"].pin == PinFor(Sample("b", Version(0, 1, 0), ["a"], map[], REQUIRED_LOCALES), Active)
  {
    hide PlanFor, SourceResolved;
    var first := InstallA(hadFile);
    SampleResolved("b", Version(0, 1, 0), ["a"], map[], REQUIRED_LOCALES);
    log := SampleCommit(hadFile, first, "wiki/2", "b", Version(0, 1, 0), ["a"], map[], REQUIRED_LOCALES);
    assert log[..1][0] == first[0];
  }

  /**
   Two packs, three accepted operations, and a deadlock: `a` is upgraded to depend on `b`, which
   depends on `a`. From then on neither can be disabled or removed, on any branch.
   */
  lemma MutualDependencyRun(hadFile: bool) returns (log: Log)
    ensures ValidLog(hadFile, log) && |log| == 3 && LockAfter(log).Keys == {"a", "b"}
    ensures log[0].job.op.Install? && log[1].job.op.Install? && log[2].job.op.Upgrade?
    ensures !Acyclic(LockAfter(log))
    ensures forall id, branch :: id in LockAfter(log) ==>
      && PlanFor(Job(Disable(id), branch), LockAfter(log), true) == Err(DependentPackActive)
      && PlanFor(Job(Remove(id), branch), LockAfter(log), true) == Err(DependentPackActive)
  {
    hide PlanFor, Resolved, ValidLog, DependsOn, Sample, Acyclic;
    var both := InstallBoth(hadFile);
    var steps := map[Version(0, 1, 0) := Migration("a", Version(0, 1, 0), Version(0, 2, 0))];
    SampleResolved("a", Version(0, 2, 0), ["b"], steps, REQUIRED_LOCALES);
    SampleIs("a", Version(0, 2, 0), ["b"], steps, REQUIRED_LOCALES);
    log := SampleCommit(hadFile, both, "wiki/3", "a", Version(0, 2, 0), ["b"], steps, REQUIRED_LOCALES);
    assert log[..2][0] == both[0] && log[..2][1] == both[1];
    SampleNeeds("a", Version(0, 2, 0), ["b"], steps, REQUIRED_LOCALES);
    SampleNeeds("b", Version(0, 1, 0), ["a"], map[], REQUIRED_LOCALES);
    assert ["a"][0] == "a" && ["b"][0] == "b";
    BothStuck(LockAfter(log));
  }

  lemma BothStuck(lock: Lock)
    requires lock.Keys == {"a", "b"} && lock["a"].pin.status == lock["b"].pin.status == Active
    requires DependsOn(lock["a"].pin, "b") && DependsOn(lock["b"].pin, "a")
    ensures !Acyclic(lock)
    ensures forall id, branch :: id in lock ==>
      && PlanFor(Job(Disable(id), branch), lock, true) == Err(DependentPackActive)
      && PlanFor(Job(Remove(id), branch), lock, true) == Err(DependentPackActive)
  {
    var active := ActiveEntries(lock, None);
    assert Edge(active, "a", "b") && Edge(active, "b", "a");
    assert "b" in ActiveEntries(lock, Some("a")) && "a" in ActiveEntries(lock, Some("b"));
    assert HasActiveDependent(lock, "a") && HasActiveDependent(lock, "b");
  }
}
