/**
 The system can do what it allows: a process that finds the guard free runs to its end, and running any requests one
 after another is one of the system's runs.
 */
module PackProgress {
  import opened Outcomes
  import opened PackPlanning
  import opened PackMachine
  import opened PackSystem

  lemma Stepped(hadFile: bool, events: seq<Event>, s: System, e: Event)
    requires Execute(hadFile, events) == Some(s) && Enabled(s, e)
    ensures Execute(hadFile, events + [e]) == Some(Next(s, e))
  {
    assert (events + [e])[..|events|] == events;
  }

  /** Inside the guard a process advances, whatever faults it meets, to where the machine's run ends. */
  lemma {:induction false} AdvancesToEnd(hadFile: bool, events: seq<Event>, s: System, pid: nat, faults: Faults)
    returns (later: seq<Event>, end: System)
    requires Execute(hadFile, events) == Some(s) && pid in s.processes && s.processes[pid].Running?
    requires Shaped(s.processes[pid].pc)
    ensures Execute(hadFile, later) == Some(end)
    ensures var p := s.processes[pid];
            var r := Run(p.job, p.pc, s.files, faults);
            && end.files == r.1 && end.holder == s.holder
            && end.processes == s.processes[pid := Running(p.job, Done(r.0), p.base)]
    decreases Remaining(s.processes[pid].pc)
  {
    hide Execute, Step;
    var p := s.processes[pid];
    if p.pc.Done? {
      later, end := events, s;
    } else {
      var e := Advance(pid, First(faults));
      Stepped(hadFile, events, s, e);
      later, end := AdvancesToEnd(hadFile, events + [e], Next(s, e), pid, Rest(faults));
    }
  }

  /** A new process that finds the guard free enters, runs as the machine does, and leaves. */
  lemma RunsAlone(hadFile: bool, events: seq<Event>, s: System, pid: nat, job: Job, faults: Faults)
    returns (later: seq<Event>, end: System)
    requires Execute(hadFile, events) == Some(s) && s.holder.None? && pid !in s.processes && SourceResolved(job.op)
    ensures Execute(hadFile, later) == Some(end) && end.holder.None?
    ensures var r := Run(job, Planning, s.files, faults);
            end.files == r.1 && end.processes == s.processes[pid := Finished(job, r.0)]
  {
    hide Execute, Run, SourceResolved;
    Stepped(hadFile, events, s, Arrive(pid, job));
    var s1 := Next(s, Arrive(pid, job));
    Stepped(hadFile, events + [Arrive(pid, job)], s1, Enter(pid));
    var s2 := Next(s1, Enter(pid));
    var inside, s3 := AdvancesToEnd(hadFile, events + [Arrive(pid, job)] + [Enter(pid)], s2, pid, faults);
    Stepped(hadFile, inside, s3, Leave(pid));
    later, end := inside + [Leave(pid)], Next(s3, Leave(pid));
  }

  /** Each request with the outcome it has in its turn. */
  function Ended(hadFile: bool, jobs: seq<Job>): map<nat, Process> {
    if jobs == [] then map[]
    else
      var n, before := |jobs| - 1, jobs[..|jobs| - 1];
      Ended(hadFile, before)[n := Finished(jobs[n], Run(jobs[n], Planning, Serial(hadFile, before), []).0)]
  }

  lemma {:induction false} EndedKeys(hadFile: bool, jobs: seq<Job>)
    ensures |jobs| !in Ended(hadFile, jobs) && forall pid :: pid in Ended(hadFile, jobs) ==> pid < |jobs|
  {
    hide Run;
    if jobs != [] {
      EndedKeys(hadFile, jobs[..|jobs| - 1]);
    }
  }

  /** Any requests, one after another: the system has a run that leaves exactly their files and outcomes. */
  lemma {:induction false} SerialReached(hadFile: bool, jobs: seq<Job>) returns (events: seq<Event>, s: System)
    requires forall i :: 0 <= i < |jobs| ==> SourceResolved(jobs[i].op)
    ensures Execute(hadFile, events) == Some(s) && s.holder.None?
    ensures s.files == Serial(hadFile, jobs) && s.processes == Ended(hadFile, jobs)
  {
    hide Run, SourceResolved;
    if jobs == [] {
      events, s := [], Start(hadFile);
    } else {
      var n, before := |jobs| - 1, jobs[..|jobs| - 1];
      assert forall i :: 0 <= i < |before| ==> before[i] == jobs[i];
      var first, s0 := SerialReached(hadFile, before);
      EndedKeys(hadFile, before);
      events, s := RunsAlone(hadFile, first, s0, n, jobs[n], []);
    }
  }

  // ----- crashes ----------------------------------------------------------------------------

  /** Inside the guard a process reaches every boundary of its run. */
  lemma {:induction false} AdvancesTo(hadFile: bool, events: seq<Event>, s: System, pid: nat, faults: Faults, n: nat)
    returns (later: seq<Event>, end: System)
    requires Execute(hadFile, events) == Some(s) && pid in s.processes && s.processes[pid].Running?
    requires Shaped(s.processes[pid].pc)
    requires n < |Boundaries(s.processes[pid].job, s.processes[pid].pc, s.files, faults)|
    ensures Execute(hadFile, later) == Some(end) && end.holder == s.holder
    ensures pid in end.processes && end.processes[pid].Running? && end.processes[pid].job == s.processes[pid].job
    ensures end.processes == s.processes[pid := end.processes[pid]]
    ensures end.files == Boundaries(s.processes[pid].job, s.processes[pid].pc, s.files, faults)[n]
    decreases n
  {
    hide Execute, Step;
    var p := s.processes[pid];
    if n == 0 {
      later, end := events, s;
    } else {
      var e := Advance(pid, First(faults));
      Stepped(hadFile, events, s, e);
      later, end := AdvancesTo(hadFile, events + [e], Next(s, e), pid, Rest(faults), n - 1);
    }
  }

  /** A process may die before it enters the guard, and at every boundary of its run: the files stay as they then are. */
  lemma DiesAnywhere(hadFile: bool, events: seq<Event>, s: System, pid: nat, job: Job, faults: Faults, n: nat)
    returns (early: seq<Event>, late: seq<Event>, end: System)
    requires Execute(hadFile, events) == Some(s) && s.holder.None? && pid !in s.processes && SourceResolved(job.op)
    requires n < |Boundaries(job, Planning, s.files, faults)|
    ensures Execute(hadFile, early) == Some(s.(processes := s.processes[pid := Crashed(job)]))
    ensures Execute(hadFile, late) == Some(end) && end.holder.None?
    ensures end.files == Boundaries(job, Planning, s.files, faults)[n]
    ensures end.processes == s.processes[pid := Crashed(job)]
  {
    hide Execute, Boundaries, SourceResolved;
    var arrive, enter, crash := Arrive(pid, job), Enter(pid), Crash(pid);
    Stepped(hadFile, events, s, arrive);
    var s1 := Next(s, arrive);
    Stepped(hadFile, events + [arrive], s1, crash);
    early := events + [arrive] + [crash];
    assert s1.processes[pid := Crashed(job)] == s.processes[pid := Crashed(job)];
    Stepped(hadFile, events + [arrive], s1, enter);
    var inside, s3 := AdvancesTo(hadFile, events + [arrive] + [enter], Next(s1, enter), pid, faults, n);
    Stepped(hadFile, inside, s3, crash);
    late, end := inside + [crash], Next(s3, crash);
  }
}
