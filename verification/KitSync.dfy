/**
 Bringing a kit's files into a consumer's tree: a three-way comparison of the kit's selection, the
 lock of the previous sync, and the tree, which is then changed file by file. Writing a file makes the
 directories above it.
 */
module KitSync {
  import opened Outcomes
  import opened Text
  import opened KitContent

  /** What a digest identifies is the contents themselves: the lock's own text counts as contents. */
  datatype Digest = Sha(of: Content)

  datatype Content = Bytes(bytes: Bytestring) | LockText(lock: Lock)

  /** What sync records of itself: the source revision and a row for each managed file. */
  datatype Lock = Lock(source: string, rows: map<Path, Row>)

  /** A row read back may lack either field, or be no mapping at all and match nothing. */
  datatype Row = Row(sha: Option<Digest>, mode: Option<Mode>) | Malformed

  datatype Node = File(content: Content, mode: Mode) | Symlink | Directory | Special

  type Tree = map<Path, Node>

  type Files = map<Path, KitFile>

  type Rows = map<Path, Row>

  const LOCK_NAME: Path := "kit.lock"

  datatype SyncError =
    | BadLock
    | PathRefused(path: Path)
    | UnmanagedConflict(path: Path)
    | ManagedChanged(path: Path)
    | ConsumerMoved
    | ReplacesNonFile(path: Path)
    | ParentNotDirectory(path: Path)
    | ChangedByCommands(path: Path)
    | Interrupted
    | LockNotWritten

  function Look(t: Tree, p: Path): Option<Node> { if p in t then Some(t[p]) else None }

  // ----- paths ------------------------------------------------------------------------------

  predicate BadPart(s: string) { s == "" || s == "." || s == ".." || s == ".git" }

  predicate Safe(p: Path) {
    '\\' !in p && forall i :: 0 <= i < |Split('/', p)| ==> !BadPart(Split('/', p)[i])
  }

  /** Through a symlink, or into a nested repository, at some part of the path. */
  predicate Crosses(t: Tree, p: Path) {
    exists i :: 0 < i <= |p| && CrossesAt(t, p, i)
  }

  predicate CrossesAt(t: Tree, p: Path, i: nat)
    requires i <= |p|
  {
    && (i == |p| || p[i] == '/')
    && (Look(t, p[..i]) == Some(Symlink) || p[..i] + "/.git" in t)
  }

  predicate PathOk(t: Tree, p: Path) { Safe(p) && !Crosses(t, p) }

  lemma SafeIsNoRepository(p: Path, q: Path)
    requires Safe(p)
    ensures p != q + "/.git"
  {
    if p == q + "/.git" {
      assert p == q + "/" + ".git";
      SplitAround('/', q, ".git");
      assert Split('/', ".git") == [".git"];
      assert BadPart(Split('/', p)[|Split('/', q)|]);
      assert false;
    }
  }

  /** `part` is one of the names between the slashes of `p`. */
  ghost predicate HasPart(p: Path, part: string) {
    exists before, after :: PartAt(p, part, before, after)
  }

  predicate PartAt(p: Path, part: string, before: string, after: string) {
    "/" + p + "/" == before + "/" + part + "/" + after
  }

  lemma WholePart(part: string)
    requires '/' !in part
    ensures Split('/', part) == [part]
  {
  }

  lemma SplitThree(a: string, b: string, c: string)
    ensures Split('/', a + "/" + b + "/" + c) == Split('/', a) + Split('/', b) + Split('/', c)
  {
    hide Split;
    SplitAround('/', a + "/" + b, c);
    SplitAround('/', a, b);
  }

  lemma SplitEdges(p: Path)
    ensures Split('/', "/" + p + "/") == [""] + Split('/', p) + [""]
  {
    hide Split;
    SplitThree("", p, "");
    WholePart("");
    assert "" + "/" + p + "/" + "" == "/" + p + "/";
  }

  lemma PartIsListed(p: Path, part: string, before: string, after: string)
    requires '/' !in part && PartAt(p, part, before, after)
    ensures part in Split('/', p)
  {
    hide Split;
    SplitEdges(p);
    SplitThree(before, part, after);
    WholePart(part);
    var k := |Split('/', before)|;
    assert (Split('/', before) + [part] + Split('/', after))[k] == part;
    assert ([""] + Split('/', p) + [""])[k] == Split('/', p)[k - 1];
  }

  lemma JoinThree(a: seq<string>, part: string, b: seq<string>)
    requires a != [] && b != []
    ensures Join("/", a + [part] + b) == Join("/", a) + "/" + part + "/" + Join("/", b)
  {
    JoinAppend("/", a + [part], b);
    JoinAppend("/", a, [part]);
  }

  lemma ListedIsPart(p: Path, i: nat)
    requires i < |Split('/', p)|
    ensures HasPart(p, Split('/', p)[i])
  {
    hide Split, Join;
    SplitEdges(p);
    SplitJoin('/', "/" + p + "/");
    var all := Split('/', "/" + p + "/");
    var part := Split('/', p)[i];
    assert all == all[..i + 1] + [part] + all[i + 2..];
    JoinThree(all[..i + 1], part, all[i + 2..]);
    assert PartAt(p, part, Join("/", all[..i + 1]), Join("/", all[i + 2..]));
  }

  /** A path is taken only if no part of it is empty, names a directory by dots, or is a repository's own. */
  lemma SafeIff(p: Path)
    ensures Safe(p) <==>
              '\\' !in p && !HasPart(p, "") && !HasPart(p, ".") && !HasPart(p, "..") && !HasPart(p, ".git")
  {
    hide Split;
    var parts := Split('/', p);
    if Safe(p) {
      forall part, before, after | part in ["", ".", "..", ".git"]
        ensures !PartAt(p, part, before, after)
      {
        if PartAt(p, part, before, after) {
          PartIsListed(p, part, before, after);
          assert false;
        }
      }
    }
    if i :| 0 <= i < |parts| && BadPart(parts[i]) {
      ListedIsPart(p, i);
    }
  }

  /** Trees that gain only safe paths and no symlink refuse no more paths. */
  lemma PathStaysOk(t: Tree, u: Tree, p: Path)
    requires PathOk(t, p)
    requires forall q :: q in u && q !in t ==> Safe(q)
    requires forall q :: q in u && u[q].Symlink? ==> Look(t, q) == Some(Symlink)
    ensures PathOk(u, p)
  {
    hide Safe;
    forall i | 0 < i <= |p|
      ensures !CrossesAt(u, p, i)
    {
      assert !CrossesAt(t, p, i);
      if p[..i] + "/.git" in u && p[..i] + "/.git" !in t {
        SafeIsNoRepository(p[..i] + "/.git", p[..i]);
        assert false;
      }
    }
  }

  /** `a` is a directory on the way to `p`. */
  predicate Above(a: Path, p: Path) { 0 < |a| < |p| && a <= p && p[|a|] == '/' }

  function Parents(paths: set<Path>): (r: set<Path>)
    ensures forall a :: a in r <==> exists p :: p in paths && Above(a, p)
  {
    var r := set p, i | p in paths && 0 < i < |p| && p[i] == '/' :: p[..i];
    assert forall a, p :: p in paths && Above(a, p) ==> p[..|a|] == a;
    r
  }

  lemma SafeAbove(a: Path, p: Path)
    requires Safe(p) && Above(a, p)
    ensures Safe(a)
  {
    var rest := p[|a| + 1..];
    assert p == a + "/" + rest;
    SplitAround('/', a, rest);
    assert forall i :: 0 <= i < |Split('/', a)| ==> Split('/', p)[i] == Split('/', a)[i];
    assert forall i :: 0 <= i < |a| ==> p[i] == a[i];
  }

  /** What must not be entered: a link, or a directory that is a repository of its own. */
  predicate Fenced(t: Tree, q: Path) { q != "" && (Look(t, q) == Some(Symlink) || q + "/.git" in t) }

  /** A path is refused exactly for its own parts, or because it leads to or through something not to be entered. */
  lemma PathOkIff(t: Tree, p: Path)
    ensures PathOk(t, p) <==>
              && '\\' !in p && !HasPart(p, "") && !HasPart(p, ".") && !HasPart(p, "..") && !HasPart(p, ".git")
              && forall q :: q == p || Above(q, p) ==> !Fenced(t, q)
  {
    hide Safe, HasPart;
    SafeIff(p);
    forall q | Fenced(t, q) && (q == p || Above(q, p)) { FenceRefuses(t, q, p); }
    if i :| 0 < i <= |p| && CrossesAt(t, p, i) {
      assert i < |p| ==> Above(p[..i], p);
      assert i == |p| ==> p[..i] == p;
      assert Fenced(t, p[..i]);
    }
  }

  lemma FenceRefuses(t: Tree, q: Path, w: Path)
    requires Fenced(t, q) && (w == q || Above(q, w))
    ensures !PathOk(t, w)
  {
    hide Safe;
    assert w[..|q|] == q;
    assert CrossesAt(t, w, |q|);
  }

  /** In a revision's tree no file is a directory of another. */
  predicate PrefixFree(files: Files) { Parents(files.Keys) !! files.Keys }

  // ----- comparing --------------------------------------------------------------------------

  /** What planning sees of a path. */
  datatype Seen = SeenFile(sha: Digest, mode: Mode) | SeenSymlink | SeenOther | Missing

  function SeenAt(t: Tree, p: Path): Seen {
    match Look(t, p)
    case None => Missing
    case Some(Symlink) => SeenSymlink
    case Some(Directory) => SeenOther
    case Some(Special) => SeenOther
    case Some(File(c, m)) => SeenFile(Sha(c), m)
  }

  function NodeOf(f: KitFile): Node { File(Bytes(f.payload), f.mode) }

  function Expected(f: KitFile): Seen { SeenFile(Sha(Bytes(f.payload)), f.mode) }

  /** Absent fields compare equal to absent fields. */
  predicate RowMatches(row: Row, seen: Seen) {
    && row.Row?
    && row.sha == (if seen.SeenFile? then Some(seen.sha) else None)
    && row.mode == (if seen.SeenFile? then Some(seen.mode) else None)
  }

  /** The path may take the kit's file: it is absent, has it already, or is as the lock says. */
  predicate MayTake(t: Tree, files: Files, rows: Rows, p: Path)
    requires p in files
  {
    SeenAt(t, p).Missing? || SeenAt(t, p) == Expected(files[p]) || (p in rows && RowMatches(rows[p], SeenAt(t, p)))
  }

  predicate MayDrop(t: Tree, rows: Rows, p: Path)
    requires p in rows
  {
    SeenAt(t, p).Missing? || RowMatches(rows[p], SeenAt(t, p))
  }

  predicate Acceptable(t: Tree, files: Files, rows: Rows) {
    && (forall p :: p in files.Keys + rows.Keys ==> PathOk(t, p))
    && (forall p :: p in files ==> MayTake(t, files, rows, p))
    && (forall p :: p in rows && p !in files ==> MayDrop(t, rows, p))
  }

  datatype Plan = Plan(source: string, files: Files, added: set<Path>, changed: set<Path>, removed: set<Path>,
                       seen: map<Path, Seen>)

  function PlanFor(t: Tree, files: Files, rows: Rows, source: string): (plan: Plan)
    ensures plan.files == files && (PrefixFree(files) ==> WellFormed(plan))
  {
    Plan(source, files,
         (set p | p in files && SeenAt(t, p).Missing?),
         (set p | p in files && !SeenAt(t, p).Missing? && SeenAt(t, p) != Expected(files[p])),
         rows.Keys - files.Keys,
         (map p | p in files.Keys + rows.Keys :: SeenAt(t, p)))
  }

  /** What is written, what is deleted. */
  function Written(plan: Plan): set<Path> { plan.added + plan.changed }

  function Deletes(t: Tree, plan: Plan): set<Path> {
    set p | p in plan.removed && p in t && (t[p].File? || t[p].Symlink?)
  }

  predicate WellFormed(plan: Plan) {
    && Written(plan) <= plan.files.Keys
    && plan.removed !! plan.files.Keys
    && plan.removed + plan.files.Keys <= plan.seen.Keys
    && PrefixFree(plan.files)
    && (forall p :: p in Written(plan) ==> plan.seen[p] != Expected(plan.files[p]))
  }

  /** The tree once the deletions are made. */
  function Cleared(t: Tree, plan: Plan): Tree { t - Deletes(t, plan) }

  function Made(t: Tree, dirs: set<Path>): Tree { t + map a | a in dirs - t.Keys :: Directory }

  /** And once the files are written, with the directories above them. */
  function Applied(t: Tree, plan: Plan): Tree {
    Made(Cleared(t, plan), Parents(Written(plan))) + (map p | p in Written(plan) && p in plan.files :: NodeOf(plan.files[p]))
  }

  /** Nothing stands where a file or a directory must go. */
  predicate Clear(t: Tree, plan: Plan) {
    && (forall p :: p in Written(plan) ==> Look(t, p) != Some(Directory) && Look(t, p) != Some(Special))
    && (forall a :: a in Parents(Written(plan)) ==>
          Look(t, a) == None || Look(t, a) == Some(Directory) || a in Deletes(t, plan))
  }

  function LoadLock(t: Tree, foreign: Bytestring -> Option<Rows>): Result<Rows, SyncError> {
    match Look(t, LOCK_NAME)
    case None => Ok(map[])
    case Some(File(LockText(l), _)) => Ok(l.rows)
    case Some(File(Bytes(b), _)) => (match foreign(b) case Some(rows) => Ok(rows) case None => Err(BadLock))
    case Some(_) => Err(BadLock)
  }

  /** The lock is read from a regular file alone: sync's own, or one that reads as such; no file reads as no rows. */
  lemma LockReadIff(t: Tree, foreign: Bytestring -> Option<Rows>, rows: Rows)
    ensures LoadLock(t, foreign) == Ok(rows) <==>
              || ("kit.lock" !in t && rows == map[])
              || ("kit.lock" in t && t["kit.lock"].File? &&
                    match t["kit.lock"].content
                    case LockText(l) => rows == l.rows
                    case Bytes(b) => foreign(b) == Some(rows))
  {
  }

  function LockFor(files: Files, source: string): Lock {
    Lock(source, (map p | p in files :: Row(Some(Sha(Bytes(files[p].payload))), Some(files[p].mode))))
  }

  /** The tree once the lock is written. */
  function Locked(t: Tree, files: Files, source: string): Tree {
    t[LOCK_NAME := File(LockText(LockFor(files, source)), Plain)]
  }

  /** The lock file says which revision this is and, for exactly the kit's files, what was written. */
  ghost predicate Records(t: Tree, files: Files, source: string) {
    exists rows: Rows ::
      && Look(t, "kit.lock") == Some(File(LockText(Lock(source, rows)), Plain))
      && forall p :: (p in rows <==> p in files) &&
           (p in rows ==> rows[p] == Row(Some(Sha(Bytes(files[p].payload))), Some(files[p].mode)))
  }

  lemma LockedRecords(t: Tree, files: Files, source: string, p: Path)
    ensures Records(Locked(t, files, source), files, source)
    ensures p != "kit.lock" ==> Look(Locked(t, files, source), p) == Look(t, p)
  {
    assert LockFor(files, source) == Lock(source, LockFor(files, source).rows);
  }

  function Affected(plan: Plan): set<Path> { plan.removed + Written(plan) }

  /** Nothing moved between the plan and the copy. */
  predicate Ready(t: Tree, plan: Plan)
    requires WellFormed(plan)
  {
    forall p :: p in Affected(plan) ==> PathOk(t, p) && SeenAt(t, p) == plan.seen[p]
  }

  /**
   Where an interruption may leave the tree: each path is as before, or as after the deletions, or as planned, in
   any combination in which a written file has its directories.
   */
  ghost predicate Between(t: Tree, plan: Plan, u: Tree)
    requires WellFormed(plan)
  {
    && (forall p :: Look(u, p) == Look(t, p) || Look(u, p) == Look(Cleared(t, plan), p) || Look(u, p) == Look(Applied(t, plan), p))
    && (forall p, a :: p in Written(plan) && Look(u, p) == Some(NodeOf(plan.files[p])) && Above(a, p) ==>
          Look(u, a) == Look(Applied(t, plan), a))
  }

  /** The tree on the way to another, with the paths of `done` there already. */
  ghost predicate DealtWith(t: Tree, end: Tree, done: set<Path>, u: Tree) {
    forall p :: Look(u, p) == if p in done then Look(end, p) else Look(t, p)
  }

  lemma LookCleared(t: Tree, plan: Plan, p: Path)
    ensures Look(Cleared(t, plan), p) == if p in Deletes(t, plan) then None else Look(t, p)
  {
  }

  lemma LookApplied(t: Tree, plan: Plan, p: Path)
    requires WellFormed(plan)
    ensures Look(Applied(t, plan), p) ==
            if p in Written(plan) then Some(NodeOf(plan.files[p]))
            else if p in Parents(Written(plan)) && Look(Cleared(t, plan), p).None? then Some(Directory)
            else Look(Cleared(t, plan), p)
  {
    hide Parents, Deletes;
  }

  lemma SameTree(t: Tree, u: Tree)
    requires forall p :: Look(t, p) == Look(u, p)
    ensures t == u
  {
    assert forall p :: p in t ==> Look(u, p).Some?;
    assert forall p :: p in u ==> Look(t, p).Some?;
    assert t.Keys == u.Keys;
    assert forall p :: p in t ==> Look(t, p) == Look(u, p);
  }

  lemma WrittenAreFree(plan: Plan)
    requires WellFormed(plan)
    ensures Parents(Written(plan)) !! Written(plan)
    ensures forall a :: a in Parents(Written(plan)) ==> a in Parents(plan.files.Keys)
  {
  }

  /** Any tree on the way refuses no more paths than the tree it started from. */
  lemma StillOk(t: Tree, plan: Plan, u: Tree, p: Path)
    requires WellFormed(plan) && PathOk(t, p)
    requires forall q :: q in Written(plan) ==> Safe(q)
    requires forall q :: Look(u, q) == Look(t, q) || Look(u, q) == Look(Cleared(t, plan), q) || Look(u, q) == Look(Applied(t, plan), q)
    ensures PathOk(u, p)
  {
    hide Crosses, Safe, Applied, Cleared, Written, Deletes, Parents, WellFormed;
    forall q
      ensures q in u && q !in t ==> Safe(q)
      ensures q in u && u[q].Symlink? ==> Look(t, q) == Some(Symlink)
    {
      LookCleared(t, plan, q);
      LookApplied(t, plan, q);
      if q in Parents(Written(plan)) {
        var w :| w in Written(plan) && Above(q, w);
        SafeAbove(q, w);
      }
    }
    PathStaysOk(t, u, p);
  }

  lemma ReadyIsSafe(t: Tree, plan: Plan)
    requires WellFormed(plan) && Ready(t, plan)
    ensures forall q :: q in Written(plan) ==> Safe(q)
    ensures Affected(plan) <= plan.seen.Keys
  {
    hide Safe, Crosses;
  }

  lemma ReadyStays(t: Tree, plan: Plan, u: Tree, p: Path)
    requires WellFormed(plan) && Ready(t, plan) && p in Affected(plan)
    requires forall q :: Look(u, q) == Look(t, q) || Look(u, q) == Look(Cleared(t, plan), q) || Look(u, q) == Look(Applied(t, plan), q)
    ensures PathOk(u, p)
  {
    hide PathOk, Applied, Cleared, Written;
    ReadyIsSafe(t, plan);
    assert PathOk(t, p);
    StillOk(t, plan, u, p);
  }

  lemma RemovedFirst(plan: Plan)
    requires WellFormed(plan)
    ensures Affected(plan) - Written(plan) == plan.removed
    ensures |Affected(plan)| == |plan.removed| + |Written(plan)|
  {
  }

  /** During the deletions. */
  lemma DeletingIsBetween(t: Tree, plan: Plan, done: set<Path>, u: Tree)
    requires WellFormed(plan) && Ready(t, plan) && DealtWith(t, Cleared(t, plan), done, u)
    ensures Between(t, plan, u)
  {
    hide Applied, PathOk, Parents;
    ReadyMeansPlanned(t, plan);
    forall p | p in Written(plan)
      ensures Look(u, p) != Some(NodeOf(plan.files[p]))
    {
      LookCleared(t, plan, p);
    }
  }

  /** What is to be written is not there yet. */
  predicate Planned(t: Tree, plan: Plan)
    requires WellFormed(plan)
  {
    forall p :: p in Written(plan) ==> Look(t, p) != Some(NodeOf(plan.files[p]))
  }

  lemma ReadyMeansPlanned(t: Tree, plan: Plan)
    requires WellFormed(plan) && Ready(t, plan)
    ensures Planned(t, plan)
  {
    hide PathOk;
  }

  /** During the writes. */
  lemma WritingIsBetween(t: Tree, plan: Plan, written: set<Path>, u: Tree)
    requires WellFormed(plan) && Ready(t, plan) && written <= Written(plan)
    requires DealtWith(Cleared(t, plan), Applied(t, plan), written + Parents(written), u)
    ensures Between(t, plan, u)
  {
    hide Applied, PathOk, Cleared;
    ReadyMeansPlanned(t, plan);
    WrittenAreFree(plan);
    forall p | p in Written(plan) && Look(u, p) == Some(NodeOf(plan.files[p]))
      ensures p in written
    {
      LookCleared(t, plan, p);
      ParentsOfSome(written, Written(plan));
    }
  }

  lemma ParentsOfSome(some: set<Path>, all: set<Path>)
    requires some <= all
    ensures Parents(some) <= Parents(all)
  {
  }

  lemma DeletedNow(t: Tree, plan: Plan, done: set<Path>, u: Tree, p: Path)
    requires DealtWith(t, Cleared(t, plan), done, u) && p in plan.removed && p !in done
    ensures DealtWith(t, Cleared(t, plan), done + {p}, if p in u && (u[p].File? || u[p].Symlink?) then u - {p} else u)
  {
  }

  lemma AllDeleted(t: Tree, plan: Plan, u: Tree)
    requires DealtWith(t, Cleared(t, plan), plan.removed, u)
    ensures u == Cleared(t, plan)
  {
    forall p
      ensures Look(u, p) == Look(Cleared(t, plan), p)
    {
      LookCleared(t, plan, p);
    }
    SameTree(u, Cleared(t, plan));
  }

  /** One file written, with the directories above it. */
  lemma WrittenNow(t: Tree, plan: Plan, written: set<Path>, u: Tree, p: Path)
    requires WellFormed(plan) && written <= Written(plan) && p in Written(plan)
    requires DealtWith(Cleared(t, plan), Applied(t, plan), written + Parents(written), u)
    requires forall a :: a in Parents({p}) ==> Look(u, a) == None || Look(u, a) == Some(Directory)
    ensures DealtWith(Cleared(t, plan), Applied(t, plan), written + {p} + Parents(written + {p}),
                      Made(u, Parents({p}))[p := NodeOf(plan.files[p])])
  {
    hide Applied, Cleared, Written, Made, Parents;
    WrittenAreFree(plan);
    ParentsOfSome({p}, Written(plan));
    ParentsOfSome(written, Written(plan));
    ParentsOfMore(written, p);
    var v := Made(u, Parents({p}))[p := NodeOf(plan.files[p])];
    forall q
      ensures Look(v, q) == if q in written + {p} + Parents(written + {p}) then Look(Applied(t, plan), q) else Look(Cleared(t, plan), q)
    {
      LookApplied(t, plan, q);
      LookMade(u, Parents({p}), q);
      if q == p { assert Look(v, q) == Some(NodeOf(plan.files[p])); } else { assert Look(v, q) == Look(Made(u, Parents({p})), q); }
    }
  }

  lemma LookMade(u: Tree, dirs: set<Path>, q: Path)
    ensures Look(Made(u, dirs), q) == if q in dirs && Look(u, q).None? then Some(Directory) else Look(u, q)
  {
  }

  lemma ParentsOfMore(some: set<Path>, p: Path)
    ensures Parents(some + {p}) == Parents(some) + Parents({p})
  {
  }

  lemma AllWritten(t: Tree, plan: Plan, u: Tree)
    requires WellFormed(plan)
    requires DealtWith(Cleared(t, plan), Applied(t, plan), Written(plan) + Parents(Written(plan)), u)
    ensures u == Applied(t, plan)
  {
    hide Applied, Cleared, Written, Parents;
    forall p
      ensures Look(u, p) == Look(Applied(t, plan), p)
    {
      LookApplied(t, plan, p);
    }
    SameTree(u, Applied(t, plan));
  }

  /** What the loop finds in a file's way was there after the deletions. */
  lemma InTheWay(t: Tree, plan: Plan, written: set<Path>, u: Tree, p: Path)
    requires WellFormed(plan) && written <= Written(plan) && p in Written(plan) && p !in written
    requires DealtWith(Cleared(t, plan), Applied(t, plan), written + Parents(written), u)
    ensures Look(u, p) == Look(t, p) && p in plan.files
    ensures forall a :: a in Parents({p}) ==>
              (Look(u, a) == None || Look(u, a) == Some(Directory) <==>
               Look(t, a) == None || Look(t, a) == Some(Directory) || a in Deletes(t, plan))
  {
    hide Applied, Cleared;
    WrittenAreFree(plan);
    ParentsOfSome({p}, Written(plan));
    ParentsOfSome(written, Written(plan));
    LookCleared(t, plan, p);
    forall a | a in Parents({p})
      ensures Look(u, a) == None || Look(u, a) == Some(Directory) <==>
              Look(t, a) == None || Look(t, a) == Some(Directory) || a in Deletes(t, plan)
    {
      LookCleared(t, plan, a);
      LookApplied(t, plan, a);
    }
  }

  lemma SeenKeys(plan: Plan)
    requires WellFormed(plan)
    ensures Affected(plan) <= plan.seen.Keys
  {
  }

  lemma NothingDealtWith(t: Tree, end: Tree)
    ensures DealtWith(t, end, {}, t)
  {
  }

  lemma NoParents()
    ensures Parents({}) == {}
  {
  }

  lemma WrittenAffected(plan: Plan, p: Path)
    requires p in Written(plan)
    ensures p in Affected(plan)
  {
  }

  lemma BetweenStaysOk(t: Tree, plan: Plan, u: Tree, p: Path)
    requires WellFormed(plan) && Ready(t, plan) && Between(t, plan, u) && p in Affected(plan)
    ensures PathOk(u, p)
  {
    hide WellFormed, Ready, PathOk, Applied, Cleared, Affected, Written;
    ReadyStays(t, plan, u, p);
  }

  /** Nothing stands in the way of one file. */
  predicate FreeFor(t: Tree, plan: Plan, p: Path) {
    && Look(t, p) != Some(Directory) && Look(t, p) != Some(Special)
    && forall a :: a in Parents({p}) ==> Look(t, a) == None || Look(t, a) == Some(Directory) || a in Deletes(t, plan)
  }

  lemma NotClear(t: Tree, plan: Plan, p: Path)
    requires p in Written(plan) && !FreeFor(t, plan, p)
    ensures !Clear(t, plan)
  {
    ParentsOfSome({p}, Written(plan));
  }

  lemma AllFree(t: Tree, plan: Plan)
    requires forall p :: p in Written(plan) ==> FreeFor(t, plan, p)
    ensures Clear(t, plan)
  {
    forall a | a in Parents(Written(plan))
      ensures Look(t, a) == None || Look(t, a) == Some(Directory) || a in Deletes(t, plan)
    {
      var p :| p in Written(plan) && Above(a, p);
      assert a in Parents({p});
    }
  }

  // ----- the operations ---------------------------------------------------------------------

  /** Whether a refusal names a real obstacle. */
  predicate Justified(e: SyncError, t: Tree, files: Files, rows: Rows) {
    match e
    case PathRefused(p) => (p in files || p in rows) && !PathOk(t, p)
    case UnmanagedConflict(p) => p in files && p !in rows && !MayTake(t, files, rows, p)
    case ManagedChanged(p) =>
      p in rows && (if p in files then !MayTake(t, files, rows, p) else !MayDrop(t, rows, p))
    case _ => false
  }

  /** What verification establishes before the lock is written. */
  predicate Verified(t: Tree, files: Files) {
    forall p :: p in files ==> PathOk(t, p) && SeenAt(t, p) == Expected(files[p])
  }

  /**
   When a sync goes through: the plan is accepted, nothing stands in its way or interrupts it, and what the
   consumer's commands leave verifies and can take the lock.
   */
  predicate Succeeds(t: Tree, foreign: Bytestring -> Option<Rows>, files: Files, source: string, budget: nat,
                     commands: Tree -> Tree)
  {
    var rows := LoadLock(t, foreign);
    rows.Ok? && Acceptable(t, files, rows.value) &&
    var plan := PlanFor(t, files, rows.value, source);
    && Clear(t, plan) && |Affected(plan)| <= budget
    && var end := commands(Applied(t, plan)); Verified(end, files) && Look(end, LOCK_NAME) != Some(Directory)
  }

  /** An accepted plan is ready as long as the tree does not move. */
  lemma AcceptableIsReady(t: Tree, files: Files, rows: Rows, source: string)
    requires PrefixFree(files) && Acceptable(t, files, rows)
    ensures Ready(t, PlanFor(t, files, rows, source))
  {
    hide PathOk, MayTake, MayDrop;
    var plan := PlanFor(t, files, rows, source);
    assert forall p :: p in Affected(plan) ==> p in files.Keys + rows.Keys;
  }

  class Consumer {
    var tree: Tree
    /** How lock text that sync did not write is read. */
    const foreign: Bytestring -> Option<Rows>

    constructor (tree: Tree, foreign: Bytestring -> Option<Rows>)
      ensures this.tree == tree && this.foreign == foreign
    {
      this.tree := tree;
      this.foreign := foreign;
    }

    method CheckPaths(paths: set<Path>) returns (r: Option<Path>)
      ensures r.None? ==> forall p :: p in paths ==> PathOk(tree, p)
      ensures r.Some? ==> r.value in paths && !PathOk(tree, r.value)
    {
      hide PathOk;
      var todo := paths;
      while todo != {}
        invariant todo <= paths && forall p :: p in paths - todo ==> PathOk(tree, p)
      {
        var p :| p in todo;
        if !PathOk(tree, p) {
          return Some(p);
        }
        todo := todo - {p};
      }
      return None;
    }

    /** Which of the kit's files are absent, and which differ but are as the lock says. */
    method CompareFiles(files: Files, rows: Rows) returns (r: Result<(set<Path>, set<Path>), SyncError>)
      ensures r.Ok? <==> forall p :: p in files ==> MayTake(tree, files, rows, p)
      ensures r.Ok? ==> r.value.0 == (set p | p in files && SeenAt(tree, p).Missing?)
      ensures r.Ok? ==>
                r.value.1 == (set p | p in files && !SeenAt(tree, p).Missing? && SeenAt(tree, p) != Expected(files[p]))
      ensures r.Err? ==> Justified(r.error, tree, files, rows)
    {
      hide PathOk, SeenAt, RowMatches;
      var added, changed, todo: set<Path> := {}, {}, files.Keys;
      while todo != {}
        invariant todo <= files.Keys
        invariant forall p :: p in files.Keys - todo ==> MayTake(tree, files, rows, p)
        invariant forall p :: p in added <==> p in files.Keys - todo && SeenAt(tree, p).Missing?
        invariant forall p :: p in changed <==>
                    p in files.Keys - todo && !SeenAt(tree, p).Missing? && SeenAt(tree, p) != Expected(files[p])
      {
        var p :| p in todo;
        var actual := SeenAt(tree, p);
        if actual.Missing? {
          added := added + {p};
        } else if actual != Expected(files[p]) {
          if p !in rows {
            return Err(UnmanagedConflict(p));
          }
          if !RowMatches(rows[p], actual) {
            return Err(ManagedChanged(p));
          }
          changed := changed + {p};
        }
        todo := todo - {p};
      }
      return Ok((added, changed));
    }

    method CheckRemoved(removed: set<Path>, rows: Rows) returns (r: Option<Path>)
      requires removed <= rows.Keys
      ensures r.None? ==> forall p :: p in removed ==> MayDrop(tree, rows, p)
      ensures r.Some? ==> r.value in removed && !MayDrop(tree, rows, r.value)
    {
      hide SeenAt, RowMatches;
      var todo := removed;
      while todo != {}
        invariant todo <= removed && forall p :: p in removed - todo ==> MayDrop(tree, rows, p)
      {
        var p :| p in todo;
        var actual := SeenAt(tree, p);
        if !actual.Missing? && !RowMatches(rows[p], actual) {
          return Some(p);
        }
        todo := todo - {p};
      }
      return None;
    }

    /** Planning changes nothing, and is accepted exactly when every path may be taken or dropped. */
    method BuildPlan(files: Files, source: string) returns (r: Result<Plan, SyncError>)
      requires PrefixFree(files)
      ensures match LoadLock(tree, foreign)
              case Err(e) => r == Err(e)
              case Ok(rows) =>
                && (r.Ok? <==> Acceptable(tree, files, rows))
                && (r.Ok? ==> r.value == PlanFor(tree, files, rows, source))
                && (r.Err? ==> Justified(r.error, tree, files, rows))
    {
      hide PathOk, MayTake, MayDrop, SeenAt, Expected, PrefixFree;
      var previous := LoadLock(tree, foreign);
      if previous.Err? {
        return Err(previous.error);
      }
      var rows := previous.value;
      var refused := CheckPaths(files.Keys + rows.Keys);
      if refused.Some? {
        return Err(PathRefused(refused.value));
      }
      var compared := CompareFiles(files, rows);
      if compared.Err? {
        return Err(compared.error);
      }
      var removed := rows.Keys - files.Keys;
      var edited := CheckRemoved(removed, rows);
      if edited.Some? {
        return Err(ManagedChanged(edited.value));
      }
      var (added, changed) := compared.value;
      return Ok(Plan(source, files, added, changed, removed,
                     (map p | p in files.Keys + rows.Keys :: SeenAt(tree, p))));
    }

    /** Deletions, then writes; a crash may fall before any of them. */
    method CopyC1(plan: Plan, budget: nat) returns (r: Result<(), SyncError>)
      requires WellFormed(plan)
      modifies this`tree
      ensures !Ready(old(tree), plan) ==> tree == old(tree)
      ensures tree == old(tree) || Between(old(tree), plan, tree)
      ensures r.Ok? ==> tree == Applied(old(tree), plan)
      ensures r.Ok? <==> Ready(old(tree), plan) && |Affected(plan)| <= budget && Clear(old(tree), plan)
    {
      hide PathOk, Applied, Cleared, Written, Affected, WellFormed, DealtWith, Between, SeenAt, Clear;
      var refused := set p | p in Affected(plan) && !PathOk(tree, p);
      if refused != {} {
        var p :| p in refused;
        return Err(PathRefused(p));
      }
      SeenKeys(plan);
      if (set p | p in Affected(plan) && SeenAt(tree, p) != plan.seen[p]) != {} {
        return Err(ConsumerMoved);
      }
      ghost var before := tree;
      RemovedFirst(plan);
      var deleted := DeleteFiles(plan, budget);
      if deleted.Err? {
        return Err(deleted.error);
      }
      r := WriteFiles(plan, deleted.value, before);
    }

    method DeleteFiles(plan: Plan, budget: nat) returns (r: Result<nat, SyncError>)
      requires WellFormed(plan) && Ready(tree, plan)
      modifies this`tree
      ensures Between(old(tree), plan, tree)
      ensures r.Ok? <==> |plan.removed| <= budget
      ensures r.Ok? ==> tree == Cleared(old(tree), plan) && r.value == budget - |plan.removed|
    {
      hide DealtWith, WellFormed, Ready, PathOk, Cleared, Between;
      ghost var before := tree;
      var remaining: nat := budget;
      var todo := plan.removed;
      NothingDealtWith(tree, Cleared(tree, plan));
      assert plan.removed - todo == {};
      while todo != {}
        invariant todo <= plan.removed && DealtWith(before, Cleared(before, plan), plan.removed - todo, tree)
        invariant remaining + |plan.removed| == budget + |todo|
      {
        var p :| p in todo;
        DeletingIsBetween(before, plan, plan.removed - todo, tree);
        if !PathOk(tree, p) {
          BetweenStaysOk(before, plan, tree, p);
          assert false;
        }
        if remaining == 0 {
          return Err(Interrupted);
        }
        DeletedNow(before, plan, plan.removed - todo, tree, p);
        assert plan.removed - (todo - {p}) == plan.removed - todo + {p};
        if p in tree && (tree[p].File? || tree[p].Symlink?) {
          tree := tree - {p};
        }
        remaining, todo := remaining - 1, todo - {p};
      }
      assert plan.removed - todo == plan.removed;
      DeletingIsBetween(before, plan, plan.removed, tree);
      AllDeleted(before, plan, tree);
      return Ok(remaining);
    }

    method WriteFiles(plan: Plan, budget: nat, ghost before: Tree) returns (r: Result<(), SyncError>)
      requires WellFormed(plan) && Ready(before, plan) && tree == Cleared(before, plan)
      modifies this`tree
      ensures Between(before, plan, tree)
      ensures r.Ok? ==> tree == Applied(before, plan)
      ensures r.Ok? <==> |Written(plan)| <= budget && Clear(before, plan)
    {
      hide DealtWith, WellFormed, Ready, PathOk, Written, Affected, Applied, Cleared, Between, Made, Parents,
           Deletes, Clear;
      var remaining: nat := budget;
      var todo := Written(plan);
      NothingDealtWith(tree, Applied(before, plan));
      NoParents();
      assert Written(plan) - todo == {} && Written(plan) - todo + Parents(Written(plan) - todo) == {};
      while todo != {}
        invariant todo <= Written(plan)
        invariant DealtWith(Cleared(before, plan), Applied(before, plan),
                            Written(plan) - todo + Parents(Written(plan) - todo), tree)
        invariant remaining + |Written(plan)| == budget + |todo|
        invariant forall p :: p in Written(plan) - todo ==> FreeFor(before, plan, p)
      {
        var p :| p in todo;
        ghost var written := Written(plan) - todo;
        InTheWay(before, plan, written, tree, p);
        WritingIsBetween(before, plan, written, tree);
        if !PathOk(tree, p) {
          WrittenAffected(plan, p);
          BetweenStaysOk(before, plan, tree, p);
          assert false;
        }
        if Look(tree, p) == Some(Directory) || Look(tree, p) == Some(Special) {
          NotClear(before, plan, p);
          return Err(ReplacesNonFile(p));
        }
        var blocked := set a | a in Parents({p}) && Look(tree, a) != None && Look(tree, a) != Some(Directory);
        if blocked != {} {
          var a :| a in blocked;
          NotClear(before, plan, p);
          return Err(ParentNotDirectory(a));
        }
        assert forall a :: a in Parents({p}) ==> a !in blocked;
        if remaining == 0 {
          return Err(Interrupted);
        }
        WrittenNow(before, plan, written, tree, p);
        assert Written(plan) - (todo - {p}) == written + {p};
        tree := Made(tree, Parents({p}))[p := NodeOf(plan.files[p])];
        remaining, todo := remaining - 1, todo - {p};
      }
      assert Written(plan) - todo == Written(plan);
      WritingIsBetween(before, plan, Written(plan), tree);
      AllWritten(before, plan, tree);
      AllFree(before, plan);
      return Ok(());
    }

    /** No lock is recorded unless every managed file is still the kit's. */
    method VerifyC1(files: Files) returns (r: Result<(), SyncError>)
      ensures r.Ok? <==> Verified(tree, files)
      ensures r.Err? && r.error.ChangedByCommands? ==>
                r.error.path in files && SeenAt(tree, r.error.path) != Expected(files[r.error.path])
    {
      hide PathOk;
      var refused := CheckPaths(files.Keys);
      if refused.Some? {
        return Err(PathRefused(refused.value));
      }
      var todo := files.Keys;
      while todo != {}
        invariant todo <= files.Keys && forall p :: p in files.Keys - todo ==> SeenAt(tree, p) == Expected(files[p])
      {
        var p :| p in todo;
        if SeenAt(tree, p) != Expected(files[p]) {
          return Err(ChangedByCommands(p));
        }
        todo := todo - {p};
      }
      return Ok(());
    }

    /** The lock file is replaced whole, whatever it is; only a directory of that name cannot be replaced. */
    method WriteLock(files: Files, source: string) returns (r: Result<(), SyncError>)
      modifies this`tree
      ensures r.Ok? <==> Look(old(tree), LOCK_NAME) != Some(Directory)
      ensures tree == if r.Ok? then Locked(old(tree), files, source) else old(tree)
      ensures r.Ok? ==> Records(tree, files, source)
    {
      LockedRecords(tree, files, source, "");
      if Look(tree, LOCK_NAME) == Some(Directory) {
        return Err(LockNotWritten);
      }
      tree := tree[LOCK_NAME := File(LockText(LockFor(files, source)), Plain)];
      return Ok(());
    }

    /** A whole sync: plan, copy, the consumer's own commands, verification, lock. */
    method Sync(files: Files, source: string, budget: nat, commands: Tree -> Tree) returns (r: Result<(), SyncError>)
      requires PrefixFree(files)
      modifies this`tree
      ensures r.Ok? <==> Succeeds(old(tree), foreign, files, source, budget, commands)
      ensures r.Ok? ==>
                var plan := PlanFor(old(tree), files, LoadLock(old(tree), foreign).value, source);
                tree == Locked(commands(Applied(old(tree), plan)), files, source)
      ensures r.Ok? ==> Records(tree, files, source)
      ensures r.Err? ==>
                var rows := LoadLock(old(tree), foreign);
                || tree == old(tree)
                || (rows.Ok? && Acceptable(old(tree), files, rows.value) &&
                    var plan := PlanFor(old(tree), files, rows.value, source);
                    Between(old(tree), plan, tree) || tree == commands(Applied(old(tree), plan)))
    {
      hide Acceptable, PlanFor, Applied, PathOk, SeenAt, Expected, LoadLock, Locked, Between, PrefixFree, WellFormed,
           Ready, Affected, Clear;
      var plan := BuildPlan(files, source);
      if plan.Err? {
        return Err(plan.error);
      }
      AcceptableIsReady(tree, files, LoadLock(tree, foreign).value, source);
      r := CopyC1(plan.value, budget);
      if r.Err? {
        return;
      }
      tree := commands(tree);
      r := VerifyC1(files);
      if r.Err? {
        return;
      }
      r := WriteLock(files, source);
    }
  }

  // ----- what one sync does -----------------------------------------------------------------

  /** Rows as sync writes them carry both fields. */
  predicate FullRows(rows: Rows) {
    forall p :: p in rows ==> rows[p].Row? && rows[p].sha.Some? && rows[p].mode.Some?
  }

  /** The plan's directories: those of the files it writes. */
  function Dirs(t: Tree, files: Files, rows: Rows): set<Path> { Parents(Written(PlanFor(t, files, rows, ""))) }

  /** Path by path, the tree after the plan. */
  lemma AfterApply(t: Tree, files: Files, rows: Rows, source: string, p: Path)
    requires PrefixFree(files)
    ensures var kept := if p in rows && p in t && (t[p].File? || t[p].Symlink?) then None else Look(t, p);
            Look(Applied(t, PlanFor(t, files, rows, source)), p) ==
            if p in files then Some(NodeOf(files[p]))
            else if kept.None? && p in Dirs(t, files, rows) then Some(Directory)
            else kept
    ensures Look(Cleared(t, PlanFor(t, files, rows, source)), p) ==
            if p !in files && p in rows && p in t && (t[p].File? || t[p].Symlink?) then None else Look(t, p)
    ensures p in Dirs(t, files, rows) ==> p in Parents(files.Keys)
  {
    hide Applied, Cleared, Parents;
    var plan := PlanFor(t, files, rows, source);
    LookCleared(t, plan, p);
    LookApplied(t, plan, p);
    ParentsOfSome(Written(plan), files.Keys);
    if p in files { UsePrefixFree(files, p); }
  }

  lemma UsePrefixFree(files: Files, p: Path)
    requires PrefixFree(files) && p in files
    ensures p !in Parents(files.Keys)
  {
    hide Parents;
  }

  /**
   Whatever a sync changes was either absent, and is now the kit's or a directory of the kit's, or was exactly as
   the previous lock recorded: with full rows, a regular file of the recorded contents and mode.
   */
  lemma NoEditLost(t: Tree, files: Files, rows: Rows, source: string, p: Path)
    requires PrefixFree(files) && Acceptable(t, files, rows)
    requires Look(Applied(t, PlanFor(t, files, rows, source)), p) != Look(t, p)
    ensures (p !in t && (p in files || p in Parents(files.Keys))) || (p in rows && p in t && RowMatches(rows[p], SeenAt(t, p)))
    ensures FullRows(rows) && p in t ==> p in rows && t[p] == File(rows[p].sha.value.of, rows[p].mode.value)
  {
    hide PathOk, Applied, PlanFor, Dirs, Parents, PrefixFree;
    AfterApply(t, files, rows, source, p);
  }

  /** Nothing is written, deleted or made at a link or a nested repository, or anywhere beneath one. */
  lemma NothingBeneathAFence(t: Tree, files: Files, rows: Rows, source: string, q: Path, p: Path)
    requires PrefixFree(files) && Acceptable(t, files, rows)
    requires Fenced(t, q) && (p == q || Above(q, p))
    ensures Look(Applied(t, PlanFor(t, files, rows, source)), p) == Look(t, p)
    ensures forall u :: Between(t, PlanFor(t, files, rows, source), u) ==> Look(u, p) == Look(t, p)
  {
    hide Safe, Applied, Cleared, PlanFor, MayTake, MayDrop, PrefixFree, Dirs, Between;
    if w :| w in files.Keys + rows.Keys && (w == p || Above(p, w)) {
      FenceRefuses(t, q, w);
      assert false;
    }
    AfterApply(t, files, rows, source, p);
    forall u | Between(t, PlanFor(t, files, rows, source), u)
      ensures Look(u, p) == Look(t, p)
    {
      BetweenAt(t, PlanFor(t, files, rows, source), u, p);
    }
  }

  lemma BetweenAt(t: Tree, plan: Plan, u: Tree, p: Path)
    requires WellFormed(plan) && Between(t, plan, u)
    ensures Look(u, p) == Look(t, p) || Look(u, p) == Look(Cleared(t, plan), p) || Look(u, p) == Look(Applied(t, plan), p)
  {
    hide Applied, Cleared, WellFormed;
  }

  /** Whatever changes lies inside the consumer's own tree: no part of its path climbs, hides or names a repository. */
  lemma OnlySafePathsChange(t: Tree, files: Files, rows: Rows, source: string, p: Path)
    requires PrefixFree(files) && Acceptable(t, files, rows)
    requires Look(Applied(t, PlanFor(t, files, rows, source)), p) != Look(t, p)
    ensures '\\' !in p && !HasPart(p, "") && !HasPart(p, ".") && !HasPart(p, "..") && !HasPart(p, ".git")
  {
    hide Applied, Cleared, PlanFor, MayTake, MayDrop, PrefixFree, Crosses, Dirs;
    AfterApply(t, files, rows, source, p);
    if w :| w in files && Above(p, w) {
      assert PathOk(t, w);
      SafeAbove(p, w);
    }
    assert p in files.Keys + rows.Keys ==> PathOk(t, p);
    SafeIff(p);
  }

  // ----- starting again ---------------------------------------------------------------------

  /** A path the lock manages and the kit drops has become a directory, and its row does not allow that. */
  predicate DirectoryOfRow(u: Tree, files: Files, rows: Rows, p: Path) {
    p in rows && p !in files && Look(u, p) == Some(Directory) && !RowMatches(rows[p], SeenOther)
  }

  /** From where an interruption left the tree, the same revision is accepted exactly when no dropped file has become a directory. */
  lemma RestartIff(t: Tree, files: Files, rows: Rows, source: string, u: Tree)
    requires PrefixFree(files) && Acceptable(t, files, rows) && Between(t, PlanFor(t, files, rows, source), u)
    ensures Acceptable(u, files, rows) <==> forall p :: p in rows ==> !DirectoryOfRow(u, files, rows, p)
  {
    hide PathOk, Applied, Cleared, PlanFor, Dirs, Parents, PrefixFree;
    forall p
      ensures p in files ==> MayTake(u, files, rows, p)
      ensures p in rows && p !in files ==> (MayDrop(u, rows, p) <==> !DirectoryOfRow(u, files, rows, p))
    {
      AfterApply(t, files, rows, source, p);
    }
    forall p | p in files.Keys + rows.Keys
      ensures PathOk(u, p)
    {
      BetweenKeepsPaths(t, files, rows, source, u, p);
    }
  }

  lemma BetweenKeepsPaths(t: Tree, files: Files, rows: Rows, source: string, u: Tree, p: Path)
    requires PrefixFree(files) && Acceptable(t, files, rows) && Between(t, PlanFor(t, files, rows, source), u) && PathOk(t, p)
    ensures PathOk(u, p)
  {
    hide Applied, Cleared, MayTake, MayDrop, Crosses;
    assert forall q :: q in files ==> q in files.Keys + rows.Keys;
    StillOk(t, PlanFor(t, files, rows, source), u, p);
  }

  /** And if it is accepted, it ends in the same tree. */
  lemma RestartEnds(t: Tree, files: Files, rows: Rows, source: string, u: Tree)
    requires PrefixFree(files) && Acceptable(t, files, rows) && Between(t, PlanFor(t, files, rows, source), u)
    requires Acceptable(u, files, rows)
    ensures Applied(u, PlanFor(u, files, rows, source)) == Applied(t, PlanFor(t, files, rows, source))
  {
    hide PathOk, Applied, Cleared, PlanFor, Dirs, Parents, PrefixFree, Acceptable, Between;
    forall p
      ensures Look(Applied(u, PlanFor(u, files, rows, source)), p) == Look(Applied(t, PlanFor(t, files, rows, source)), p)
    {
      SameEnd(t, files, rows, source, u, p);
    }
    SameTree(Applied(u, PlanFor(u, files, rows, source)), Applied(t, PlanFor(t, files, rows, source)));
  }

  /** A directory the plan makes is either there already, or still to be made. */
  lemma StillADirectory(t: Tree, files: Files, rows: Rows, source: string, u: Tree, p: Path)
    requires PrefixFree(files) && Between(t, PlanFor(t, files, rows, source), u) && p in Dirs(t, files, rows)
    ensures Look(u, p) == Look(Applied(t, PlanFor(t, files, rows, source)), p) || p in Dirs(u, files, rows)
  {
    hide PathOk, Applied, Cleared, PrefixFree;
    var plan := PlanFor(t, files, rows, source);
    var w :| w in Written(plan) && Above(p, w);
    if Look(u, w) != Some(NodeOf(files[w])) {
      assert w in Written(PlanFor(u, files, rows, ""));
    }
  }

  lemma FewerWritten(t: Tree, files: Files, rows: Rows, source: string, u: Tree)
    requires PrefixFree(files) && Between(t, PlanFor(t, files, rows, source), u)
    ensures Dirs(u, files, rows) <= Dirs(t, files, rows)
  {
    hide PathOk, Applied, Cleared, Parents, PrefixFree;
    forall p | p in Written(PlanFor(u, files, rows, ""))
      ensures p in Written(PlanFor(t, files, rows, ""))
    {
      AfterApply(t, files, rows, source, p);
    }
    ParentsOfSome(Written(PlanFor(u, files, rows, "")), Written(PlanFor(t, files, rows, "")));
  }

  lemma SameEnd(t: Tree, files: Files, rows: Rows, source: string, u: Tree, p: Path)
    requires PrefixFree(files) && Acceptable(t, files, rows) && Between(t, PlanFor(t, files, rows, source), u)
    requires Acceptable(u, files, rows)
    ensures Look(Applied(u, PlanFor(u, files, rows, source)), p) == Look(Applied(t, PlanFor(t, files, rows, source)), p)
  {
    hide PathOk, Applied, Cleared, PlanFor, Dirs, Parents, PrefixFree;
    AfterApply(t, files, rows, source, p);
    AfterApply(u, files, rows, source, p);
    FewerWritten(t, files, rows, source, u);
    if p in Dirs(t, files, rows) { StillADirectory(t, files, rows, source, u, p); }
    assert p in rows && p !in files ==> MayDrop(u, rows, p) && MayDrop(t, rows, p);
  }

  /** No file that the lock manages has to make way for a directory: what a caller can check beforehand. */
  predicate NoFileBecomesDirectory(t: Tree, files: Files, rows: Rows) {
    forall p :: p in rows.Keys - files.Keys && p in Dirs(t, files, rows) && Look(t, p) != Some(Special) ==>
      RowMatches(rows[p], SeenOther)
  }

  /**
   Sync is restartable wherever it is interrupted if no managed file must become a directory. Where nothing stands in
   the copy's way it is so only then: the copy can be carried out in full, and the tree it leaves before the lock is
   written is one that the same revision refuses.
   */
  lemma RestartableIff(t: Tree, files: Files, rows: Rows, source: string)
    requires PrefixFree(files) && Acceptable(t, files, rows)
    ensures NoFileBecomesDirectory(t, files, rows) ==>
              forall u :: Between(t, PlanFor(t, files, rows, source), u) ==> Acceptable(u, files, rows)
    ensures var plan := PlanFor(t, files, rows, source);
            Clear(t, plan) ==>
              (NoFileBecomesDirectory(t, files, rows) <==> Acceptable(Applied(t, plan), files, rows))
  {
    hide PathOk, Applied, Cleared, PlanFor, Dirs, Parents, PrefixFree, Acceptable, Between, Clear;
    var plan := PlanFor(t, files, rows, source);
    EndIsBetween(t, plan);
    RestartIff(t, files, rows, source, Applied(t, plan));
    if NoFileBecomesDirectory(t, files, rows) {
      forall u | Between(t, plan, u)
        ensures Acceptable(u, files, rows)
      {
        RestartIff(t, files, rows, source, u);
        forall p | p in rows
          ensures !DirectoryOfRow(u, files, rows, p)
        {
          NewDirectory(t, files, rows, source, u, p);
        }
      }
    } else {
      var p :| p in rows.Keys - files.Keys && p in Dirs(t, files, rows) && Look(t, p) != Some(Special)
               && !RowMatches(rows[p], SeenOther);
      AfterApply(t, files, rows, source, p);
      DroppedAllowed(t, files, rows, p);
      assert DirectoryOfRow(Applied(t, plan), files, rows, p);
    }
  }

  /** The copy does leave that tree: it is ready and clear, so with steps enough it is carried out in full. */
  method CopyThenPlanAgain(t: Tree, files: Files, rows: Rows, source: string, foreign: Bytestring -> Option<Rows>)
    returns (accepted: bool)
    requires PrefixFree(files) && SparesLock(files) && LOCK_NAME !in rows && LoadLock(t, foreign) == Ok(rows)
    requires Acceptable(t, files, rows) && Clear(t, PlanFor(t, files, rows, source))
    ensures accepted <==> NoFileBecomesDirectory(t, files, rows)
  {
    hide Acceptable, PlanFor, Applied, Between, LoadLock, Clear, Ready, SparesLock, NoFileBecomesDirectory, WellFormed;
    AcceptableIsReady(t, files, rows, source);
    RestartableIff(t, files, rows, source);
    var consumer := new Consumer(t, foreign);
    var first := consumer.BuildPlan(files, source);
    var copied := consumer.CopyC1(first.value, |Affected(first.value)|);
    EndIsBetween(t, first.value);
    LockSurvives(t, files, rows, source, consumer.tree, foreign);
    var again := consumer.BuildPlan(files, source);
    return again.Ok?;
  }

  lemma EndIsBetween(t: Tree, plan: Plan)
    requires WellFormed(plan)
    ensures Between(t, plan, Applied(t, plan))
  {
    hide Applied, Cleared, WellFormed;
  }

  lemma DroppedAllowed(t: Tree, files: Files, rows: Rows, p: Path)
    requires Acceptable(t, files, rows) && p in rows && p !in files
    ensures MayDrop(t, rows, p)
  {
    hide PathOk, MayDrop, MayTake;
  }

  lemma NewDirectory(t: Tree, files: Files, rows: Rows, source: string, u: Tree, p: Path)
    requires PrefixFree(files) && Acceptable(t, files, rows) && Between(t, PlanFor(t, files, rows, source), u)
    requires NoFileBecomesDirectory(t, files, rows)
    ensures !DirectoryOfRow(u, files, rows, p)
  {
    hide PathOk, Applied, Cleared, PlanFor, Dirs, Parents, PrefixFree;
    AfterApply(t, files, rows, source, p);
    if p in rows && p !in files {
      assert p in rows.Keys - files.Keys;
      assert MayDrop(t, rows, p);
    }
  }

  /** A managed file that makes way for a directory: planned without objection, and then not restartable. */
  lemma FileMakesWay(a: Path, was: KitFile, p: Path, now: KitFile)
    requires Safe(p) && Above(a, p)
    ensures var t, rows, files := map[a := NodeOf(was)], LockFor(map[a := was], "").rows, map[p := now];
            PrefixFree(files) && Acceptable(t, files, rows) && !NoFileBecomesDirectory(t, files, rows)
  {
    hide Safe;
    var t, rows := map[a := NodeOf(was)], LockFor(map[a := was], "").rows;
    var files: Files := map[p := now];
    assert files.Keys == {p} && rows.Keys == {a};
    SafeAbove(a, p);
    forall q | Safe(q)
      ensures PathOk(t, q)
    {
      forall i | 0 < i <= |q|
        ensures !CrossesAt(t, q, i)
      {
        if a == q[..i] + "/.git" { SafeIsNoRepository(a, q[..i]); }
      }
    }
    assert p in Written(PlanFor(t, files, rows, ""));
    assert a in Dirs(t, files, rows) && a in rows.Keys - files.Keys;
  }

  /** The lock is neither one of the paths nor a directory of one. */
  predicate SparesLock(files: Files) { LOCK_NAME !in files && LOCK_NAME !in Parents(files.Keys) }

  /** While the lock itself is not among the paths, an interruption leaves it as it was. */
  lemma LockSurvives(t: Tree, files: Files, rows: Rows, source: string, u: Tree, foreign: Bytestring -> Option<Rows>)
    requires PrefixFree(files) && SparesLock(files) && LOCK_NAME !in rows && Between(t, PlanFor(t, files, rows, source), u)
    ensures LoadLock(u, foreign) == LoadLock(t, foreign)
  {
    hide PathOk, Applied, Cleared, PlanFor, Dirs, Parents, PrefixFree;
    AfterApply(t, files, rows, source, LOCK_NAME);
  }

  // ----- another revision after an interruption ---------------------------------------------

  /** What an interrupted sync put at a path is what another revision has there, or what the lock says. */
  predicate Agrees(files: Files, other: Files, rows: Rows, p: Path) {
    if p in files then
      (p in other && NodeOf(other[p]) == NodeOf(files[p])) || (p in rows && RowMatches(rows[p], Expected(files[p])))
    else p in rows && RowMatches(rows[p], SeenOther)
  }

  /** A path of another revision, or of the lock, after an interrupted sync: untouched, deleted, or put there. */
  predicate Suits(t: Tree, files: Files, other: Files, rows: Rows, u: Tree, p: Path)
    requires p in other || p in rows
  {
    if Look(u, p) == Look(t, p) then (if p in other then MayTake(t, other, rows, p) else MayDrop(t, rows, p))
    else Look(u, p) == None || Agrees(files, other, rows, p)
  }

  /**
   After an interruption another revision is accepted exactly when its paths are not refused, each path the
   interrupted sync did not touch suits it as before, and at each path that sync wrote the two agree or the
   lock already says what is there.
   */
  lemma OtherRevisionIff(t: Tree, files: Files, other: Files, rows: Rows, source: string, u: Tree)
    requires PrefixFree(files) && Acceptable(t, files, rows) && Between(t, PlanFor(t, files, rows, source), u)
    ensures Acceptable(u, other, rows) <==>
            (forall p :: p in other.Keys + rows.Keys ==> PathOk(u, p) && Suits(t, files, other, rows, u, p))
  {
    hide PathOk, Applied, Cleared, PlanFor, Dirs, Parents, PrefixFree;
    forall p | p in other.Keys + rows.Keys
      ensures Suits(t, files, other, rows, u, p) <==> if p in other then MayTake(u, other, rows, p) else MayDrop(u, rows, p)
    {
      AfterApply(t, files, rows, source, p);
      SeenByLook(t, u, p);
    }
    if forall p :: p in other.Keys + rows.Keys ==> PathOk(u, p) && Suits(t, files, other, rows, u, p) {
      assert forall p :: p in other ==> p in other.Keys + rows.Keys;
      assert forall p :: p in rows ==> p in other.Keys + rows.Keys;
    }
  }

  lemma SeenByLook(t: Tree, u: Tree, p: Path)
    ensures Look(u, p) == Look(t, p) ==> SeenAt(u, p) == SeenAt(t, p)
  {
  }

  /** A first sync that was interrupted once a file was there: a revision with another file at that path is refused. */
  lemma AddedThenRefused(p: Path, mine: KitFile, theirs: KitFile, source: string)
    requires Safe(p) && mine != theirs
    ensures var files, u := map[p := mine], map[p := NodeOf(mine)] + Made(map[], Parents({p}));
            && PrefixFree(files) && Acceptable(map[], files, map[]) && Between(map[], PlanFor(map[], files, map[], source), u)
            && Acceptable(u, files, map[]) && !Acceptable(u, map[p := theirs], map[])
  {
    hide Safe, Parents, Made, Applied, Cleared, Between;
    var files: Files := map[p := mine];
    FirstSync(p, mine, source);
    var u := map[p := NodeOf(mine)] + Made(map[], Parents({p}));
    EndIsBetween(map[], PlanFor(map[], files, map[], source));
    RestartIff(map[], files, map[], source, u);
    assert SeenAt(u, p) == Expected(mine);
    assert !MayTake(u, map[p := theirs], map[], p);
  }

  /** A first sync of one file, into an empty tree. */
  lemma FirstSync(p: Path, mine: KitFile, source: string)
    requires Safe(p)
    ensures var files, u := map[p := mine], map[p := NodeOf(mine)] + Made(map[], Parents({p}));
            PrefixFree(files) && Acceptable(map[], files, map[]) && Applied(map[], PlanFor(map[], files, map[], source)) == u
  {
    hide Safe, Parents, Applied, Crosses;
    var files: Files := map[p := mine];
    assert files.Keys == {p};
    NotItsOwnParent(p);
    assert PathOk(map[], p) by { NothingCrosses(p); }
    OneFileApplied(p, mine, PlanFor(map[], files, map[], source));
  }

  lemma NothingCrosses(p: Path)
    ensures !Crosses(map[], p)
  {
  }

  lemma OneFileApplied(p: Path, mine: KitFile, plan: Plan)
    requires plan.files == map[p := mine] && Written(plan) == {p} && WellFormed(plan)
    ensures Applied(map[], plan) == map[p := NodeOf(mine)] + Made(map[], Parents({p}))
  {
    hide Applied, Cleared, Made, Parents, WellFormed;
    var u := map[p := NodeOf(mine)] + Made(map[], Parents({p}));
    NotItsOwnParent(p);
    forall q
      ensures Look(Applied(map[], plan), q) == Look(u, q)
    {
      LookApplied(map[], plan, q);
      LookCleared(map[], plan, q);
      LookMade(map[], Parents({p}), q);
      assert q in u <==> q == p || q in Made(map[], Parents({p}));
    }
    SameTree(Applied(map[], plan), u);
  }

  lemma NotItsOwnParent(p: Path)
    ensures p !in Parents({p})
  {
  }

  // ----- the next sync ----------------------------------------------------------------------

  lemma {:induction false} NoSplit(c: char, s: string)
    requires c !in s
    ensures RunBefore(c, s) == |s|
  {
    if s != [] {
      NoSplit(c, s[1..]);
    }
  }

  lemma LockNameSafe()
    ensures Safe(LOCK_NAME)
  {
    hide RunBefore;
    NoSplit('/', LOCK_NAME);
    assert Split('/', LOCK_NAME) == [LOCK_NAME];
  }

  lemma LockKeepsPaths(t: Tree, files: Files, source: string, p: Path)
    requires PathOk(t, p)
    ensures PathOk(Locked(t, files, source), p)
  {
    hide Safe, Crosses;
    LockNameSafe();
    PathStaysOk(t, Locked(t, files, source), p);
  }

  lemma LoadsOwnLock(t: Tree, files: Files, source: string, foreign: Bytestring -> Option<Rows>)
    ensures LoadLock(Locked(t, files, source), foreign) == Ok(LockFor(files, source).rows)
    ensures FullRows(LockFor(files, source).rows) && LockFor(files, source).rows.Keys == files.Keys
  {
  }

  /** Planning over the tree as it is, lock included, finds nothing to do. */
  ghost predicate Idle(u: Tree, files: Files, source: string, foreign: Bytestring -> Option<Rows>) {
    var rows := LoadLock(u, foreign);
    rows.Ok? && Acceptable(u, files, rows.value) &&
    var plan := PlanFor(u, files, rows.value, source);
    plan.added == {} && plan.changed == {} && plan.removed == {}
  }

  /** Planning over the tree as it is, lock included, accepts the revision. */
  ghost predicate Takes(u: Tree, files: Files, foreign: Bytestring -> Option<Rows>) {
    var rows := LoadLock(u, foreign);
    rows.Ok? && Acceptable(u, files, rows.value)
  }

  /**
   Right after a sync, another with the same revision plans no addition, change or removal, exactly
   when the kit does not itself select the lock file.
   */
  lemma SecondSyncIdle(t: Tree, files: Files, source: string, foreign: Bytestring -> Option<Rows>)
    requires Verified(t, files)
    ensures Idle(Locked(t, files, source), files, source, foreign) <==> LOCK_NAME !in files
  {
    hide PathOk, SeenAt, Expected, RowMatches, LockFor, Locked, LoadLock;
    LoadsOwnLock(t, files, source, foreign);
    if LOCK_NAME in files {
      SelectingTheLockWedges(t, files, source, files, foreign);
    } else {
      forall p | p in files
        ensures PathOk(Locked(t, files, source), p) && SeenAt(Locked(t, files, source), p) == Expected(files[p])
        ensures Expected(files[p]).SeenFile?
      {
        StillTheKits(t, files, source, p);
      }
    }
  }

  lemma StillTheKits(t: Tree, files: Files, source: string, p: Path)
    requires Verified(t, files) && p in files && p != LOCK_NAME
    ensures PathOk(Locked(t, files, source), p) && SeenAt(Locked(t, files, source), p) == Expected(files[p])
    ensures Expected(files[p]).SeenFile?
  {
    hide PathOk;
    LockKeepsPaths(t, files, source, p);
  }

  /** A kit that selects the lock file leaves a consumer that refuses every later sync, of any revision. */
  lemma SelectingTheLockWedges(t: Tree, files: Files, source: string, next: Files, foreign: Bytestring -> Option<Rows>)
    requires LOCK_NAME in files
    ensures !Takes(Locked(t, files, source), next, foreign)
  {
    hide PathOk;
    var rows, u := LockFor(files, source).rows, Locked(t, files, source);
    var lock := LockText(LockFor(files, source));
    LoadsOwnLock(t, files, source, foreign);
    assert SeenAt(u, LOCK_NAME) == SeenFile(Sha(lock), Plain);
    assert !RowMatches(rows[LOCK_NAME], SeenAt(u, LOCK_NAME));
    if LOCK_NAME in next {
      assert !MayTake(u, next, rows, LOCK_NAME);
    } else {
      assert !MayDrop(u, rows, LOCK_NAME);
    }
  }

  /**
   After a sync, any next revision is accepted exactly when its own new paths are safe and either absent from
   the tree or already the same: managed files never stand in the way, but directories they left may.
   */
  lemma NextSyncAccepted(t: Tree, files: Files, source: string, next: Files, foreign: Bytestring -> Option<Rows>)
    requires Verified(t, files) && LOCK_NAME !in files
    ensures var u := Locked(t, files, source);
            Takes(u, next, foreign) <==>
            (forall p :: p in next && p !in files ==>
               PathOk(u, p) && (SeenAt(u, p).Missing? || SeenAt(u, p) == Expected(next[p])))
  {
    hide PathOk, MayTake, MayDrop, SeenAt, Expected, RowMatches;
    var rows, u := LockFor(files, source).rows, Locked(t, files, source);
    LoadsOwnLock(t, files, source, foreign);
    forall p
      ensures p in files ==> PathOk(u, p)
      ensures p in next && p in files ==> MayTake(u, next, rows, p)
      ensures p in rows && p !in next ==> MayDrop(u, rows, p)
    {
      ManagedSuits(t, files, source, next, p);
    }
    forall p | p in next && p !in files
      ensures MayTake(u, next, rows, p) <==> SeenAt(u, p).Missing? || SeenAt(u, p) == Expected(next[p])
    {
      UnmanagedSuits(u, next, rows, p);
    }
    assert forall p :: p in next.Keys + rows.Keys <==> p in next || p in files;
  }

  lemma ManagedSuits(t: Tree, files: Files, source: string, next: Files, p: Path)
    requires Verified(t, files) && LOCK_NAME !in files
    ensures var rows, u := LockFor(files, source).rows, Locked(t, files, source);
            && (p in files ==> PathOk(u, p))
            && (p in next && p in files ==> MayTake(u, next, rows, p))
            && (p in rows && p !in next ==> MayDrop(u, rows, p))
  {
    hide PathOk;
    if p in files {
      StillTheKits(t, files, source, p);
    }
  }

  lemma UnmanagedSuits(u: Tree, next: Files, rows: Rows, p: Path)
    requires p in next && p !in rows
    ensures MayTake(u, next, rows, p) <==> SeenAt(u, p).Missing? || SeenAt(u, p) == Expected(next[p])
  {
  }

  // ----- any sequence of kit versions -------------------------------------------------------

  /**
   A version brought in: the tree that was `found`, what interrupted attempts `left` of it, and the tree `after`
   the copy and the consumer's commands, as it was verified.
   */
  datatype Version = Version(files: Files, source: string, found: Tree, left: Tree, after: Tree)

  function Copied(v: Version, rows: Rows): Tree { Applied(v.left, PlanFor(v.left, v.files, rows, v.source)) }

  function Outcome(v: Version): Tree { Locked(v.after, v.files, v.source) }

  /**
   Each version is planned, and planned again, from the lock it finds. Between versions, and in their commands, the
   consumer may do what passes verification.
   */
  ghost predicate Accepted(rows: Rows, versions: seq<Version>, foreign: Bytestring -> Option<Rows>)
    decreases |versions|
  {
    versions == [] ||
    (var v := versions[0];
     && PrefixFree(v.files) && SparesLock(v.files)
     && LoadLock(v.found, foreign) == Ok(rows) == LoadLock(v.left, foreign)
     && Acceptable(v.found, v.files, rows)
     && Between(v.found, PlanFor(v.found, v.files, rows, v.source), v.left)
     && Acceptable(v.left, v.files, rows)
     && Verified(v.after, v.files)
     && Accepted(LockFor(v.files, v.source).rows, versions[1..], foreign))
  }

  /** The consumer itself leaves a path alone: between versions, and in the commands. */
  ghost predicate HandsOff(t: Tree, rows: Rows, versions: seq<Version>, p: Path)
    decreases |versions|
  {
    versions == [] ||
    (var v := versions[0];
     && Look(v.found, p) == Look(t, p)
     && Look(v.after, p) == Look(Copied(v, rows), p)
     && HandsOff(Outcome(v), LockFor(v.files, v.source).rows, versions[1..], p))
  }

  predicate EverManaged(rows: Rows, versions: seq<Version>, p: Path) {
    p in rows || exists i :: 0 <= i < |versions| && p in versions[i].files
  }

  lemma ResultIs(t: Tree, rows: Rows, v: Version, p: Path, foreign: Bytestring -> Option<Rows>)
    requires Accepted(rows, [v], foreign) && HandsOff(t, rows, [v], p) && p != LOCK_NAME
    ensures var kept := if p in rows && p in t && (t[p].File? || t[p].Symlink?) then None else Look(t, p);
            Look(Outcome(v), p) ==
            if p in v.files then Some(NodeOf(v.files[p]))
            else if kept.None? && p in Dirs(v.found, v.files, rows) then Some(Directory)
            else kept
  {
    hide Acceptable, PlanFor, Applied, Between, Dirs, Parents, PrefixFree, Verified, SparesLock, LoadLock;
    RestartEnds(v.found, v.files, rows, v.source, v.left);
    AfterApply(v.found, v.files, rows, v.source, p);
    assert Look(Outcome(v), p) == Look(v.after, p);
    assert Look(v.found, p) == Look(t, p);
  }

  lemma FirstAndRest(t: Tree, rows: Rows, versions: seq<Version>, p: Path, foreign: Bytestring -> Option<Rows>)
    requires versions != [] && Accepted(rows, versions, foreign) && HandsOff(t, rows, versions, p)
    ensures var v, next := versions[0], LockFor(versions[0].files, versions[0].source).rows;
            && Accepted(rows, [v], foreign) && HandsOff(t, rows, [v], p)
            && Accepted(next, versions[1..], foreign) && HandsOff(Outcome(v), next, versions[1..], p)
  {
    hide Acceptable, PlanFor, Applied, Between, PrefixFree, Verified, SparesLock, Copied, LoadLock;
    assert [versions[0]][1..] == [];
  }

  /**
   Whatever versions were brought in, however often each was interrupted and started again, and whatever the
   consumer does elsewhere: a path it leaves alone ends as the last version's file, or gone if only earlier versions
   had it, or else as it was at the start; an absent one may have become a directory.
   */
  lemma {:induction false} VersionsConverge(t: Tree, rows: Rows, versions: seq<Version>, p: Path,
                                            foreign: Bytestring -> Option<Rows>)
    requires versions != [] && Accepted(rows, versions, foreign) && HandsOff(t, rows, versions, p) && p != LOCK_NAME
    ensures var last, end := versions[|versions| - 1], Outcome(versions[|versions| - 1]);
            && (p in last.files ==> Look(end, p) == Some(NodeOf(last.files[p])))
            && (p !in last.files && EverManaged(rows, versions, p) ==>
                  Look(end, p) == None || Look(end, p) == Some(Directory)
                  || (Look(end, p) == Some(Special) && Look(t, p) == Some(Special)))
            && (!EverManaged(rows, versions, p) ==>
                  Look(end, p) == Look(t, p) || (Look(t, p) == None && Look(end, p) == Some(Directory)))
            && Look(end, LOCK_NAME) == Some(File(LockText(LockFor(last.files, last.source)), Plain))
    decreases |versions|
  {
    hide Accepted, HandsOff, Dirs;
    var v := versions[0];
    FirstAndRest(t, rows, versions, p, foreign);
    ResultIs(t, rows, v, p, foreign);
    if |versions| > 1 {
      var rest, next := versions[1..], LockFor(v.files, v.source).rows;
      VersionsConverge(Outcome(v), next, rest, p, foreign);
      assert rest[|rest| - 1] == versions[|versions| - 1];
      ManagedSoFar(rows, versions, p);
    } else {
      assert versions == [v];
      assert EverManaged(rows, versions, p) <==> p in rows || p in v.files;
    }
    assert Look(Outcome(v), LOCK_NAME) == Some(File(LockText(LockFor(v.files, v.source)), Plain));
  }

  lemma ManagedSoFar(rows: Rows, versions: seq<Version>, p: Path)
    requires |versions| > 0
    ensures EverManaged(rows, versions, p) <==>
            (p in rows || EverManaged(LockFor(versions[0].files, versions[0].source).rows, versions[1..], p))
  {
    var rest := versions[1..];
    assert forall i :: 0 < i < |versions| ==> versions[i] == rest[i - 1];
    assert forall i :: 0 <= i < |rest| ==> rest[i] == versions[i + 1];
  }
}
