/**
 Which packs may be active together: the admission check of install and upgrade, the pairwise
 condition it decides, and what admission preserves.
 */
module PackComposition {
  import opened Outcomes
  import opened PackModel
  import opened PackNames

  /** The capability kinds whose values no two active packs may share. */
  const OWNED_CAPABILITIES: seq<Capability> :=
    [PageTypes, Blocks, Views, Commands, Operations, TemporalProfiles]

  // ----- the pairwise condition -------------------------------------------------------------

  predicate DeclaredConflict(a: PackId, p: Pin, b: PackId, q: Pin) {
    b in p.conflicts || a in q.conflicts
  }

  predicate CapabilityClash(p: Pin, q: Pin) {
    exists k :: 0 <= k < |OWNED_CAPABILITIES| && SharesName(OWNED_CAPABILITIES[k], p.capabilities, q.capabilities)
  }

  predicate RowsClash(a: seq<SlotRow>, b: seq<SlotRow>) {
    exists i, j :: 0 <= i < |a| && 0 <= j < |b| && a[i].slot == b[j].slot
                && (a[i].mode == Exclusive || b[j].mode == Exclusive)
  }

  predicate SlotClash(p: Pin, q: Pin) {
    exists kind: SlotKind :: RowsClash(p.slots.Of(kind), q.slots.Of(kind))
  }

  predicate Clash(a: PackId, p: Pin, b: PackId, q: Pin) {
    DeclaredConflict(a, p, b, q) || CapabilityClash(p, q) || SlotClash(p, q)
  }

  lemma ClashSymmetric(a: PackId, p: Pin, b: PackId, q: Pin)
    ensures Clash(a, p, b, q) <==> Clash(b, q, a, p)
  {
  }

  // ----- dependencies -----------------------------------------------------------------------

  predicate DependencyMet(d: Dependency, active: Lock) {
    d.id in active && Satisfies(active[d.id].pin.version, d.range)
  }

  predicate DependenciesMet(p: Pin, active: Lock) {
    forall i :: 0 <= i < |p.dependencies| ==> DependencyMet(p.dependencies[i], active)
  }

  predicate AcceptsVersion(q: Pin, id: PackId, v: Version) {
    forall i :: 0 <= i < |q.dependencies| && q.dependencies[i].id == id ==> Satisfies(v, q.dependencies[i].range)
  }

  predicate DependentsAccept(id: PackId, v: Version, active: Lock) {
    forall other :: other in active ==> AcceptsVersion(active[other].pin, id, v)
  }

  // ----- admission --------------------------------------------------------------------------

  predicate AnyConflict(a: PackId, p: Pin, active: Lock) {
    exists b :: b in active && DeclaredConflict(a, p, b, active[b].pin)
  }

  predicate AnyCapabilityClash(p: Pin, active: Lock) {
    exists b :: b in active && CapabilityClash(p, active[b].pin)
  }

  predicate AnySlotClash(p: Pin, active: Lock) {
    exists b :: b in active && SlotClash(p, active[b].pin)
  }

  /** The first check of `_assert_composable` that fails, if any. */
  function AdmissionFailure(a: PackId, p: Pin, active: Lock): Option<Code> {
    if AnyConflict(a, p, active) then Some(PackConflict)
    else if !DependenciesMet(p, active) then Some(DependencyNotSatisfied)
    else if !DependentsAccept(a, p.version, active) then Some(ReverseDependencyNotSatisfied)
    else if AnyCapabilityClash(p, active) then Some(CapabilityConflict)
    else if AnySlotClash(p, active) then Some(ExclusiveSlotConflict)
    else None
  }

  predicate Admissible(a: PackId, p: Pin, active: Lock) {
    AdmissionFailure(a, p, active) == None
  }

  lemma AdmissibleIffPairwise(a: PackId, p: Pin, active: Lock)
    ensures Admissible(a, p, active)
       <==> && DependenciesMet(p, active)
            && DependentsAccept(a, p.version, active)
            && (forall b :: b in active ==> !Clash(a, p, b, active[b].pin))
  {
  }

  // ----- the check as the source runs it ----------------------------------------------------

  type SlotKey = (SlotKind, string)

  datatype Occupant = Occupant(first: PackId, exclusive: bool)

  predicate RowAt(rows: seq<SlotRow>, slot: string) {
    exists j :: 0 <= j < |rows| && rows[j].slot == slot
  }

  predicate ExclusiveRowAt(rows: seq<SlotRow>, slot: string) {
    exists j :: 0 <= j < |rows| && rows[j].slot == slot && rows[j].mode == Exclusive
  }

  ghost predicate Occupies(lock: Lock, ids: set<PackId>, key: SlotKey)
    requires ids <= lock.Keys
  {
    exists id :: id in ids && RowAt(lock[id].pin.slots.Of(key.0), key.1)
  }

  ghost predicate OccupiesExclusively(lock: Lock, ids: set<PackId>, key: SlotKey)
    requires ids <= lock.Keys
  {
    exists id :: id in ids && ExclusiveRowAt(lock[id].pin.slots.Of(key.0), key.1)
  }

  predicate HeldAt(occupied: map<SlotKey, Occupant>, key: SlotKey) {
    key in occupied && occupied[key].exclusive
  }

  lemma RowsGrow(rows: seq<SlotRow>, i: nat, slot: string)
    requires i < |rows|
    ensures RowAt(rows[..i + 1], slot) <==> RowAt(rows[..i], slot) || rows[i].slot == slot
    ensures ExclusiveRowAt(rows[..i + 1], slot)
       <==> ExclusiveRowAt(rows[..i], slot) || (rows[i].slot == slot && rows[i].mode == Exclusive)
  {
  }

  lemma NoRowsYet(rows: seq<SlotRow>)
    ensures forall slot :: !RowAt(rows[..0], slot) && !ExclusiveRowAt(rows[..0], slot)
  {
  }

  /** Folds one pack's rows of one kind into the occupancy map. */
  method OccupyRows(occupied: map<SlotKey, Occupant>, id: PackId, kind: SlotKind, rows: seq<SlotRow>)
    returns (r: map<SlotKey, Occupant>)
    ensures forall key :: key in r <==> key in occupied || (key.0 == kind && RowAt(rows, key.1))
    ensures forall key :: HeldAt(r, key) <==> HeldAt(occupied, key) || (key.0 == kind && ExclusiveRowAt(rows, key.1))
    ensures forall key :: key in r ==> r[key].first == if key in occupied then occupied[key].first else id
  {
    hide RowAt, ExclusiveRowAt;
    r := occupied;
    NoRowsYet(rows);
    for i := 0 to |rows|
      invariant forall key :: key in r <==> key in occupied || (key.0 == kind && RowAt(rows[..i], key.1))
      invariant forall key ::
        HeldAt(r, key) <==> HeldAt(occupied, key) || (key.0 == kind && ExclusiveRowAt(rows[..i], key.1))
      invariant forall key :: key in r ==> r[key].first == if key in occupied then occupied[key].first else id
    {
      var key := (kind, rows[i].slot);
      var prior := if key in r then r[key] else Occupant(id, false);
      r := r[key := Occupant(prior.first, prior.exclusive || rows[i].mode == Exclusive)];
      forall slot { RowsGrow(rows, i, slot); }
    }
    assert rows[..|rows|] == rows;
  }

  /** All four kinds of one pack. */
  method OccupyPack(occupied: map<SlotKey, Occupant>, id: PackId, slots: Slots)
    returns (r: map<SlotKey, Occupant>)
    ensures forall key :: key in r <==> key in occupied || RowAt(slots.Of(key.0), key.1)
    ensures forall key :: HeldAt(r, key) <==> HeldAt(occupied, key) || ExclusiveRowAt(slots.Of(key.0), key.1)
    ensures forall key :: key in r ==> r[key].first == if key in occupied then occupied[key].first else id
  {
    hide RowAt, ExclusiveRowAt;
    r := OccupyRows(occupied, id, ViewSlots, slots.views);
    r := OccupyRows(r, id, CommandSlots, slots.commands);
    r := OccupyRows(r, id, OperationSlots, slots.operations);
    r := OccupyRows(r, id, TimelineSlots, slots.timelines);
  }

  /** One pass over the active packs, in any order. */
  method Occupy(active: Lock) returns (occupied: map<SlotKey, Occupant>)
    ensures forall key :: key in occupied <==> Occupies(active, active.Keys, key)
    ensures forall key :: HeldAt(occupied, key) <==> OccupiesExclusively(active, active.Keys, key)
    ensures forall key :: key in occupied ==> occupied[key].first in active
  {
    occupied := map[];
    var rest := active.Keys;
    while rest != {}
      invariant rest <= active.Keys
      invariant forall key :: key in occupied <==> Occupies(active, active.Keys - rest, key)
      invariant forall key :: HeldAt(occupied, key) <==> OccupiesExclusively(active, active.Keys - rest, key)
      invariant forall key :: key in occupied ==> occupied[key].first in active
    {
      var id :| id in rest;
      occupied := OccupyPack(occupied, id, active[id].pin.slots);
      forall key { OccupiesMore(active, active.Keys - rest, id, key); }
      assert active.Keys - (rest - {id}) == (active.Keys - rest) + {id};
      rest := rest - {id};
    }
    assert active.Keys - {} == active.Keys;
  }

  lemma OccupiesMore(lock: Lock, ids: set<PackId>, id: PackId, key: SlotKey)
    requires ids <= lock.Keys && id in lock
    ensures Occupies(lock, ids + {id}, key)
       <==> Occupies(lock, ids, key) || RowAt(lock[id].pin.slots.Of(key.0), key.1)
    ensures OccupiesExclusively(lock, ids + {id}, key)
       <==> OccupiesExclusively(lock, ids, key) || ExclusiveRowAt(lock[id].pin.slots.Of(key.0), key.1)
  {
  }

  /** The candidate's rows of one kind against the occupancy map. */
  method RowsFit(rows: seq<SlotRow>, kind: SlotKind, occupied: map<SlotKey, Occupant>, active: Lock)
    returns (fits: bool)
    requires forall key :: key in occupied <==> Occupies(active, active.Keys, key)
    requires forall key :: HeldAt(occupied, key) <==> OccupiesExclusively(active, active.Keys, key)
    ensures fits <==> forall b :: b in active ==> !RowsClash(rows, active[b].pin.slots.Of(kind))
  {
    for i := 0 to |rows|
      invariant forall b :: b in active ==> !RowsClash(rows[..i], active[b].pin.slots.Of(kind))
    {
      var key := (kind, rows[i].slot);
      if key in occupied && (occupied[key].exclusive || rows[i].mode == Exclusive) {
        if HeldAt(occupied, key) {
          ghost var b :| b in active && ExclusiveRowAt(active[b].pin.slots.Of(kind), key.1);
          assert RowsClash(rows, active[b].pin.slots.Of(kind));
        } else {
          ghost var b :| b in active && RowAt(active[b].pin.slots.Of(kind), key.1);
          assert RowsClash(rows, active[b].pin.slots.Of(kind));
        }
        return false;
      }
      forall b | b in active
        ensures !RowsClash(rows[..i + 1], active[b].pin.slots.Of(kind))
      {
        OneMoreRowFits(rows, i, active, b, kind);
      }
    }
    assert rows[..|rows|] == rows;
    return true;
  }

  lemma OneMoreRowFits(rows: seq<SlotRow>, i: nat, active: Lock, b: PackId, kind: SlotKind)
    requires i < |rows| && b in active
    requires !RowsClash(rows[..i], active[b].pin.slots.Of(kind))
    requires Occupies(active, active.Keys, (kind, rows[i].slot)) ==>
      !OccupiesExclusively(active, active.Keys, (kind, rows[i].slot)) && rows[i].mode != Exclusive
    ensures !RowsClash(rows[..i + 1], active[b].pin.slots.Of(kind))
  {
  }

  /** `_assert_composable`: five passes in order, and the error of the first that objects. */
  method AssertComposable(src: PackSource, status: Status, lock: Lock, replacing: Option<PackId>)
    returns (failure: Option<Code>)
    ensures failure == AdmissionFailure(src.Id(), PinFor(src, status), ActiveEntries(lock, replacing))
  {
    hide DeclaredConflict, DependencyMet, AcceptsVersion, CapabilityClash, SlotClash;
    var active := ActiveEntries(lock, replacing);
    var a, p := src.Id(), PinFor(src, status);
    var conflict := FindConflict(a, p, active);
    if conflict {
      return Some(PackConflict);
    }
    var met := MeetsDependencies(p, active);
    if !met {
      return Some(DependencyNotSatisfied);
    }
    var accepted := DependentsAgree(a, p.version, active);
    if !accepted {
      return Some(ReverseDependencyNotSatisfied);
    }
    var shared := FindCapabilityClash(p, active);
    if shared {
      return Some(CapabilityConflict);
    }
    var fits := SlotsFit(p, active);
    return if fits then None else Some(ExclusiveSlotConflict);
  }

  method FindConflict(a: PackId, p: Pin, active: Lock) returns (found: bool)
    ensures found <==> AnyConflict(a, p, active)
  {
    var rest := active.Keys;
    while rest != {}
      invariant rest <= active.Keys
      invariant forall b :: b in active && b !in rest ==> !DeclaredConflict(a, p, b, active[b].pin)
    {
      var b :| b in rest;
      if b in p.conflicts || a in active[b].pin.conflicts {
        assert DeclaredConflict(a, p, b, active[b].pin);
        return true;
      }
      rest := rest - {b};
    }
    return false;
  }

  method MeetsDependencies(p: Pin, active: Lock) returns (met: bool)
    ensures met <==> DependenciesMet(p, active)
  {
    hide Satisfies;
    for i := 0 to |p.dependencies|
      invariant forall j :: 0 <= j < i ==> DependencyMet(p.dependencies[j], active)
    {
      var d := p.dependencies[i];
      met := d.id in active;
      if met {
        met := VersionSatisfies(active[d.id].pin.version, d.range);
      }
      if !met {
        assert !DependencyMet(p.dependencies[i], active);
        return;
      }
    }
    return true;
  }

  method DependentsAgree(a: PackId, v: Version, active: Lock) returns (agree: bool)
    ensures agree <==> DependentsAccept(a, v, active)
  {
    hide AcceptsVersion;
    var rest := active.Keys;
    while rest != {}
      invariant rest <= active.Keys
      invariant forall b :: b in active && b !in rest ==> AcceptsVersion(active[b].pin, a, v)
    {
      var b :| b in rest;
      var accepts := ScanDependent(active[b].pin, a, v);
      if !accepts {
        return false;
      }
      rest := rest - {b};
    }
    return true;
  }

  method FindCapabilityClash(p: Pin, active: Lock) returns (found: bool)
    ensures found <==> AnyCapabilityClash(p, active)
  {
    hide CapabilityClash;
    var rest := active.Keys;
    while rest != {}
      invariant rest <= active.Keys
      invariant forall b :: b in active && b !in rest ==> !CapabilityClash(p, active[b].pin)
    {
      var b :| b in rest;
      var clash := ScanCapabilities(p, active[b].pin);
      if clash {
        return true;
      }
      rest := rest - {b};
    }
    return false;
  }

  method SlotsFit(p: Pin, active: Lock) returns (fit: bool)
    ensures fit <==> !AnySlotClash(p, active)
  {
    hide RowsClash, Occupies, OccupiesExclusively, HeldAt;
    var occupied := Occupy(active);
    var v := RowsFit(p.slots.views, ViewSlots, occupied, active);
    var c := RowsFit(p.slots.commands, CommandSlots, occupied, active);
    var o := RowsFit(p.slots.operations, OperationSlots, occupied, active);
    var t := RowsFit(p.slots.timelines, TimelineSlots, occupied, active);
    SlotClashByKind(p, active);
    return v && c && o && t;
  }

  lemma SlotClashByKind(p: Pin, active: Lock)
    ensures AnySlotClash(p, active) <==>
      exists kind: SlotKind, b :: b in active && RowsClash(p.slots.Of(kind), active[b].pin.slots.Of(kind))
    ensures AnySlotClash(p, active) <==>
      || (exists b :: b in active && RowsClash(p.slots.views, active[b].pin.slots.Of(ViewSlots)))
      || (exists b :: b in active && RowsClash(p.slots.commands, active[b].pin.slots.Of(CommandSlots)))
      || (exists b :: b in active && RowsClash(p.slots.operations, active[b].pin.slots.Of(OperationSlots)))
      || (exists b :: b in active && RowsClash(p.slots.timelines, active[b].pin.slots.Of(TimelineSlots)))
  {
  }

  method ScanDependent(q: Pin, id: PackId, v: Version) returns (accepts: bool)
    ensures accepts == AcceptsVersion(q, id, v)
  {
    for i := 0 to |q.dependencies|
      invariant forall j :: 0 <= j < i && q.dependencies[j].id == id ==> Satisfies(v, q.dependencies[j].range)
    {
      if q.dependencies[i].id == id {
        var ok := VersionSatisfies(v, q.dependencies[i].range);
        if !ok {
          return false;
        }
      }
    }
    return true;
  }

  method ScanCapabilities(p: Pin, q: Pin) returns (clash: bool)
    ensures clash == CapabilityClash(p, q)
  {
    for k := 0 to |OWNED_CAPABILITIES|
      invariant forall j :: 0 <= j < k ==> !SharesName(OWNED_CAPABILITIES[j], p.capabilities, q.capabilities)
    {
      var overlap := Elements(p.capabilities.Of(OWNED_CAPABILITIES[k])) * Elements(q.capabilities.Of(OWNED_CAPABILITIES[k]));
      if overlap != {} {
        var name :| name in overlap;
        assert SharesName(OWNED_CAPABILITIES[k], p.capabilities, q.capabilities);
        return true;
      }
      forall name | name in p.capabilities.Of(OWNED_CAPABILITIES[k])
        ensures name !in q.capabilities.Of(OWNED_CAPABILITIES[k])
      {
        assert (name in overlap) == (name in q.capabilities.Of(OWNED_CAPABILITIES[k]));
      }
    }
    return false;
  }

  // ----- what admission preserves -----------------------------------------------------------

  ghost predicate Compatible(active: Lock) {
    forall a, b :: a in active && b in active && a != b ==> !Clash(a, active[a].pin, b, active[b].pin)
  }

  /** Every pair of active packs is compatible and every dependency is met by an active pack. */
  ghost predicate ComposedEntries(active: Lock) {
    && Compatible(active)
    && (forall a :: a in active ==> DependenciesMet(active[a].pin, active))
  }

  ghost predicate Composed(lock: Lock) { ComposedEntries(ActiveEntries(lock, None)) }

  lemma JoinKeepsPairs(others: Lock, a: PackId, e: Entry)
    requires Compatible(others)
    requires a !in others && Admissible(a, e.pin, others)
    ensures Compatible(others[a := e])
  {
  }

  lemma JoinKeepsDependencies(was: Lock, others: Lock, a: PackId, e: Entry, next: Lock, x: PackId)
    requires a !in others && others == was - {a} && Admissible(a, e.pin, others)
    requires forall y :: y in was ==> DependenciesMet(was[y].pin, was)
    requires next == others[a := e] && x in next
    ensures DependenciesMet(next[x].pin, next)
  {
  }

  /** Adding a pack, or replacing an entry without changing its status, keeps packs composed. */
  lemma AdmissionKeepsComposed(lock: Lock, a: PackId, e: Entry)
    requires Composed(lock)
    requires Admissible(a, e.pin, ActiveEntries(lock, Some(a)))
    requires if a in lock then e.pin.status == lock[a].pin.status else e.pin.status == Active
    ensures Composed(lock[a := e])
  {
    hide SlotClash, CapabilityClash, SharesName, Admissible, Clash, DependenciesMet;
    var was, others := ActiveEntries(lock, None), ActiveEntries(lock, Some(a));
    assert others == was - {a};
    if e.pin.status == Active {
      var next := others[a := e];
      assert ActiveEntries(lock[a := e], None) == next;
      assert forall x :: x in others ==> x in was && others[x] == was[x];
      JoinKeepsPairs(others, a, e);
      forall x | x in next { JoinKeepsDependencies(was, others, a, e, next, x); }
    } else {
      assert ActiveEntries(lock[a := e], None) == was;
    }
  }

  predicate HasActiveDependent(lock: Lock, id: PackId) {
    var others := ActiveEntries(lock, Some(id));
    exists other :: other in others && DependsOn(others[other].pin, id)
  }

  predicate DependsOn(p: Pin, id: PackId) {
    exists i :: 0 <= i < |p.dependencies| && p.dependencies[i].id == id
  }

  /** Taking out, or switching off, a pack no active pack depends on keeps the rest composed. */
  lemma WithdrawalKeepsComposed(lock: Lock, a: PackId, next: Lock)
    requires Composed(lock)
    requires !HasActiveDependent(lock, a)
    requires ActiveEntries(next, None) == ActiveEntries(lock, Some(a))
    ensures Composed(next)
  {
    var was, rest := ActiveEntries(lock, None), ActiveEntries(lock, Some(a));
    assert rest == was - {a};
    forall x, i | x in rest && 0 <= i < |rest[x].pin.dependencies|
      ensures DependencyMet(rest[x].pin.dependencies[i], rest)
    {
      assert DependencyMet(was[x].pin.dependencies[i], was);
      assert DependsOn(rest[x].pin, rest[x].pin.dependencies[i].id);
    }
  }

  // ----- install order ----------------------------------------------------------------------

  /**
   Two packs that do not depend on each other can be installed in either order or in neither.
   */
  lemma InstallOrderIrrelevant(
    lock: Lock, a: PackId, p: Pin, b: PackId, q: Pin, ra: seq<ReceiptId>, rb: seq<ReceiptId>)
    requires a != b && a !in lock && b !in lock
    requires p.status == Active && q.status == Active
    requires !DependsOn(p, b) && !DependsOn(q, a)
    ensures (&& Admissible(a, p, ActiveEntries(lock, None))
             && Admissible(b, q, ActiveEntries(lock[a := Entry(p, ra)], None)))
       <==> (&& Admissible(b, q, ActiveEntries(lock, None))
             && Admissible(a, p, ActiveEntries(lock[b := Entry(q, rb)], None)))
    ensures Project(lock[a := Entry(p, ra)][b := Entry(q, rb)])
         == Project(lock[b := Entry(q, rb)][a := Entry(p, ra)])
  {
    hide Admissible, Clash, DependsOn;
    AdmissionBesideOne(lock, a, p, b, q, ra);
    AdmissionBesideOne(lock, b, q, a, p, rb);
    ClashSymmetric(a, p, b, q);
  }

  lemma AdmissionBesideOne(lock: Lock, a: PackId, p: Pin, b: PackId, q: Pin, ra: seq<ReceiptId>)
    requires a != b && a !in lock && b !in lock && p.status == Active
    requires !DependsOn(p, b) && !DependsOn(q, a)
    ensures Admissible(b, q, ActiveEntries(lock[a := Entry(p, ra)], None))
       <==> Admissible(b, q, ActiveEntries(lock, None)) && !Clash(b, q, a, p)
  {
    var was, next := ActiveEntries(lock, None), ActiveEntries(lock[a := Entry(p, ra)], None);
    assert next == was[a := Entry(p, ra)];
    AdmissibleIffPairwise(b, q, was);
    AdmissibleIffPairwise(b, q, next);
    assert AcceptsVersion(p, b, q.version) by {
      if i :| 0 <= i < |p.dependencies| && p.dependencies[i].id == b {
        assert DependsOn(p, b);
        assert false;
      }
    }
    assert DependenciesMet(q, next) <==> DependenciesMet(q, was) by {
      forall i | 0 <= i < |q.dependencies|
        ensures DependencyMet(q.dependencies[i], next) <==> DependencyMet(q.dependencies[i], was)
      {
        assert DependsOn(q, q.dependencies[i].id);
      }
    }
    assert DependentsAccept(b, q.version, next) <==> DependentsAccept(b, q.version, was) by {
      if DependentsAccept(b, q.version, next) {
        forall other | other in was ensures AcceptsVersion(was[other].pin, b, q.version) {
          assert other in next && next[other] == was[other];
        }
      }
    }
    if forall x :: x in next ==> !Clash(b, q, x, next[x].pin) {
      forall x | x in was ensures !Clash(b, q, x, was[x].pin) {
        assert x in next && next[x] == was[x];
      }
      assert a in next;
    }
  }

  // ----- the validator's own slot map -------------------------------------------------------

  /** The mode the validator's dict holds for a slot: the last row wins. */
  function LastMode(rows: seq<SlotRow>, slot: string): Option<Mode> {
    if rows == [] then None
    else if rows[|rows| - 1].slot == slot then Some(rows[|rows| - 1].mode)
    else LastMode(rows[..|rows| - 1], slot)
  }

  predicate ValidatorRowsClash(left: seq<SlotRow>, right: seq<SlotRow>) {
    exists j :: 0 <= j < |right| && LastMode(left, right[j].slot) != None
             && (right[j].mode == Exclusive || LastMode(left, right[j].slot) == Some(Exclusive))
  }

  lemma {:induction false} LastModeIsARow(rows: seq<SlotRow>, slot: string)
    ensures LastMode(rows, slot) == None <==> !RowAt(rows, slot)
    ensures LastMode(rows, slot) == Some(Exclusive) ==> ExclusiveRowAt(rows, slot)
  {
    if rows != [] {
      LastModeIsARow(rows[..|rows| - 1], slot);
      assert rows == rows[..|rows| - 1] + [rows[|rows| - 1]];
    }
  }

  /** Last-row-wins never rejects what the admission check accepts. */
  lemma ValidatorClashIsClash(left: seq<SlotRow>, right: seq<SlotRow>)
    requires ValidatorRowsClash(left, right)
    ensures RowsClash(left, right)
  {
    var j :| 0 <= j < |right| && LastMode(left, right[j].slot) != None
          && (right[j].mode == Exclusive || LastMode(left, right[j].slot) == Some(Exclusive));
    LastModeIsARow(left, right[j].slot);
    assert RowAt(left, right[j].slot);
  }

  /** No exclusive row of the left pack is shadowed by a later append row of the same slot. */
  ghost predicate ExclusiveLast(left: seq<SlotRow>) {
    forall slot :: ExclusiveRowAt(left, slot) ==> LastMode(left, slot) == Some(Exclusive)
  }

  /** The validator catches every clash with every other pack exactly when nothing is shadowed. */
  lemma ValidatorExactIffExclusiveLast(left: seq<SlotRow>)
    ensures (forall right: seq<SlotRow> :: RowsClash(left, right) ==> ValidatorRowsClash(left, right)) <==> ExclusiveLast(left)
  {
    forall right: seq<SlotRow> | ExclusiveLast(left) && RowsClash(left, right)
      ensures ValidatorRowsClash(left, right)
    {
      var i, j :| 0 <= i < |left| && 0 <= j < |right| && left[i].slot == right[j].slot
               && (left[i].mode == Exclusive || right[j].mode == Exclusive);
      LastModeIsARow(left, right[j].slot);
      assert RowAt(left, right[j].slot);
      assert left[i].mode == Exclusive ==> ExclusiveRowAt(left, right[j].slot);
    }
    forall slot | (forall right: seq<SlotRow> :: RowsClash(left, right) ==> ValidatorRowsClash(left, right))
                && ExclusiveRowAt(left, slot)
      ensures LastMode(left, slot) == Some(Exclusive)
    {
      var right := [SlotRow(slot, "", Append)];
      assert right[0].slot == slot;
      assert RowsClash(left, right);
    }
  }

  /** A pack holding one slot twice, first exclusively, hides the clash from the validator. */
  lemma ValidatorMissesShadowedRow()
    ensures var left := [SlotRow("view.home", "a.one", Exclusive), SlotRow("view.home", "a.two", Append)];
            var right := [SlotRow("view.home", "b.one", Append)];
            RowsClash(left, right) && !ValidatorRowsClash(left, right)
  {
    var left := [SlotRow("view.home", "a.one", Exclusive), SlotRow("view.home", "a.two", Append)];
    var right := [SlotRow("view.home", "b.one", Append)];
    assert left[0].slot == right[0].slot;
    assert LastMode(left, "view.home") == Some(Append);
  }
}
