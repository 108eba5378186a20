/**
 Reading the lock: the rules each entry must meet, checked row by row with sets of what was seen.
 */
module PackLoading {
  import opened Outcomes
  import opened PackModel
  import opened PackNames

  datatype LoadError =
    | InvalidEntry(id: PackId) | InvalidCapabilities(id: PackId) | InvalidSlots(id: PackId)
    | InvalidDependency(id: PackId) | InvalidConflict(id: PackId) | DependencyConflictOverlap(id: PackId)
    | InvalidReceipts(id: PackId)

  const ALL_CAPABILITIES: seq<Capability> :=
    [PageTypes, Blocks, BlockPackages, Views, Commands, Operations, TemporalProfiles]

  /** A list of names without repetition, copied as it is checked. */
  method NormalizeList(names: seq<string>) returns (r: Option<seq<string>>)
    ensures r.Some? <==> Distinct(names) && forall i :: 0 <= i < |names| ==> IsCapabilityName(names[i])
    ensures r.Some? ==> r.value == names
  {
    hide IsCapabilityName;
    var result: seq<string> := [];
    for i := 0 to |names|
      invariant result == names[..i]
      invariant Distinct(names[..i]) && forall j :: 0 <= j < i ==> IsCapabilityName(names[j])
    {
      if !IsCapabilityName(names[i]) || names[i] in result {
        return None;
      }
      result := result + [names[i]];
    }
    assert names[..|names|] == names;
    return Some(result);
  }

  predicate KeyOk(id: PackId, key: Capability, names: seq<string>) {
    && Distinct(names)
    && forall i :: 0 <= i < |names| ==> IsCapabilityName(names[i]) && (key != BlockPackages ==> NamePrefix(id, key) <= names[i])
  }

  method CheckCapabilities(id: PackId, caps: Capabilities) returns (ok: bool)
    ensures ok <==> CapabilitiesOk(id, caps)
  {
    hide IsCapabilityName, NamePrefix, Distinct;
    EveryKey(id, caps);
    for k := 0 to |ALL_CAPABILITIES|
      invariant forall j :: 0 <= j < k ==> KeyOk(id, ALL_CAPABILITIES[j], caps.Of(ALL_CAPABILITIES[j]))
    {
      var key := ALL_CAPABILITIES[k];
      var names := caps.Of(key);
      var normal := NormalizeList(names);
      if normal.None? {
        return false;
      }
      if key != BlockPackages && exists i :: 0 <= i < |names| && !(NamePrefix(id, key) <= names[i]) {
        return false;
      }
    }
    return true;
  }

  lemma EveryKey(id: PackId, caps: Capabilities)
    ensures CapabilitiesOk(id, caps) <==>
            forall j :: 0 <= j < |ALL_CAPABILITIES| ==> KeyOk(id, ALL_CAPABILITIES[j], caps.Of(ALL_CAPABILITIES[j]))
  {
    hide IsCapabilityName, NamePrefix, Distinct;
    if forall j :: 0 <= j < |ALL_CAPABILITIES| ==> KeyOk(id, ALL_CAPABILITIES[j], caps.Of(ALL_CAPABILITIES[j])) {
      forall key: Capability
        ensures KeyOk(id, key, caps.Of(key))
      {
        KeyListed(key);
      }
    }
  }

  lemma KeyListed(key: Capability)
    ensures key in ALL_CAPABILITIES
  {
  }

  lemma KindListed(kind: SlotKind)
    ensures kind in SLOT_KINDS
  {
  }

  method CheckRows(kind: SlotKind, rows: seq<SlotRow>, declared: seq<string>) returns (ok: bool)
    ensures ok <==> RowsOk(kind, rows, declared)
  {
    hide SlotPrefix;
    var seen: set<(string, string)> := {};
    for i := 0 to |rows|
      invariant forall j :: 0 <= j < i ==> (rows[j].slot, rows[j].contribution) in seen
      invariant forall key :: key in seen ==> exists j :: 0 <= j < i && (rows[j].slot, rows[j].contribution) == key
      invariant RowsOk(kind, rows[..i], declared)
    {
      var key := (rows[i].slot, rows[i].contribution);
      if !(SlotPrefix(kind) <= rows[i].slot) || rows[i].contribution !in declared || key in seen {
        return false;
      }
      assert forall j :: 0 <= j < i ==> (rows[j].slot, rows[j].contribution) != key;
      assert rows[..i + 1] == rows[..i] + [rows[i]];
      seen := seen + {key};
    }
    assert rows[..|rows|] == rows;
    return true;
  }

  method CheckSlots(slots: Slots, caps: Capabilities) returns (ok: bool)
    ensures ok <==> SlotsOk(slots, caps)
  {
    hide RowsOk;
    for k := 0 to |SLOT_KINDS|
      invariant forall j :: 0 <= j < k ==>
                  RowsOk(SLOT_KINDS[j], slots.Of(SLOT_KINDS[j]), caps.Of(CapabilityForSlot(SLOT_KINDS[j])))
    {
      var kind := SLOT_KINDS[k];
      var fine := CheckRows(kind, slots.Of(kind), caps.Of(CapabilityForSlot(kind)));
      if !fine {
        return false;
      }
    }
    forall kind: SlotKind
      ensures RowsOk(kind, slots.Of(kind), caps.Of(CapabilityForSlot(kind)))
    {
      KindListed(kind);
    }
    return true;
  }

  predicate DependenciesOk(id: PackId, dependencies: seq<Dependency>) {
    && (forall i :: 0 <= i < |dependencies| ==>
          IsPackId(dependencies[i].id) && dependencies[i].id != id && dependencies[i].range != [])
    && (forall i, j :: 0 <= i < j < |dependencies| ==> dependencies[i].id != dependencies[j].id)
  }

  predicate ConflictsOk(id: PackId, conflicts: seq<PackId>) {
    (forall i :: 0 <= i < |conflicts| ==> IsPackId(conflicts[i]) && conflicts[i] != id) && Distinct(conflicts)
  }

  /** The first rule that the relations of an entry break: dependencies, then conflicts, then their overlap. */
  function BrokenRelation(id: PackId, dependencies: seq<Dependency>, conflicts: seq<PackId>): (r: Option<LoadError>)
    ensures r.None? <==> RelationsOk(id, dependencies, conflicts)
  {
    if !DependenciesOk(id, dependencies) then Some(InvalidDependency(id))
    else if !ConflictsOk(id, conflicts) then Some(InvalidConflict(id))
    else if exists i :: 0 <= i < |dependencies| && dependencies[i].id in conflicts then Some(DependencyConflictOverlap(id))
    else None
  }

  /** The first rule that an entry breaks. */
  function BrokenRule(id: PackId, entry: Entry): (r: Option<LoadError>)
    ensures r.None? <==> PinOk(id, entry.pin) && Distinct(entry.receipts)
  {
    if !IsPackId(id) then Some(InvalidEntry(id))
    else if !CapabilitiesOk(id, entry.pin.capabilities) then Some(InvalidCapabilities(id))
    else if !SlotsOk(entry.pin.slots, entry.pin.capabilities) then Some(InvalidSlots(id))
    else if BrokenRelation(id, entry.pin.dependencies, entry.pin.conflicts).Some? then
      BrokenRelation(id, entry.pin.dependencies, entry.pin.conflicts)
    else if !Distinct(entry.receipts) then Some(InvalidReceipts(id))
    else None
  }

  /** Dependencies first, then conflicts, then their overlap. */
  method CheckRelations(id: PackId, dependencies: seq<Dependency>, conflicts: seq<PackId>)
    returns (r: Option<LoadError>)
    ensures r == BrokenRelation(id, dependencies, conflicts)
  {
    hide IsPackId;
    var dependencyIds: set<PackId> := {};
    for i := 0 to |dependencies|
      invariant dependencyIds == set j | 0 <= j < i :: dependencies[j].id
      invariant forall j :: 0 <= j < i ==>
                  IsPackId(dependencies[j].id) && dependencies[j].id != id && dependencies[j].range != []
      invariant forall j, k :: 0 <= j < k < i ==> dependencies[j].id != dependencies[k].id
    {
      var d := dependencies[i];
      if !IsPackId(d.id) || d.id == id || d.id in dependencyIds || d.range == [] {
        return Some(InvalidDependency(id));
      }
      dependencyIds := dependencyIds + {d.id};
    }
    var conflictIds: set<PackId> := {};
    for i := 0 to |conflicts|
      invariant conflictIds == set j | 0 <= j < i :: conflicts[j]
      invariant forall j :: 0 <= j < i ==> IsPackId(conflicts[j]) && conflicts[j] != id
      invariant Distinct(conflicts[..i])
    {
      var c := conflicts[i];
      if !IsPackId(c) || c == id || c in conflictIds {
        return Some(InvalidConflict(id));
      }
      conflictIds := conflictIds + {c};
    }
    assert conflicts[..|conflicts|] == conflicts;
    if dependencyIds * conflictIds != {} {
      ghost var both :| both in dependencyIds * conflictIds;
      assert exists i :: 0 <= i < |dependencies| && dependencies[i].id == both;
      return Some(DependencyConflictOverlap(id));
    }
    forall i | 0 <= i < |dependencies|
      ensures dependencies[i].id !in conflicts
    {
      assert dependencies[i].id in dependencyIds;
      assert dependencies[i].id !in conflictIds;
    }
    return None;
  }

  lemma {:induction false} DistinctBySize<T>(s: seq<T>)
    ensures |Elements(s)| <= |s|
    ensures |Elements(s)| == |s| <==> Distinct(s)
  {
    if s != [] {
      var front, x := s[..|s| - 1], s[|s| - 1];
      DistinctBySize(front);
      assert s == front + [x];
      assert Elements(s) == Elements(front) + {x};
      assert Distinct(s) <==> Distinct(front) && x !in front;
    }
  }

  method CheckEntry(id: PackId, entry: Entry) returns (r: Option<LoadError>)
    ensures r == BrokenRule(id, entry)
  {
    hide IsPackId, CapabilitiesOk, SlotsOk, RelationsOk, Distinct, BrokenRelation;
    if !IsPackId(id) {
      return Some(InvalidEntry(id));
    }
    var fine := CheckCapabilities(id, entry.pin.capabilities);
    if !fine {
      return Some(InvalidCapabilities(id));
    }
    fine := CheckSlots(entry.pin.slots, entry.pin.capabilities);
    if !fine {
      return Some(InvalidSlots(id));
    }
    r := CheckRelations(id, entry.pin.dependencies, entry.pin.conflicts);
    if r.Some? {
      return;
    }
    DistinctBySize(entry.receipts);
    if |set x | x in entry.receipts| != |entry.receipts| {
      return Some(InvalidReceipts(id));
    }
    return None;
  }

  /** The loader accepts exactly the locks whose every entry meets the rules, and returns what it read. */
  method LoadLock(file: Option<Lock>) returns (r: Result<Lock, LoadError>)
    ensures r.Ok? <==> file.None? || LockOk(file.value)
    ensures r.Ok? ==> r.value == if file.None? then map[] else file.value
    ensures r.Err? ==> file.Some? && exists id :: id in file.value && BrokenRule(id, file.value[id]) == Some(r.error)
  {
    hide PinOk, Distinct, BrokenRule;
    if file.None? {
      return Ok(map[]);
    }
    var lock := file.value;
    var todo := lock.Keys;
    while todo != {}
      invariant todo <= lock.Keys
      invariant forall id :: id in lock && id !in todo ==> PinOk(id, lock[id].pin) && Distinct(lock[id].receipts)
    {
      var id :| id in todo;
      var bad := CheckEntry(id, lock[id]);
      if bad.Some? {
        return Err(bad.value);
      }
      todo := todo - {id};
    }
    return Ok(lock);
  }
}
