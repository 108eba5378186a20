/**
 Reading an installation back: the validator's findings, and when it and the composition of the active
 packs accept what the lifecycle has left.
 */
module PackValidation {
  import opened Outcomes
  import opened PackModel
  import opened PackNames
  import opened PackComposition
  import opened PackPlanning
  import opened PackHistory
  import opened PackMachine
  import opened PackSystem
  import opened PackPresentation

  // ----- receipts as the validator reads them ----------------------------------------------------

  predicate ProjectionValid(payload: Identity) {
    && payload.nextSha == Sha(payload.next)
    && (forall id :: id in payload.next ==> IsPackId(id))
    && if payload.action == RemoveAction then payload.pack !in payload.next
       else
         && payload.pack in payload.next
         && payload.next[payload.pack].version == payload.version
         && (payload.action == DisableAction ==> payload.next[payload.pack].status == Disabled)
  }

  predicate ReceiptMatches(receipts: map<ReceiptId, Identity>, id: PackId, r: ReceiptId) {
    r in receipts && r == ReceiptId(receipts[r]) && receipts[r].pack == id && ProjectionValid(receipts[r])
  }

  /** The latest receipt must also project to the entry itself. */
  predicate ChainMatches(receipts: map<ReceiptId, Identity>, id: PackId, entry: Entry) {
    && (forall i :: 0 <= i < |entry.receipts| ==> ReceiptMatches(receipts, id, entry.receipts[i]))
    && (entry.receipts != [] ==>
          var last := receipts[entry.receipts[|entry.receipts| - 1]];
          id in last.next && last.next[id] == entry.pin)
  }

  // ----- findings ---------------------------------------------------------------------------

  datatype FindingCode =
    | BundleDrift | ManifestHashMismatch | ManifestIdentityMismatch | ManifestLockMismatch
    | ManifestContractInvalid | ReceiptInvalid | ReceiptMissing | OrphanBundle | DependencyUnmet
    | ConflictFound | CapabilityFound | SlotFound

  datatype Finding = Finding(code: FindingCode, pack: PackId)

  predicate ManifestAgrees(m: Manifest, pin: Pin) {
    && m.capabilities == pin.capabilities && m.slots == pin.slots
    && m.dependencies == pin.dependencies && m.conflicts == pin.conflicts
  }

  predicate ContractOk(tree: Tree) {
    PinOk(tree.manifest.id, PinFor(PackSource("", tree), Active)) && PresentationOk(tree)
  }

  predicate ManifestFault(tree: Tree, id: PackId, pin: Pin, code: FindingCode) {
    match code
    case ManifestHashMismatch => Sha(tree.manifest) != pin.manifestSha
    case ManifestIdentityMismatch => tree.manifest.id != id || tree.manifest.version != pin.version
    case ManifestLockMismatch => !ManifestAgrees(tree.manifest, pin)
    case ManifestContractInvalid => !ContractOk(tree)
    case _ => false
  }

  /** What is wrong with one entry. A drifted bundle is reported alone. */
  predicate EntryFault(fs: Files, id: PackId, code: FindingCode)
    requires id in fs.lock
  {
    var entry := fs.lock[id];
    var o := BundleOf(id, entry.pin);
    if !Matches(fs.bundles, o) then code == BundleDrift
    else
      || ManifestFault(fs.bundles[o.path], id, entry.pin, code)
      || (code == ReceiptInvalid && !ChainMatches(fs.receipts, id, entry))
      || (code == ReceiptMissing && entry.receipts == [])
  }

  predicate Named(lock: Lock, p: BundlePath) {
    p.id in lock && lock[p.id].pin.version == p.version
  }

  /** The slots check between a pack and a later one, with the validator's last-row-wins map. */
  predicate ValidatorSlotClash(p: Pin, q: Pin) {
    exists kind: SlotKind :: ValidatorRowsClash(p.slots.Of(kind), q.slots.Of(kind))
  }

  predicate PairFault(code: FindingCode, a: PackId, p: Pin, b: PackId, q: Pin) {
    match code
    case ConflictFound => DeclaredConflict(a, p, b, q)
    case CapabilityFound => CapabilityClash(p, q)
    case SlotFound => ValidatorSlotClash(p, q)
    case _ => false
  }

  predicate Enumerates(order: seq<PackId>, ids: set<PackId>) {
    Distinct(order) && Elements(order) == ids
  }

  /** Everything the validator has to say, independent of how it goes about it. */
  predicate Justified(fs: Files, order: seq<PackId>, f: Finding)
    requires Elements(order) <= ActiveEntries(fs.lock, None).Keys
  {
    var active := ActiveEntries(fs.lock, None);
    || (f.pack in fs.lock && EntryFault(fs, f.pack, f.code))
    || (f.code == ReceiptInvalid && exists r :: r in fs.receipts && r.identity.pack == f.pack
                                             && !ReceiptMatches(fs.receipts, f.pack, r))
    || (f.code == OrphanBundle && exists p :: p in fs.bundles && p.id == f.pack && !Named(fs.lock, p))
    || (f.code == DependencyUnmet && f.pack in active && !DependenciesMet(active[f.pack].pin, active))
    || FoundBefore(active, order, |order|, f.code, f.pack)
  }

  method ManifestErrors(tree: Tree, id: PackId, pin: Pin) returns (codes: set<FindingCode>)
    ensures forall code :: code in codes <==> ManifestFault(tree, id, pin, code)
  {
    var contract := ContractOk(tree);
    var agrees := ManifestAgrees(tree.manifest, pin);
    codes := if Sha(tree.manifest) != pin.manifestSha then {ManifestHashMismatch} else {};
    if tree.manifest.id != id || tree.manifest.version != pin.version {
      codes := codes + {ManifestIdentityMismatch};
    }
    if !agrees { codes := codes + {ManifestLockMismatch}; }
    if !contract { codes := codes + {ManifestContractInvalid}; }
  }

  method EntryErrors(fs: Files, id: PackId) returns (codes: set<FindingCode>)
    requires id in fs.lock
    ensures forall code :: code in codes <==> EntryFault(fs, id, code)
  {
    var entry := fs.lock[id];
    var o := BundleOf(id, entry.pin);
    if !Matches(fs.bundles, o) {
      return {BundleDrift};
    }
    codes := ManifestErrors(fs.bundles[o.path], id, entry.pin);
    var chained := CheckChain(fs.receipts, id, entry);
    if !chained { codes := codes + {ReceiptInvalid}; }
    if entry.receipts == [] { codes := codes + {ReceiptMissing}; }
  }

  method CheckChain(receipts: map<ReceiptId, Identity>, id: PackId, entry: Entry) returns (ok: bool)
    ensures ok == ChainMatches(receipts, id, entry)
  {
    for i := 0 to |entry.receipts|
      invariant forall j :: 0 <= j < i ==> ReceiptMatches(receipts, id, entry.receipts[j])
      invariant i == |entry.receipts| > 0 ==>
        var last := receipts[entry.receipts[i - 1]]; id in last.next && last.next[id] == entry.pin
    {
      if !ReceiptMatches(receipts, id, entry.receipts[i]) {
        return false;
      }
      if i == |entry.receipts| - 1 {
        var last := receipts[entry.receipts[i]];
        if id !in last.next || last.next[id] != entry.pin {
          return false;
        }
      }
    }
    return true;
  }

  method PairErrors(a: PackId, p: Pin, b: PackId, q: Pin) returns (codes: set<FindingCode>)
    ensures forall code :: code in codes <==> PairFault(code, a, p, b, q)
  {
    codes := {};
    if b in p.conflicts || a in q.conflicts { codes := codes + {ConflictFound}; }
    var clash := ScanCapabilities(p, q);
    if clash { codes := codes + {CapabilityFound}; }
    var v := ScanRows(p.slots.views, q.slots.views);
    var c := ScanRows(p.slots.commands, q.slots.commands);
    var o := ScanRows(p.slots.operations, q.slots.operations);
    var t := ScanRows(p.slots.timelines, q.slots.timelines);
    SlotKindsCovered(p, q);
    if v || c || o || t { codes := codes + {SlotFound}; }
  }

  lemma SlotKindsCovered(p: Pin, q: Pin)
    ensures ValidatorSlotClash(p, q) <==>
      || ValidatorRowsClash(p.slots.views, q.slots.views)
      || ValidatorRowsClash(p.slots.commands, q.slots.commands)
      || ValidatorRowsClash(p.slots.operations, q.slots.operations)
      || ValidatorRowsClash(p.slots.timelines, q.slots.timelines)
  {
    assert p.slots.Of(ViewSlots) == p.slots.views && q.slots.Of(ViewSlots) == q.slots.views;
    assert p.slots.Of(CommandSlots) == p.slots.commands && q.slots.Of(CommandSlots) == q.slots.commands;
    assert p.slots.Of(OperationSlots) == p.slots.operations && q.slots.Of(OperationSlots) == q.slots.operations;
    assert p.slots.Of(TimelineSlots) == p.slots.timelines && q.slots.Of(TimelineSlots) == q.slots.timelines;
  }

  /** The dict of slot modes, built in row order, against the other pack's rows. */
  method ScanRows(left: seq<SlotRow>, right: seq<SlotRow>) returns (clash: bool)
    ensures clash == ValidatorRowsClash(left, right)
  {
    var modes: map<string, Mode> := map[];
    for i := 0 to |left|
      invariant forall slot :: slot in modes <==> LastMode(left[..i], slot) != None
      invariant forall slot :: slot in modes ==> LastMode(left[..i], slot) == Some(modes[slot])
    {
      modes := modes[left[i].slot := left[i].mode];
      assert left[..i + 1][..i] == left[..i];
    }
    assert left[..|left|] == left;
    for j := 0 to |right|
      invariant forall k :: 0 <= k < j && LastMode(left, right[k].slot) != None ==>
        right[k].mode != Exclusive && LastMode(left, right[k].slot) != Some(Exclusive)
    {
      if right[j].slot in modes && (right[j].mode == Exclusive || modes[right[j].slot] == Exclusive) {
        return true;
      }
    }
    return false;
  }

  predicate FaultAmong(active: Lock, order: seq<PackId>, i: nat, end: nat, code: FindingCode)
    requires Elements(order) <= active.Keys && i < |order| && end <= |order|
  {
    exists k :: i < k < end && PairFault(code, order[i], active[order[i]].pin, order[k], active[order[k]].pin)
  }

  predicate FoundBefore(active: Lock, order: seq<PackId>, end: nat, code: FindingCode, a: PackId)
    requires Elements(order) <= active.Keys && end <= |order|
  {
    exists i :: 0 <= i < end && order[i] == a && FaultAmong(active, order, i, |order|, code)
  }

  /** The loop nest over pairs of active packs. */
  method AllPairErrors(active: Lock, order: seq<PackId>) returns (errors: set<Finding>)
    requires Enumerates(order, active.Keys)
    ensures forall f :: f in errors <==> FoundBefore(active, order, |order|, f.code, f.pack)
  {
    errors := {};
    for i := 0 to |order|
      invariant forall f :: f in errors <==> FoundBefore(active, order, i, f.code, f.pack)
    {
      ghost var before := errors;
      var a := order[i];
      for j := i + 1 to |order|
        invariant forall f :: f in errors <==> f in before || (f.pack == a && FaultAmong(active, order, i, j, f.code))
      {
        var codes := PairErrors(a, active[a].pin, order[j], active[order[j]].pin);
        errors := errors + set code | code in codes :: Finding(code, a);
      }
    }
  }

  method ReceiptErrors(receipts: map<ReceiptId, Identity>) returns (errors: set<Finding>)
    ensures forall f :: f in errors <==>
      f.code == ReceiptInvalid && exists r :: r in receipts && r.identity.pack == f.pack
                                           && !ReceiptMatches(receipts, f.pack, r)
  {
    errors := {};
    var rest := receipts.Keys;
    while rest != {}
      invariant rest <= receipts.Keys
      invariant forall f :: f in errors <==>
        f.code == ReceiptInvalid && exists r :: r in receipts.Keys - rest && r.identity.pack == f.pack
                                             && !ReceiptMatches(receipts, f.pack, r)
    {
      var r :| r in rest;
      if !ReceiptMatches(receipts, r.identity.pack, r) {
        errors := errors + {Finding(ReceiptInvalid, r.identity.pack)};
      }
      rest := rest - {r};
    }
    assert receipts.Keys - {} == receipts.Keys;
  }

  method OrphanErrors(fs: Files) returns (errors: set<Finding>)
    ensures forall f :: f in errors <==>
      f.code == OrphanBundle && exists p :: p in fs.bundles && p.id == f.pack && !Named(fs.lock, p)
  {
    errors := {};
    var rest := fs.bundles.Keys;
    while rest != {}
      invariant rest <= fs.bundles.Keys
      invariant forall f :: f in errors <==>
        f.code == OrphanBundle && exists p :: p in fs.bundles.Keys - rest && p.id == f.pack && !Named(fs.lock, p)
    {
      var p :| p in rest;
      if !Named(fs.lock, p) {
        errors := errors + {Finding(OrphanBundle, p.id)};
      }
      rest := rest - {p};
    }
    assert fs.bundles.Keys - {} == fs.bundles.Keys;
  }

  method AllEntryErrors(fs: Files) returns (errors: set<Finding>)
    ensures forall f :: f in errors <==> f.pack in fs.lock && EntryFault(fs, f.pack, f.code)
  {
    errors := {};
    var rest := fs.lock.Keys;
    while rest != {}
      invariant rest <= fs.lock.Keys
      invariant forall f :: f in errors <==> f.pack in fs.lock.Keys - rest && EntryFault(fs, f.pack, f.code)
    {
      var id :| id in rest;
      var codes := EntryErrors(fs, id);
      errors := errors + set code | code in codes :: Finding(code, id);
      rest := rest - {id};
    }
  }

  method DependencyErrors(active: Lock) returns (errors: set<Finding>)
    ensures forall f :: f in errors <==>
      f.code == DependencyUnmet && f.pack in active && !DependenciesMet(active[f.pack].pin, active)
  {
    errors := {};
    var rest := active.Keys;
    while rest != {}
      invariant rest <= active.Keys
      invariant forall f :: f in errors <==>
        f.code == DependencyUnmet && f.pack in active.Keys - rest && !DependenciesMet(active[f.pack].pin, active)
    {
      var id :| id in rest;
      if !DependenciesMet(active[id].pin, active) {
        errors := errors + {Finding(DependencyUnmet, id)};
      }
      rest := rest - {id};
    }
  }

  /** `validate_installation` of the whole installation, up to the composition it then attempts. */
  method ValidateInstallation(fs: Files, order: seq<PackId>) returns (errors: set<Finding>)
    requires Enumerates(order, ActiveEntries(fs.lock, None).Keys)
    ensures forall f :: f in errors <==> Justified(fs, order, f)
  {
    var active := ActiveEntries(fs.lock, None);
    var entries := AllEntryErrors(fs);
    var receipts := ReceiptErrors(fs.receipts);
    var orphans := OrphanErrors(fs);
    var dependencies := DependencyErrors(active);
    var pairs := AllPairErrors(active, order);
    errors := entries + receipts + orphans + dependencies + pairs;
  }

  // ----- what the lifecycle leaves ----------------------------------------------------------

  /** The entry is exactly what its pinned bundle declares, and that bundle was resolved. */
  predicate GenuinePin(id: PackId, pin: Pin) {
    var src := PackSource(pin.registryPath, pin.treeSha.of);
    pin == PinFor(src, pin.status) && src.Id() == id && Resolved(src)
  }

  lemma NextPinGenuine(op: Op, lock: Lock)
    requires SourceResolved(op) && NextPin(op, lock).Some?
    requires Target(op) in lock ==> GenuinePin(Target(op), lock[Target(op)].pin)
    ensures GenuinePin(Target(op), NextPin(op, lock).value)
  {
  }

  lemma {:induction false} EntriesGenuine(hadFile: bool, log: Log, id: PackId)
    requires ValidLog(hadFile, log) && id in LockAfter(log)
    ensures GenuinePin(id, LockAfter(log)[id].pin)
  {
    hide PlanFor, GenuinePin, ValidLog, SourceResolved;
    var before, c := log[..|log| - 1], log[|log| - 1];
    LastCommit(hadFile, log);
    PlanEffect(c.job, LockAfter(before), hadFile || before != []);
    PlanBundles(c.job, LockAfter(before), hadFile || before != []);
    if id in LockAfter(before) {
      EntriesGenuine(hadFile, before, id);
    }
    if id == Target(c.job.op) {
      NextPinGenuine(c.job.op, LockAfter(before));
    }
  }

  lemma ReceiptSound(job: Job, lock: Lock, lockFile: bool)
    requires PlanFor(job, lock, lockFile).Ok?
    requires LockOk(PlanFor(job, lock, lockFile).value.next)
    ensures ProjectionValid(PlanFor(job, lock, lockFile).value.receipt)
  {
    hide PlanFor, IsPackId, CapabilitiesOk, SlotsOk, RelationsOk, Distinct;
    PlanEffect(job, lock, lockFile);
    ReceiptVersion(job, lock, lockFile);
  }

  /** Every recorded receipt is one the validator accepts. */
  lemma RecordedReceiptsSound(hadFile: bool, log: Log, i: nat)
    requires ValidLog(hadFile, log) && i < |log|
    ensures ProjectionValid(log[i].plan.receipt)
  {
    hide PlanFor, ProjectionValid;
    Prefixes(hadFile, log, i + 1);
    var upto := log[..i + 1];
    assert upto[..|upto| - 1] == log[..i] && upto[i] == log[i];
    LastCommit(hadFile, upto);
    LockSound(hadFile, upto);
    ReceiptSound(log[i].job, LockAfter(log[..i]), hadFile || log[..i] != []);
  }

  /** A pack's receipts name the pack, and the latest one projects to its entry. */
  predicate ChainTipOk(id: PackId, entry: Entry) {
    && entry.receipts != []
    && (forall i :: 0 <= i < |entry.receipts| ==> entry.receipts[i].identity.pack == id)
    && var last := entry.receipts[|entry.receipts| - 1].identity; id in last.next && last.next[id] == entry.pin
  }

  lemma {:induction false} ChainTips(hadFile: bool, log: Log, id: PackId)
    requires ValidLog(hadFile, log) && id in LockAfter(log)
    ensures ChainTipOk(id, LockAfter(log)[id])
  {
    hide PlanFor, ValidLog, NextPin, SourceResolved;
    var before, c := log[..|log| - 1], log[|log| - 1];
    LastCommit(hadFile, log);
    PlanEffect(c.job, LockAfter(before), hadFile || before != []);
    if id in LockAfter(before) {
      ChainTips(hadFile, before, id);
    }
  }

  lemma ChainAccepted(hadFile: bool, log: Log, fs: Files, id: PackId)
    requires ValidLog(hadFile, log) && Tidy(hadFile, fs, log) && id in fs.lock
    ensures ChainMatches(fs.receipts, id, fs.lock[id]) && fs.lock[id].receipts != []
  {
    hide PlanFor, ProjectionValid;
    ChainTips(hadFile, log, id);
    var entry := fs.lock[id];
    forall i | 0 <= i < |entry.receipts|
      ensures ReceiptMatches(fs.receipts, id, entry.receipts[i])
    {
      ListedReceiptsRecorded(hadFile, log, id, entry.receipts[i]);
      var k :| 0 <= k < |log| && Receipts(log)[k] == entry.receipts[i];
      RecordedReceiptsSound(hadFile, log, k);
    }
  }

  lemma GenuineManifest(id: PackId, pin: Pin, code: FindingCode)
    requires GenuinePin(id, pin)
    ensures !ManifestFault(pin.treeSha.of, id, pin, code)
  {
  }

  lemma EntryAccepted(hadFile: bool, log: Log, fs: Files, id: PackId, code: FindingCode)
    requires ValidLog(hadFile, log) && Tidy(hadFile, fs, log) && id in fs.lock
    ensures !EntryFault(fs, id, code)
  {
    hide PlanFor, ChainMatches, GenuinePin, ManifestFault, ValidLog, ReceiptsPresent, Genuine;
    EntriesGenuine(hadFile, log, id);
    GenuineManifest(id, fs.lock[id].pin, code);
    ChainAccepted(hadFile, log, fs, id);
    assert Matches(fs.bundles, BundleOf(id, fs.lock[id].pin));
  }

  lemma ReceiptFilesAccepted(hadFile: bool, log: Log, fs: Files, r: ReceiptId)
    requires ValidLog(hadFile, log) && Tidy(hadFile, fs, log) && r in fs.receipts
    ensures ReceiptMatches(fs.receipts, r.identity.pack, r)
  {
    hide PlanFor, ProjectionValid;
    var k :| 0 <= k < |log| && Receipts(log)[k] == r;
    RecordedReceiptsSound(hadFile, log, k);
  }

  lemma PairsAccepted(active: Lock, order: seq<PackId>, code: FindingCode, a: PackId)
    requires ComposedEntries(active) && Enumerates(order, active.Keys)
    ensures !FoundBefore(active, order, |order|, code, a)
  {
    forall i, k | 0 <= i < k < |order|
      ensures !PairFault(code, order[i], active[order[i]].pin, order[k], active[order[k]].pin)
    {
      assert order[i] in active && order[k] in active && order[i] != order[k];
      PairAccepted(code, order[i], active[order[i]].pin, order[k], active[order[k]].pin);
    }
  }

  lemma PairAccepted(code: FindingCode, a: PackId, p: Pin, b: PackId, q: Pin)
    requires !Clash(a, p, b, q)
    ensures !PairFault(code, a, p, b, q)
  {
    if code == SlotFound && ValidatorSlotClash(p, q) {
      var kind: SlotKind :| ValidatorRowsClash(p.slots.Of(kind), q.slots.Of(kind));
      ValidatorClashIsClash(p.slots.Of(kind), q.slots.Of(kind));
      assert false;
    }
  }

  /** Files that hold exactly what the commits account for give the validator nothing to report. */
  lemma NothingToReport(hadFile: bool, log: Log, fs: Files, order: seq<PackId>, f: Finding)
    requires ValidLog(hadFile, log) && Tidy(hadFile, fs, log) && Enumerates(order, ActiveEntries(fs.lock, None).Keys)
    ensures !Justified(fs, order, f)
  {
    hide PlanFor, EntryFault, ReceiptMatches, ComposedEntries, PairFault, LockOk, Consistent, ValidLog;
    var active := ActiveEntries(fs.lock, None);
    if f.pack in fs.lock {
      EntryAccepted(hadFile, log, fs, f.pack, f.code);
    }
    forall r | r in fs.receipts && r.identity.pack == f.pack ensures ReceiptMatches(fs.receipts, f.pack, r) {
      ReceiptFilesAccepted(hadFile, log, fs, r);
    }
    LockSound(hadFile, log);
    PairsAccepted(active, order, f.code, f.pack);
    DependenciesAccepted(active);
  }

  lemma DependenciesAccepted(active: Lock)
    requires ComposedEntries(active)
    ensures forall id :: id in active ==> DependenciesMet(active[id].pin, active)
  {
  }

  // ----- when composition succeeds ----------------------------------------------------------

  lemma GenuineReadable(id: PackId, pin: Pin)
    requires GenuinePin(id, pin)
    ensures EntryReadable(id, pin)
  {
  }

  lemma LabelledIdentifiers(id: PackId, pin: Pin, l: string, n: string)
    requires GenuinePin(id, pin) && Has(DeclaredLabels(pin.treeSha.of), l, n)
    ensures n in Identifiers(id, pin.capabilities, pin.treeSha.of.eventKinds)
    ensures IsPackId(id) && CapabilitiesOk(id, pin.capabilities) && EventKindsOk(id, pin.treeSha.of.eventKinds)
  {
  }

  lemma SharedPageTypeClashes(a: PackId, p: Pin, b: PackId, q: Pin, n: string)
    requires n in p.capabilities.pageTypes && n in q.capabilities.pageTypes
    ensures Clash(a, p, b, q)
  {
    assert n in p.capabilities.Of(PageTypes) && n in q.capabilities.Of(PageTypes);
    assert SharesName(OWNED_CAPABILITIES[0], p.capabilities, q.capabilities);
  }

  /** An identifier two compatible packs both label would be a page type both declare. */
  lemma CompatibleShareNothing(a: PackId, p: Pin, b: PackId, q: Pin)
    requires a != b && GenuinePin(a, p) && GenuinePin(b, q) && !Clash(a, p, b, q)
    ensures !SharesIdentifier(DeclaredLabels(p.treeSha.of), DeclaredLabels(q.treeSha.of))
  {
    hide GenuinePin, Identifiers, CapabilitiesOk, EventKindsOk, Clash;
    if l, n :| Has(DeclaredLabels(p.treeSha.of), l, n) && Has(DeclaredLabels(q.treeSha.of), l, n) {
      LabelledIdentifiers(a, p, l, n);
      LabelledIdentifiers(b, q, l, n);
      IdentifiersMeetOnlyInPageTypes(a, b, p.capabilities, q.capabilities,
                                     p.treeSha.of.eventKinds, q.treeSha.of.eventKinds);
      assert n in Elements(p.capabilities.pageTypes) * Elements(q.capabilities.pageTypes);
      SharedPageTypeClashes(a, p, b, q, n);
      assert false;
    }
  }

  /**
   Every lock the lifecycle leaves composes exactly when its active packs declare the same
   locales; no identifier conflict can arise.
   */
  lemma ComposesIffSameLocales(hadFile: bool, log: Log)
    requires ValidLog(hadFile, log)
    ensures var active := ActiveEntries(LockAfter(log), None);
            && AllReadable(active)
            && IdentifiersDisjoint(PartsOf(active))
            && (Composes(active) <==> SameLocales(PartsOf(active)))
  {
    hide PlanFor, GenuinePin, EntryReadable, Clash, SharesIdentifier, LockOk;
    var active := ActiveEntries(LockAfter(log), None);
    LockSound(hadFile, log);
    forall id | id in active ensures EntryReadable(id, active[id].pin) {
      EntriesGenuine(hadFile, log, id);
      GenuineReadable(id, active[id].pin);
    }
    forall a, b | a in active && b in active && a != b
      ensures !SharesIdentifier(PartsOf(active)[a], PartsOf(active)[b])
    {
      EntriesGenuine(hadFile, log, a);
      EntriesGenuine(hadFile, log, b);
      CompatibleShareNothing(a, active[a].pin, b, active[b].pin);
    }
  }

  // ----- the whole validation ---------------------------------------------------------------

  lemma DriftIsFound(fs: Files, order: seq<PackId>)
    requires Enumerates(order, ActiveEntries(fs.lock, None).Keys) && forall f :: !Justified(fs, order, f)
    ensures BundlesPresent(fs.lock, fs.bundles)
  {
    forall id | id in fs.lock
      ensures Matches(fs.bundles, BundleOf(id, fs.lock[id].pin))
    {
      assert !Justified(fs, order, Finding(BundleDrift, id));
    }
  }

  /** The validator's status: no finding, and the composition succeeds. */
  method InstallationValid(fs: Files, order: seq<PackId>) returns (valid: bool)
    requires Enumerates(order, ActiveEntries(fs.lock, None).Keys)
    ensures valid <==> (forall f :: !Justified(fs, order, f)) && Composes(ActiveEntries(fs.lock, None))
  {
    hide Justified, Composes, IsCompositionOf;
    var errors := ValidateInstallation(fs, order);
    if errors != {} {
      var f :| f in errors;
      return false;
    }
    DriftIsFound(fs, order);
    var composed := ComposeActivePacks(fs.lock, _ => fs.bundles);
    return composed.Ok?;
  }

  /**
   An installation made of completed and fully rolled-back operations is valid exactly when all
   active packs declare the same locales. Nothing checks that when a pack is installed.
   */
  lemma ValidIffSameLocales(hadFile: bool, log: Log, fs: Files, order: seq<PackId>)
    requires ValidLog(hadFile, log) && Tidy(hadFile, fs, log) && Enumerates(order, ActiveEntries(fs.lock, None).Keys)
    ensures (forall f :: !Justified(fs, order, f)) && BundlesPresent(fs.lock, fs.bundles)
    ensures Composes(ActiveEntries(fs.lock, None)) <==> SameLocales(PartsOf(ActiveEntries(fs.lock, None)))
  {
    hide PlanFor, Justified, Composes, SameLocales, ValidLog;
    forall f ensures !Justified(fs, order, f) {
      NothingToReport(hadFile, log, fs, order, f);
    }
    ComposesIffSameLocales(hadFile, log);
  }
}
