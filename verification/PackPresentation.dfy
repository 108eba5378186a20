/**
 Composition of the active packs: their labels, read from installed bundles file by file while other
 processes may be changing them, and merged into one catalog per locale.
 */
module PackPresentation {
  import opened Outcomes
  import opened PackModel
  import opened PackNames
  import opened PackPlanning
  import opened PackMachine

  // ----- what a lock composes to ------------------------------------------------------------

  type Labels = map<string, map<string, string>>

  datatype Contribution = Contribution(kind: SlotKind, pack: PackId, row: SlotRow)

  /** The source's sorted lists, as the sets they list. */
  datatype Composition = Composition(
    packs: map<PackId, Version>, blockPackages: set<string>, contributions: set<Contribution>, labels: Labels)

  /** The catalogs of the declared locales; the loader reads no other. */
  function DeclaredLabels(tree: Tree): Labels {
    map l | l in tree.manifest.locales && l in tree.labels :: tree.labels[l]
  }

  function LabelsOf(e: Entry): Labels { DeclaredLabels(e.pin.treeSha.of) }

  type Parts = map<PackId, Labels>

  /** Each active pack's labels, as its pinned bundle has them. */
  function PartsOf(active: Lock): Parts { map id | id in active :: LabelsOf(active[id]) }

  predicate SameLocales(parts: Parts) {
    forall a, b :: a in parts && b in parts ==> parts[a].Keys == parts[b].Keys
  }

  predicate Has(labels: Labels, l: string, n: string) { l in labels && n in labels[l] }

  ghost predicate SharesIdentifier(x: Labels, y: Labels) {
    exists l, n :: Has(x, l, n) && Has(y, l, n)
  }

  ghost predicate IdentifiersDisjoint(parts: Parts) {
    forall a, b :: a in parts && b in parts && a != b ==> !SharesIdentifier(parts[a], parts[b])
  }

  predicate EntryReadable(id: PackId, pin: Pin) {
    var tree := pin.treeSha.of;
    && pin.manifestSha == Sha(tree.manifest)
    && tree.manifest.id == id && tree.manifest.version == pin.version
    && PresentationFor(tree, id, pin.capabilities)
  }

  predicate AllReadable(active: Lock) { forall id :: id in active ==> EntryReadable(id, active[id].pin) }

  /** What composition demands of the active entries themselves. */
  ghost predicate Composes(active: Lock) {
    AllReadable(active) && SameLocales(PartsOf(active)) && IdentifiersDisjoint(PartsOf(active))
  }

  ghost predicate SomeHas(parts: Parts, l: string, n: string) {
    exists id :: id in parts && Has(parts[id], l, n)
  }

  predicate CommonLocales(parts: Parts, locales: set<string>) {
    forall id :: id in parts ==> parts[id].Keys == locales
  }

  ghost predicate SameNames(parts: Parts, labels: Labels) {
    forall l, n :: Has(labels, l, n) <==> SomeHas(parts, l, n)
  }

  ghost predicate SameValues(parts: Parts, labels: Labels) {
    forall id, l, n :: id in parts && Has(parts[id], l, n) && Has(labels, l, n) ==> labels[l][n] == parts[id][l][n]
  }

  function Blank(locales: set<string>): Labels { map l | l in locales :: map[] }

  /** `labels` holds, per locale, every label of the packs and no other. */
  ghost predicate IsMerge(parts: Parts, labels: Labels) {
    && (parts == map[] ==> labels == Blank(REQUIRED_LOCALES))
    && CommonLocales(parts, labels.Keys)
    && SameNames(parts, labels)
    && SameValues(parts, labels)
  }

  lemma MergeAgrees(parts: Parts, x: Labels, y: Labels, l: string, n: string)
    requires IsMerge(parts, x) && IsMerge(parts, y) && Has(x, l, n)
    ensures Has(y, l, n) && x[l][n] == y[l][n]
  {
    assert SomeHas(parts, l, n);
    var id :| id in parts && Has(parts[id], l, n);
  }

  lemma MergeAgreesAt(parts: Parts, x: Labels, y: Labels, l: string)
    requires IsMerge(parts, x) && IsMerge(parts, y) && l in x && l in y
    ensures x[l] == y[l]
  {
    forall n | n in x[l] ensures n in y[l] && x[l][n] == y[l][n] {
      assert Has(x, l, n);
      MergeAgrees(parts, x, y, l, n);
    }
    forall n | n in y[l] ensures n in x[l] {
      assert Has(y, l, n);
      MergeAgrees(parts, y, x, l, n);
    }
  }

  lemma MergeUnique(parts: Parts, x: Labels, y: Labels)
    requires IsMerge(parts, x) && IsMerge(parts, y)
    ensures x == y
  {
    hide SameNames, SameValues;
    if parts != map[] {
      var id :| id in parts;
      assert x.Keys == parts[id].Keys == y.Keys;
      forall l | l in x { MergeAgreesAt(parts, x, y, l); }
    }
  }

  function AllContributions(active: Lock): set<Contribution> {
    set id, kind, row | id in active && kind in Elements(SLOT_KINDS) && row in active[id].pin.slots.Of(kind)
      :: Contribution(kind, id, row)
  }

  /** Exactly the active packs, each at its version. */
  ghost predicate ListsPacks(lock: Lock, packs: map<PackId, Version>) {
    forall id :: (id in packs <==> ActiveIn(lock, id)) && (id in packs ==> packs[id] == lock[id].pin.version)
  }

  /** Exactly the block packages some active pack declares. */
  ghost predicate ListsBlockPackages(lock: Lock, names: set<string>) {
    forall name :: name in names <==> exists id :: ActiveIn(lock, id) && name in lock[id].pin.capabilities.blockPackages
  }

  /** Exactly the rows of the active packs, each under its kind and with its pack. */
  ghost predicate ListsRows(lock: Lock, rows: set<Contribution>) {
    forall id, row ::
      && (Contribution(ViewSlots, id, row) in rows <==> ActiveIn(lock, id) && row in lock[id].pin.slots.views)
      && (Contribution(CommandSlots, id, row) in rows <==> ActiveIn(lock, id) && row in lock[id].pin.slots.commands)
      && (Contribution(OperationSlots, id, row) in rows <==> ActiveIn(lock, id) && row in lock[id].pin.slots.operations)
      && (Contribution(TimelineSlots, id, row) in rows <==> ActiveIn(lock, id) && row in lock[id].pin.slots.timelines)
  }

  /** The composition of a lock, said of the lock alone, whatever is on disk. */
  ghost predicate IsCompositionOf(lock: Lock, c: Composition) {
    && ListsPacks(lock, c.packs)
    && ListsBlockPackages(lock, c.blockPackages)
    && ListsRows(lock, c.contributions)
    && IsMerge(PartsOf(ActiveEntries(lock, None)), c.labels)
  }

  lemma SameRows(lock: Lock, x: set<Contribution>, y: set<Contribution>)
    requires ListsRows(lock, x) && ListsRows(lock, y)
    ensures x == y
  {
    forall c: Contribution
      ensures c in x <==> c in y
    {
      var Contribution(kind, id, row) := c;
      match kind
      case ViewSlots =>
      case CommandSlots =>
      case OperationSlots =>
      case TimelineSlots =>
    }
  }

  lemma CompositionUnique(lock: Lock, c: Composition, d: Composition)
    requires IsCompositionOf(lock, c) && IsCompositionOf(lock, d)
    ensures c == d
  {
    hide IsMerge;
    MergeUnique(PartsOf(ActiveEntries(lock, None)), c.labels, d.labels);
    SameRows(lock, c.contributions, d.contributions);
    assert c.packs == d.packs;
    assert forall name :: name in c.blockPackages <==> name in d.blockPackages;
  }

  // ----- reading one pack -------------------------------------------------------------------

  /** What is on disk at each read: other processes may write between any two. */
  type Disk = nat -> map<BundlePath, Tree>

  /** Nobody touches the bundle from one read to another. */
  ghost predicate Undisturbed(disk: Disk, from: nat, to: nat, o: Owned) {
    forall n :: from <= n < to ==> Matches(disk(n), o)
  }

  /** The objections to reading a bundle. */
  predicate Unread(code: Code) { code == InstalledBundleDrift || code == InstalledManifestDrift || code == PresentationInvalid }

  /** The walk over the bundle's files, part by part, against the pinned digest of them all. */
  method WalkBundle(disk: Disk, at: nat, o: Owned, pinned: Sha<Tree>) returns (r: Result<Tree, Code>, next: nat)
    requires pinned == Sha(o.tree)
    ensures next == at + 5
    ensures r.Err? ==> Unread(r.error)
    ensures r.Ok? ==> r.value == o.tree
    ensures Undisturbed(disk, at, next, o) ==> r.Ok?
  {
    next := at + 5;
    if o.path !in disk(at) || o.path !in disk(at + 1) || o.path !in disk(at + 2) || o.path !in disk(at + 3)
       || o.path !in disk(at + 4)
    {
      r := Err(InstalledBundleDrift);
      return;
    }
    var tree := Tree(disk(at)[o.path].manifest, disk(at + 1)[o.path].migrations, disk(at + 2)[o.path].eventKinds,
                     disk(at + 3)[o.path].labels, disk(at + 4)[o.path].otherFiles);
    r := if Sha(tree) == pinned then Ok(tree) else Err(InstalledBundleDrift);
  }

  /** The manifest, read again and checked against its own digest. */
  method ReadManifest(disk: Disk, at: nat, o: Owned, id: PackId, pin: Pin, walked: Tree) returns (r: Result<Manifest, Code>)
    requires walked == o.tree == pin.treeSha.of
    ensures r.Err? ==> Unread(r.error)
    ensures r.Ok? ==> r.value == walked.manifest
    ensures r.Ok? ==> pin.manifestSha == Sha(walked.manifest) && r.value.id == id && r.value.version == pin.version
    ensures (&& Matches(disk(at), o) && pin.manifestSha == Sha(walked.manifest)
             && walked.manifest.id == id && walked.manifest.version == pin.version) ==>
              r.Ok?
  {
    if o.path !in disk(at) {
      return Err(InstalledBundleDrift);
    }
    var manifest := disk(at)[o.path].manifest;
    if Sha(manifest) != pin.manifestSha || Sha(walked.manifest) != pin.manifestSha {
      return Err(InstalledManifestDrift);
    }
    if manifest.id != id || manifest.version != pin.version {
      return Err(InstalledManifestDrift);
    }
    return Ok(manifest);
  }

  /** The event kinds, read again and checked against what the walk saw. */
  method ReadEventKinds(disk: Disk, at: nat, o: Owned, id: PackId, walked: Tree) returns (r: Result<set<string>, Code>)
    requires walked == o.tree
    ensures r.Err? ==> Unread(r.error)
    ensures r.Ok? ==> r.value == walked.eventKinds && EventKindsOk(id, r.value)
    ensures Matches(disk(at), o) && EventKindsOk(id, walked.eventKinds) ==> r.Ok?
  {
    if o.path !in disk(at) || disk(at)[o.path].eventKinds != walked.eventKinds {
      return Err(InstalledBundleDrift);
    }
    var kinds := disk(at)[o.path].eventKinds;
    var fine := EventKindsOk(id, kinds);
    return if fine then Ok(kinds) else Err(PresentationInvalid);
  }

  /** One locale's catalog, read again and checked against what the walk saw. */
  method ReadCatalog(disk: Disk, at: nat, o: Owned, locale: string, identifiers: set<string>, walked: Tree)
    returns (r: Result<map<string, string>, Code>)
    requires walked == o.tree
    ensures r.Err? ==> Unread(r.error)
    ensures r.Ok? ==> locale in walked.labels && r.value == walked.labels[locale] && r.value.Keys == identifiers
    ensures Matches(disk(at), o) && locale in walked.labels && walked.labels[locale].Keys == identifiers ==> r.Ok?
  {
    if o.path !in disk(at) || locale !in disk(at)[o.path].labels {
      return Err(InstalledBundleDrift);
    }
    var catalog := disk(at)[o.path].labels[locale];
    if locale !in walked.labels || walked.labels[locale] != catalog {
      return Err(InstalledBundleDrift);
    }
    return if catalog.Keys == identifiers then Ok(catalog) else Err(PresentationInvalid);
  }

  /** The declared catalogs, one read each, in any order. */
  method ReadCatalogs(disk: Disk, at: nat, o: Owned, locales: set<string>, identifiers: set<string>, walked: Tree)
    returns (r: Result<Labels, Code>, next: nat)
    requires walked == o.tree && locales == walked.manifest.locales
    ensures next >= at
    ensures r.Err? ==> Unread(r.error)
    ensures r.Ok? ==> r.value == DeclaredLabels(walked) && locales <= walked.labels.Keys
    ensures r.Ok? ==> forall l :: l in locales ==> walked.labels[l].Keys == identifiers
    ensures r.Err? && Undisturbed(disk, at, next, o) ==>
              !(locales <= walked.labels.Keys && forall l :: l in locales ==> walked.labels[l].Keys == identifiers)
  {
    var localized: Labels := map[];
    var rest := locales;
    next := at;
    while rest != {}
      invariant rest <= locales && next >= at && localized.Keys == locales - rest
      invariant forall l :: l in localized ==>
                  l in walked.labels && localized[l] == walked.labels[l] && localized[l].Keys == identifiers
      decreases rest
    {
      var l :| l in rest;
      var catalog := ReadCatalog(disk, next, o, l, identifiers, walked);
      next := next + 1;
      if catalog.Err? {
        assert Undisturbed(disk, at, next, o) ==> Matches(disk(next - 1), o);
        r := Err(catalog.error);
        return;
      }
      localized, rest := localized[l := catalog.value], rest - {l};
    }
    r := Ok(localized);
  }

  /**
   One pack's labels, every file read for itself. What is accepted is what the lock pins, whatever other
   processes do in between; a bundle nobody touches is refused only if the entry itself is unreadable.
   */
  method LoadPresentation(disk: Disk, at: nat, id: PackId, entry: Entry) returns (r: Result<Labels, Code>, next: nat)
    ensures next >= at
    ensures r.Err? ==> Unread(r.error)
    ensures r.Ok? ==> EntryReadable(id, entry.pin) && r.value == LabelsOf(entry)
    ensures r.Err? && Undisturbed(disk, at, next, BundleOf(id, entry.pin)) ==> !EntryReadable(id, entry.pin)
  {
    hide IsCapabilityName, Identifiers, EventKindsOk, DeclaredLabels;
    var o := BundleOf(id, entry.pin);
    var walk, afterWalk := WalkBundle(disk, at, o, entry.pin.treeSha);
    next := afterWalk;
    if walk.Err? {
      r := Err(walk.error);
      return;
    }
    var manifest := ReadManifest(disk, next, o, id, entry.pin, walk.value);
    next := next + 1;
    if manifest.Err? {
      assert Undisturbed(disk, at, next, o) ==> Matches(disk(next - 1), o);
      r := Err(manifest.error);
      return;
    }
    var kinds := ReadEventKinds(disk, next, o, id, walk.value);
    next := next + 1;
    if kinds.Err? {
      assert Undisturbed(disk, at, next, o) ==> Matches(disk(next - 1), o);
      r := Err(kinds.error);
      return;
    }
    if !(REQUIRED_LOCALES <= manifest.value.locales) {
      r := Err(PresentationInvalid);
      return;
    }
    var identifiers := Identifiers(id, entry.pin.capabilities, kinds.value);
    ghost var before := next;
    r, next := ReadCatalogs(disk, next, o, manifest.value.locales, identifiers, walk.value);
    assert Undisturbed(disk, at, next, o) ==> Undisturbed(disk, before, next, o);
  }

  // ----- merging ----------------------------------------------------------------------------

  /** Locale by locale: refuse a shared identifier, otherwise add the pack's labels. */
  method MergeLabels(labels: Labels, mine: Labels) returns (r: Result<Labels, Code>)
    requires labels.Keys == mine.Keys
    ensures r.Ok? <==> !SharesIdentifier(labels, mine)
    ensures r.Err? ==> r.error == IdentifierConflict
    ensures r.Ok? ==> r.value == Overlaid(labels, mine)
  {
    var merged := labels;
    var rest := mine.Keys;
    while rest != {}
      invariant rest <= mine.Keys && merged.Keys == labels.Keys
      invariant forall l :: l in labels ==> merged[l] == if l in rest then labels[l] else labels[l] + mine[l]
      invariant forall l, n :: l in labels && l !in rest && n in labels[l] ==> n !in mine[l]
    {
      var l :| l in rest;
      var overlap := labels[l].Keys * mine[l].Keys;
      if overlap != {} {
        var n :| n in overlap;
        assert Has(labels, l, n) && Has(mine, l, n);
        return Err(IdentifierConflict);
      }
      forall n | n in labels[l] ensures n !in mine[l] {
        assert (n in overlap) == (n in mine[l]);
      }
      merged := merged[l := merged[l] + mine[l]];
      rest := rest - {l};
    }
    return Ok(merged);
  }

  function Overlaid(labels: Labels, mine: Labels): Labels
    requires labels.Keys == mine.Keys
  {
    map l | l in labels :: labels[l] + mine[l]
  }

  lemma NamesGrow(parts: Parts, labels: Labels, id: PackId, mine: Labels)
    requires id !in parts && labels.Keys == mine.Keys && SameNames(parts, labels)
    ensures SameNames(parts[id := mine], Overlaid(labels, mine))
  {
    var grown, next := parts[id := mine], Overlaid(labels, mine);
    forall l, n ensures Has(next, l, n) <==> SomeHas(grown, l, n) {
      assert Has(next, l, n) <==> Has(labels, l, n) || Has(mine, l, n);
      if SomeHas(parts, l, n) {
        var o :| o in parts && Has(parts[o], l, n);
        assert o in grown && grown[o] == parts[o];
      }
      if Has(mine, l, n) {
        assert id in grown && grown[id] == mine;
      }
    }
  }

  lemma ValuesGrow(parts: Parts, labels: Labels, id: PackId, mine: Labels)
    requires id !in parts && labels.Keys == mine.Keys && SameNames(parts, labels) && SameValues(parts, labels)
    requires !SharesIdentifier(labels, mine)
    ensures SameValues(parts[id := mine], Overlaid(labels, mine))
  {
    var grown, next := parts[id := mine], Overlaid(labels, mine);
    forall o, l, n | o in grown && Has(grown[o], l, n) && Has(next, l, n)
      ensures next[l][n] == grown[o][l][n]
    {
      if o != id {
        assert SomeHas(parts, l, n);
        assert Has(labels, l, n) && !Has(mine, l, n);
      }
    }
  }

  /** Adding one pack's labels to a merge that shares none of them. */
  lemma MergeGrows(parts: Parts, labels: Labels, id: PackId, mine: Labels)
    requires id !in parts && labels.Keys == mine.Keys && !SharesIdentifier(labels, mine)
    requires CommonLocales(parts, labels.Keys) && SameNames(parts, labels) && SameValues(parts, labels)
    ensures IsMerge(parts[id := mine], Overlaid(labels, mine))
  {
    NamesGrow(parts, labels, id, mine);
    ValuesGrow(parts, labels, id, mine);
    assert id in parts[id := mine];
  }

  /** A label already merged and one about to be: two packs share it. */
  lemma OverlapIffPair(parts: Parts, labels: Labels, mine: Labels)
    requires SameNames(parts, labels)
    ensures SharesIdentifier(labels, mine) <==> exists o :: o in parts && SharesIdentifier(parts[o], mine)
  {
  }

  lemma DisjointGrows(parts: Parts, id: PackId, mine: Labels)
    requires id !in parts && IdentifiersDisjoint(parts)
    requires forall o :: o in parts ==> !SharesIdentifier(parts[o], mine)
    ensures IdentifiersDisjoint(parts[id := mine])
  {
  }

  /** Everything in `labels` comes from the packs, in their common locales. */
  ghost predicate MergedSoFar(parts: Parts, labels: Labels) {
    CommonLocales(parts, labels.Keys) && SameNames(parts, labels) && SameValues(parts, labels)
  }

  lemma FreshStart(locales: set<string>)
    ensures MergedSoFar(map[], Blank(locales))
  {
  }

  lemma PairOverlap(parts: Parts, id: PackId, mine: Labels, other: PackId)
    requires id !in parts && other in parts && SharesIdentifier(parts[other], mine)
    ensures !IdentifiersDisjoint(parts[id := mine])
  {
    var grown := parts[id := mine];
    assert SharesIdentifier(grown[other], grown[id]);
  }

  method MergeInto(ghost parts: Parts, labels: Labels, ghost id: PackId, mine: Labels) returns (r: Result<Labels, Code>)
    requires id !in parts && MergedSoFar(parts, labels) && IdentifiersDisjoint(parts) && labels.Keys == mine.Keys
    ensures r.Ok? ==> IsMerge(parts[id := mine], r.value) && IdentifiersDisjoint(parts[id := mine])
    ensures r.Err? ==> r.error == IdentifierConflict && !IdentifiersDisjoint(parts[id := mine])
  {
    r := MergeLabels(labels, mine);
    OverlapIffPair(parts, labels, mine);
    if r.Err? {
      ghost var other :| other in parts && SharesIdentifier(parts[other], mine);
      PairOverlap(parts, id, mine, other);
    } else {
      DisjointGrows(parts, id, mine);
      MergeGrows(parts, labels, id, mine);
    }
  }

  /** The two objections to merging, each with its reason. */
  ghost predicate Blames(parts: Parts, code: Code) {
    || (code == LocaleSetMismatch && !SameLocales(parts))
    || (code == IdentifierConflict && !IdentifiersDisjoint(parts))
  }

  /** One turn of the loop: the first pack sets the locales, later ones must agree. */
  method AddPack(ghost parts: Parts, labels: Labels, first: bool, ghost id: PackId, mine: Labels)
    returns (r: Result<Labels, Code>)
    requires id !in parts && IsMerge(parts, labels) && IdentifiersDisjoint(parts)
    requires first <==> parts == map[]
    ensures r.Ok? ==> IsMerge(parts[id := mine], r.value) && IdentifiersDisjoint(parts[id := mine])
    ensures r.Err? ==> Blames(parts[id := mine], r.error)
  {
    if first {
      FreshStart(mine.Keys);
      r := MergeInto(parts, Blank(mine.Keys), id, mine);
    } else if labels.Keys != mine.Keys {
      ghost var other :| other in parts;
      assert parts[id := mine][other].Keys != parts[id := mine][id].Keys;
      r := Err(LocaleSetMismatch);
    } else {
      r := MergeInto(parts, labels, id, mine);
    }
  }

  /** Some of the active packs, all of them readable, and the labels merged from exactly those. */
  ghost predicate ReadSoFar(active: Lock, parts: Parts, labels: Labels) {
    && parts.Keys <= active.Keys
    && (forall id :: id in parts ==> parts[id] == LabelsOf(active[id]) && EntryReadable(id, active[id].pin))
    && IsMerge(parts, labels) && IdentifiersDisjoint(parts)
  }

  lemma NothingRead(active: Lock)
    ensures ReadSoFar(active, map[], Blank(REQUIRED_LOCALES))
  {
    FreshStart(REQUIRED_LOCALES);
  }

  lemma PartComposes(active: Lock, parts: Parts)
    requires parts.Keys <= active.Keys && forall id :: id in parts ==> parts[id] == LabelsOf(active[id])
    ensures forall code :: Blames(parts, code) ==> Blames(PartsOf(active), code)
  {
    hide LabelsOf, SharesIdentifier;
    var all := PartsOf(active);
    assert forall id :: id in parts ==> id in all && parts[id] == all[id];
  }

  /** Read one more pack and merge it. Undisturbed, a refusal means the lock itself does not compose. */
  method ReadOne(active: Lock, ghost parts: Parts, labels: Labels, first: bool, id: PackId, disk: Disk, at: nat)
    returns (r: Result<Labels, Code>, next: nat)
    requires ReadSoFar(active, parts, labels) && id in active && id !in parts && (first <==> parts == map[])
    ensures next >= at
    ensures r.Ok? ==> ReadSoFar(active, parts[id := LabelsOf(active[id])], r.value)
    ensures r.Err? ==> Unread(r.error) || Blames(PartsOf(active), r.error)
    ensures r.Err? && Unread(r.error) && Undisturbed(disk, at, next, BundleOf(id, active[id].pin)) ==> !AllReadable(active)
  {
    hide PresentationFor, LabelsOf, Blames, EntryReadable, IsMerge, IdentifiersDisjoint, PartsOf;
    var loaded, after := LoadPresentation(disk, at, id, active[id]);
    next := after;
    if loaded.Err? {
      r := Err(loaded.error);
      return;
    }
    r := AddPack(parts, labels, first, id, loaded.value);
    if r.Err? {
      PartComposes(active, parts[id := LabelsOf(active[id])]);
    }
  }

  lemma CommonMeansSame(parts: Parts, locales: set<string>)
    requires CommonLocales(parts, locales)
    ensures SameLocales(parts)
  {
  }

  lemma AllRead(active: Lock, parts: Parts, labels: Labels)
    requires ReadSoFar(active, parts, labels) && parts.Keys == active.Keys
    ensures IsMerge(PartsOf(active), labels) && Composes(active)
  {
    hide PresentationFor;
    assert parts == PartsOf(active);
    CommonMeansSame(parts, labels.Keys);
  }

  lemma NotComposed(active: Lock, code: Code)
    requires Blames(PartsOf(active), code) || !AllReadable(active)
    ensures !Composes(active)
  {
  }

  /** The presentation loop, over one lock value and whatever is on disk at each read. */
  method ComposePresentation(active: Lock, disk: Disk) returns (r: Result<Labels, Code>)
    ensures r.Ok? ==> IsMerge(PartsOf(active), r.value) && Composes(active)
    ensures r.Err? ==> Unread(r.error) || Blames(PartsOf(active), r.error)
    ensures r.Err? && Unread(r.error) && (forall n :: BundlesPresent(active, disk(n))) ==> !AllReadable(active)
    ensures (forall n :: BundlesPresent(active, disk(n))) ==> (r.Ok? <==> Composes(active))
  {
    hide Composes, LabelsOf, ReadSoFar, PartsOf, IsMerge, Blames, AllReadable, Unread;
    ghost var parts: Parts := map[];
    var labels := Blank(REQUIRED_LOCALES);
    var rest := active.Keys;
    var at := 0;
    NothingRead(active);
    while rest != {}
      invariant rest <= active.Keys && parts.Keys == active.Keys - rest
      invariant ReadSoFar(active, parts, labels)
      decreases rest
    {
      var id :| id in rest;
      ghost var from := at;
      var added, next := ReadOne(active, parts, labels, rest == active.Keys, id, disk, at);
      at := next;
      if added.Err? {
        assert (forall n :: BundlesPresent(active, disk(n))) ==> Undisturbed(disk, from, at, BundleOf(id, active[id].pin));
        if !Unread(added.error) || forall n :: BundlesPresent(active, disk(n)) { NotComposed(active, added.error); }
        return Err(added.error);
      }
      labels, parts, rest := added.value, parts[id := LabelsOf(active[id])], rest - {id};
    }
    AllRead(active, parts, labels);
    return Ok(labels);
  }

  function ComposedOf(active: Lock, labels: Labels): Composition {
    Composition(
      map id | id in active :: active[id].pin.version,
      set id, name | id in active && name in active[id].pin.capabilities.blockPackages :: name,
      AllContributions(active),
      labels)
  }

  lemma RowsListed(lock: Lock)
    ensures ListsRows(lock, AllContributions(ActiveEntries(lock, None)))
  {
    var active := ActiveEntries(lock, None);
    forall id, row, kind: SlotKind
      ensures Contribution(kind, id, row) in AllContributions(active) <==> id in active && row in active[id].pin.slots.Of(kind)
    {
      match kind
      case ViewSlots => assert SLOT_KINDS[0] == kind;
      case CommandSlots => assert SLOT_KINDS[1] == kind;
      case OperationSlots => assert SLOT_KINDS[2] == kind;
      case TimelineSlots => assert SLOT_KINDS[3] == kind;
    }
  }

  lemma ComposedLists(lock: Lock, labels: Labels)
    ensures var c := ComposedOf(ActiveEntries(lock, None), labels);
            ListsPacks(lock, c.packs) && ListsBlockPackages(lock, c.blockPackages) && ListsRows(lock, c.contributions)
  {
    hide AllContributions, ListsRows;
    RowsListed(lock);
    var active := ActiveEntries(lock, None);
    var c := ComposedOf(active, labels);
    forall name
      ensures name in c.blockPackages <==> exists id :: ActiveIn(lock, id) && name in lock[id].pin.capabilities.blockPackages
    {
      if id :| ActiveIn(lock, id) && name in lock[id].pin.capabilities.blockPackages {
        assert id in active;
      }
    }
  }

  /**
   Composition while other processes may be changing the bundles: `disk(n)` is what is on disk at
   the n-th read of a file. It either fails or returns the composition of the one lock value it loaded.
   Undisturbed, it succeeds exactly when the active entries compose.
   */
  method ComposeActivePacks(lock: Lock, disk: Disk) returns (r: Result<Composition, Code>)
    ensures r.Ok? ==> IsCompositionOf(lock, r.value) && Composes(ActiveEntries(lock, None))
    ensures r.Err? ==> Unread(r.error) || Blames(PartsOf(ActiveEntries(lock, None)), r.error)
    ensures r.Err? && Unread(r.error) && (forall n :: BundlesPresent(ActiveEntries(lock, None), disk(n))) ==>
      !AllReadable(ActiveEntries(lock, None))
    ensures (forall n :: BundlesPresent(ActiveEntries(lock, None), disk(n))) ==>
      (r.Ok? <==> Composes(ActiveEntries(lock, None)))
  {
    var active := ActiveEntries(lock, None);
    var labels := ComposePresentation(active, disk);
    if labels.Ok? {
      ComposedLists(lock, labels.value);
    }
    r := if labels.Ok? then Ok(ComposedOf(active, labels.value)) else Err(labels.error);
  }
}
