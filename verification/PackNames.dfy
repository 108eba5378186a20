/**
 The id grammar of packs, the namespaces built from it, and the per-entry rules that both the
 manifest validator and the lock loader enforce.
 */
module PackNames {
  import Text
  import opened PackModel

  predicate Lower(c: char) { 'a' <= c <= 'z' }

  /** `[a-z][a-z0-9]*(-[a-z0-9]+)*` */
  predicate IsPackId(s: string) {
    && 0 < |s|
    && Lower(s[0])
    && s[|s| - 1] != '-'
    && (forall i :: 0 <= i < |s| ==> Lower(s[i]) || Text.IsDigit(s[i]) || s[i] == '-')
    && (forall i :: 0 <= i < |s| - 1 ==> s[i] != '-' || s[i + 1] != '-')
  }

  /** `[a-z][a-z0-9_.-]*` */
  predicate IsCapabilityName(s: string) {
    && 0 < |s|
    && Lower(s[0])
    && forall i :: 0 <= i < |s| ==> Lower(s[i]) || Text.IsDigit(s[i]) || s[i] in "_.-"
  }

  function Underscored(id: PackId): (s: string)
    ensures |s| == |id|
    ensures forall i :: 0 <= i < |id| ==> s[i] == if id[i] == '-' then '_' else id[i]
  {
    seq(|id|, i requires 0 <= i < |id| => if id[i] == '-' then '_' else id[i])
  }

  function PagePrefix(id: PackId): string { Underscored(id) + "_" }

  function DottedPrefix(id: PackId): string { id + "." }

  function NamePrefix(id: PackId, key: Capability): string {
    if key == PageTypes then PagePrefix(id) else DottedPrefix(id)
  }

  predicate Distinct<T(==)>(s: seq<T>) {
    forall i, j :: 0 <= i < j < |s| ==> s[i] != s[j]
  }

  // ----- namespaces of distinct packs -------------------------------------------------------

  lemma DottedNamespacesDisjoint(a: PackId, b: PackId, s: string)
    requires IsPackId(a) && IsPackId(b)
    requires DottedPrefix(a) <= s && DottedPrefix(b) <= s
    ensures a == b
  {
    assert s[|a|] == '.' && s[|b|] == '.';
    assert forall i :: 0 <= i < |a| ==> s[i] == DottedPrefix(a)[i] == a[i];
    assert forall i :: 0 <= i < |b| ==> s[i] == DottedPrefix(b)[i] == b[i];
    assert |a| == |b|;
    assert a == s[..|a|] == b;
  }

  /** The first character after a page prefix's id part tells the two kinds of name apart. */
  lemma PageShape(a: PackId, s: string)
    requires IsPackId(a) && PagePrefix(a) <= s
    ensures |a| < |s| && s[|a|] == '_'
    ensures forall i :: 0 <= i < |a| ==> s[i] != '.'
  {
  }

  lemma DottedShape(b: PackId, s: string)
    requires IsPackId(b) && DottedPrefix(b) <= s
    ensures |b| < |s| && s[|b|] == '.'
    ensures forall i :: 0 <= i < |b| ==> s[i] != '_'
  {
  }

  lemma PageAndDottedNamespacesDisjoint(a: PackId, b: PackId, s: string)
    requires IsPackId(a) && IsPackId(b) && PagePrefix(a) <= s
    ensures !(DottedPrefix(b) <= s)
  {
    PageShape(a, s);
    if DottedPrefix(b) <= s {
      DottedShape(b, s);
      assert false;
    }
  }

  lemma IdOutsideEveryNamespace(a: PackId, b: PackId)
    requires IsPackId(a) && IsPackId(b)
    ensures !(PagePrefix(b) <= a) && !(DottedPrefix(b) <= a)
  {
    if PagePrefix(b) <= a {
      PageShape(b, a);
      assert false;
    }
    if DottedPrefix(b) <= a {
      DottedShape(b, a);
      assert false;
    }
  }

  predicate InBoth(p: string, q: string, s: string) { p <= s && q <= s }

  /** Two page-type namespaces share a name exactly when one prefix extends the other. */
  lemma PageNamespacesOverlap(a: PackId, b: PackId)
    ensures (exists s: string :: InBoth(PagePrefix(a), PagePrefix(b), s))
       <==> PagePrefix(a) <= PagePrefix(b) || PagePrefix(b) <= PagePrefix(a)
  {
    var p, q := PagePrefix(a), PagePrefix(b);
    if s: string :| InBoth(p, q, s) {
      if |p| <= |q| {
        assert p == s[..|p|] == q[..|p|];
      } else {
        assert q == s[..|q|] == p[..|q|];
      }
    }
    if p <= q {
      assert InBoth(p, q, q);
    } else if q <= p {
      assert InBoth(p, q, p);
    }
  }

  /** The overlap does occur between distinct ids: `a` and `a-b` may both declare `a_b_note`. */
  lemma PageNamespacesCanMeet()
    ensures IsPackId("a") && IsPackId("a-b") && "a" != "a-b"
    ensures PagePrefix("a") <= "a_b_note" && PagePrefix("a-b") <= "a_b_note"
  {
  }

  // ----- per-entry rules --------------------------------------------------------------------

  predicate CapabilitiesOk(id: PackId, caps: Capabilities) {
    forall key: Capability ::
      && Distinct(caps.Of(key))
      && (forall i :: 0 <= i < |caps.Of(key)| ==>
            && IsCapabilityName(caps.Of(key)[i])
            && (key != BlockPackages ==> NamePrefix(id, key) <= caps.Of(key)[i]))
  }

  const SLOT_KINDS: seq<SlotKind> := [ViewSlots, CommandSlots, OperationSlots, TimelineSlots]

  function SlotPrefix(kind: SlotKind): string {
    match kind
    case ViewSlots => "view."
    case CommandSlots => "command."
    case OperationSlots => "operation."
    case TimelineSlots => "timeline."
  }

  function CapabilityForSlot(kind: SlotKind): Capability {
    match kind
    case ViewSlots => Views
    case CommandSlots => Commands
    case OperationSlots => Operations
    case TimelineSlots => TemporalProfiles
  }

  predicate RowsUnder(prefix: string, rows: seq<SlotRow>, declared: seq<string>) {
    && (forall i :: 0 <= i < |rows| ==> prefix <= rows[i].slot && rows[i].contribution in declared)
    && (forall i, j :: 0 <= i < j < |rows| ==>
          (rows[i].slot, rows[i].contribution) != (rows[j].slot, rows[j].contribution))
  }

  predicate RowsOk(kind: SlotKind, rows: seq<SlotRow>, declared: seq<string>) {
    RowsUnder(SlotPrefix(kind), rows, declared)
  }

  predicate SlotsOk(slots: Slots, caps: Capabilities) {
    forall kind: SlotKind :: RowsOk(kind, slots.Of(kind), caps.Of(CapabilityForSlot(kind)))
  }

  predicate RelationsOk(id: PackId, dependencies: seq<Dependency>, conflicts: seq<PackId>) {
    && (forall i :: 0 <= i < |dependencies| ==>
          && IsPackId(dependencies[i].id)
          && dependencies[i].id != id
          && dependencies[i].id !in conflicts
          && dependencies[i].range != [])
    && (forall i, j :: 0 <= i < j < |dependencies| ==> dependencies[i].id != dependencies[j].id)
    && (forall i :: 0 <= i < |conflicts| ==> IsPackId(conflicts[i]) && conflicts[i] != id)
    && Distinct(conflicts)
  }

  predicate PinOk(id: PackId, pin: Pin) {
    && IsPackId(id)
    && CapabilitiesOk(id, pin.capabilities)
    && SlotsOk(pin.slots, pin.capabilities)
    && RelationsOk(id, pin.dependencies, pin.conflicts)
  }

  /** What the lock loader accepts. The installed path is the pack's own by construction. */
  predicate LockOk(lock: Lock) {
    forall id :: id in lock ==> PinOk(id, lock[id].pin) && Distinct(lock[id].receipts)
  }

  function Elements<T>(s: seq<T>): set<T> { set x | x in s }

  /** The canonical identifiers a pack must label in every locale. */
  function Identifiers(id: PackId, caps: Capabilities, eventKinds: set<string>): set<string> {
    {id} + Elements(caps.pageTypes) + Elements(caps.views) + Elements(caps.commands)
    + Elements(caps.operations) + Elements(caps.temporalProfiles) + eventKinds
  }

  const REQUIRED_LOCALES: set<string> := {"en", "es", "pt-BR"}

  predicate EventKindsOk(id: PackId, eventKinds: set<string>) {
    && eventKinds != {}
    && forall e :: e in eventKinds ==> IsCapabilityName(e) && DottedPrefix(id) <= e
  }

  /** In every declared locale the catalog labels exactly the identifiers. */
  predicate PresentationFor(tree: Tree, id: PackId, caps: Capabilities) {
    && REQUIRED_LOCALES <= tree.manifest.locales
    && EventKindsOk(id, tree.eventKinds)
    && tree.manifest.locales <= tree.labels.Keys
    && forall l :: l in tree.manifest.locales ==> tree.labels[l].Keys == Identifiers(id, caps, tree.eventKinds)
  }

  predicate PresentationOk(tree: Tree) {
    PresentationFor(tree, tree.manifest.id, tree.manifest.capabilities)
  }

  /** What `resolve_pack` has established about a source before any operation plans with it. */
  predicate Resolved(src: PackSource) {
    PinOk(src.Id(), PinFor(src, Active)) && PresentationOk(src.tree)
  }

  // ----- what the namespaces buy ------------------------------------------------------------

  predicate SharesName(key: Capability, a: Capabilities, b: Capabilities) {
    exists v :: v in a.Of(key) && v in b.Of(key)
  }

  /** Away from page types and core block packages, distinct packs cannot share a capability. */
  lemma OnlyPageTypesCollide(a: PackId, b: PackId, ca: Capabilities, cb: Capabilities, key: Capability)
    requires a != b && IsPackId(a) && IsPackId(b)
    requires CapabilitiesOk(a, ca) && CapabilitiesOk(b, cb)
    requires key != PageTypes && key != BlockPackages
    ensures !SharesName(key, ca, cb)
  {
    if v :| v in ca.Of(key) && v in cb.Of(key) {
      DottedNamespacesDisjoint(a, b, v);
      assert false;
    }
  }

  lemma DeclaredShape(id: PackId, caps: Capabilities, key: Capability, s: string)
    requires CapabilitiesOk(id, caps) && key != BlockPackages && s in caps.Of(key)
    ensures NamePrefix(id, key) <= s
  {
  }

  /** Where an identifier of a pack can come from. */
  lemma IdentifierShape(id: PackId, caps: Capabilities, kinds: set<string>, s: string)
    requires CapabilitiesOk(id, caps) && EventKindsOk(id, kinds)
    requires s in Identifiers(id, caps, kinds)
    ensures s == id || (s in caps.pageTypes && PagePrefix(id) <= s) || DottedPrefix(id) <= s
  {
    hide CapabilitiesOk, PagePrefix, DottedPrefix;
    if s in caps.pageTypes {
      DeclaredShape(id, caps, PageTypes, s);
    } else if s in caps.views {
      DeclaredShape(id, caps, Views, s);
    } else if s in caps.commands {
      DeclaredShape(id, caps, Commands, s);
    } else if s in caps.operations {
      DeclaredShape(id, caps, Operations, s);
    } else if s in caps.temporalProfiles {
      DeclaredShape(id, caps, TemporalProfiles, s);
    }
  }

  /** Identifier sets of distinct packs meet exactly where their page types do. */
  lemma IdentifiersMeetOnlyInPageTypes(
    a: PackId, b: PackId, ca: Capabilities, cb: Capabilities, ka: set<string>, kb: set<string>)
    requires a != b && IsPackId(a) && IsPackId(b)
    requires CapabilitiesOk(a, ca) && CapabilitiesOk(b, cb)
    requires EventKindsOk(a, ka) && EventKindsOk(b, kb)
    ensures Identifiers(a, ca, ka) * Identifiers(b, cb, kb)
         == Elements(ca.pageTypes) * Elements(cb.pageTypes)
  {
    forall s | s in Identifiers(a, ca, ka) * Identifiers(b, cb, kb)
      ensures s in ca.pageTypes && s in cb.pageTypes
    {
      IdentifierShape(a, ca, ka, s);
      IdentifierShape(b, cb, kb, s);
      IdOutsideEveryNamespace(a, b);
      IdOutsideEveryNamespace(b, a);
      if PagePrefix(a) <= s {
        PageAndDottedNamespacesDisjoint(a, b, s);
      }
      if PagePrefix(b) <= s {
        PageAndDottedNamespacesDisjoint(b, a, s);
      }
      if DottedPrefix(a) <= s && DottedPrefix(b) <= s {
        DottedNamespacesDisjoint(a, b, s);
      }
    }
  }
}
