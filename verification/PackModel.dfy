/**
 What the experience-pack lifecycle stores: versions and version ranges, manifests and bundles,
 lock entries, and receipts with their identities.

 A SHA-256 digest is a value that holds what was hashed, so two digests agree exactly when the
 hashed values do. Receipts hash the lock they were planned from, and lock entries hold receipt
 ids: the recursion is real, and it is why a receipt binds a projection of the next lock that has
 no receipt lists.
 */
module PackModel {
  import opened Outcomes

  type PackId = string

  datatype Sha<T> = Sha(of: T)

  // ----- versions ---------------------------------------------------------------------------

  datatype Version = Version(major: nat, minor: nat, patch: nat)

  /** Precedence of section 11 of Semantic Versioning 2.0.0, restricted to plain triples. */
  predicate Precedes(a: Version, b: Version) {
    || a.major < b.major
    || (a.major == b.major && a.minor < b.minor)
    || (a.major == b.major && a.minor == b.minor && a.patch < b.patch)
  }

  datatype Comparison = AtLeast | AtMost | Above | Below | Exactly

  datatype Comparator = Comparator(op: Comparison, bound: Version)

  type Range = seq<Comparator>

  predicate Meets(v: Version, c: Comparator) {
    match c.op
    case AtLeast => !Precedes(v, c.bound)
    case AtMost => !Precedes(c.bound, v)
    case Above => Precedes(c.bound, v)
    case Below => Precedes(v, c.bound)
    case Exactly => v == c.bound
  }

  predicate Satisfies(v: Version, range: Range) {
    forall i :: 0 <= i < |range| ==> Meets(v, range[i])
  }

  /** The token loop, which stops at the first comparator that fails. */
  method VersionSatisfies(v: Version, range: Range) returns (ok: bool)
    ensures ok == Satisfies(v, range)
  {
    for i := 0 to |range|
      invariant Satisfies(v, range[..i])
    {
      if !Meets(v, range[i]) {
        return false;
      }
    }
    return true;
  }

  /** The tuple the source compares. */
  function Triple(v: Version): (t: seq<nat>)
    ensures |t| == 3
  {
    [v.major, v.minor, v.patch]
  }

  /** The first place where two versions differ decides which comes first. */
  lemma FirstDifferenceDecides(a: Version, b: Version, k: nat)
    requires k < 3 && (forall j :: 0 <= j < k ==> Triple(a)[j] == Triple(b)[j]) && Triple(a)[k] != Triple(b)[k]
    ensures Precedes(a, b) <==> Triple(a)[k] < Triple(b)[k]
  {
    assert k > 0 ==> Triple(a)[0] == Triple(b)[0];
    assert k > 1 ==> Triple(a)[1] == Triple(b)[1];
  }

  /** A strict total order: of two versions exactly one comes first, or they are the same. */
  lemma PrecedesIsAnOrder(a: Version, b: Version, c: Version)
    ensures !(Precedes(a, b) && Precedes(b, a))
    ensures a == b <==> !Precedes(a, b) && !Precedes(b, a)
    ensures Precedes(a, b) && Precedes(b, c) ==> Precedes(a, c)
  {
    if !Precedes(a, b) && !Precedes(b, a) {
      assert Triple(a) == Triple(b);
      assert a == Version(Triple(a)[0], Triple(a)[1], Triple(a)[2]);
    }
  }

  /** Raising one part makes a version later, whatever becomes of the parts after it. */
  lemma RaisedIsLater(v: Version, more: nat, minor: nat, patch: nat)
    requires more > 0
    ensures Precedes(v, Version(v.major + more, minor, patch))
    ensures Precedes(v, Version(v.major, v.minor + more, patch))
    ensures Precedes(v, Version(v.major, v.minor, v.patch + more))
  {
  }

  /** Each comparator by the order: before, at or after its bound. */
  lemma ComparatorsSplitTheOrder(v: Version, bound: Version)
    ensures Meets(v, Comparator(Below, bound)) <==> Precedes(v, bound)
    ensures Meets(v, Comparator(Exactly, bound)) <==> v == bound
    ensures Meets(v, Comparator(Above, bound)) <==> Precedes(bound, v)
    ensures Meets(v, Comparator(AtLeast, bound)) <==> Precedes(bound, v) || v == bound
    ensures Meets(v, Comparator(AtMost, bound)) <==> Precedes(v, bound) || v == bound
  {
    PrecedesIsAnOrder(v, bound, v);
  }

  /** A range is an interval: what lies between two versions it accepts, it accepts. */
  lemma RangeIsAnInterval(a: Version, v: Version, b: Version, range: Range)
    requires Precedes(a, v) && Precedes(v, b) && Satisfies(a, range) && Satisfies(b, range)
    ensures Satisfies(v, range)
  {
    forall i | 0 <= i < |range|
      ensures Meets(v, range[i])
    {
      var bound := range[i].bound;
      assert Meets(a, range[i]) && Meets(b, range[i]);
      PrecedesIsAnOrder(a, v, bound);
      PrecedesIsAnOrder(v, b, bound);
      PrecedesIsAnOrder(bound, a, v);
      PrecedesIsAnOrder(v, bound, b);
    }
  }

  // ----- manifests and bundles --------------------------------------------------------------

  datatype Capability =
    PageTypes | Blocks | BlockPackages | Views | Commands | Operations | TemporalProfiles

  datatype Capabilities = Capabilities(
    pageTypes: seq<string>, blocks: seq<string>, blockPackages: seq<string>, views: seq<string>,
    commands: seq<string>, operations: seq<string>, temporalProfiles: seq<string>)
  {
    function Of(key: Capability): seq<string> {
      match key
      case PageTypes => pageTypes
      case Blocks => blocks
      case BlockPackages => blockPackages
      case Views => views
      case Commands => commands
      case Operations => operations
      case TemporalProfiles => temporalProfiles
    }
  }

  datatype SlotKind = ViewSlots | CommandSlots | OperationSlots | TimelineSlots

  datatype Mode = Append | Exclusive

  datatype SlotRow = SlotRow(slot: string, contribution: string, mode: Mode)

  datatype Slots = Slots(
    views: seq<SlotRow>, commands: seq<SlotRow>, operations: seq<SlotRow>, timelines: seq<SlotRow>)
  {
    function Of(kind: SlotKind): seq<SlotRow> {
      match kind
      case ViewSlots => views
      case CommandSlots => commands
      case OperationSlots => operations
      case TimelineSlots => timelines
    }
  }

  datatype Dependency = Dependency(id: PackId, range: Range)

  datatype Manifest = Manifest(
    id: PackId, version: Version, capabilities: Capabilities, slots: Slots,
    dependencies: seq<Dependency>, conflicts: seq<PackId>, upgradesDir: string, locales: set<string>)

  datatype Migration = Migration(pack: PackId, from: Version, to: Version)

  /** Every file of a bundle: the parsed ones by what they say, the others as raw text. */
  datatype Tree = Tree(
    manifest: Manifest, migrations: map<Version, Migration>, eventKinds: set<string>,
    labels: map<string, map<string, string>>, otherFiles: map<string, string>)

  datatype PackSource = PackSource(registryPath: string, tree: Tree)
  {
    function Id(): PackId { tree.manifest.id }
    function Version(): Version { tree.manifest.version }
  }

  // ----- lock entries and receipts ----------------------------------------------------------

  datatype Status = Active | Disabled

  /** A lock entry without its receipt list. */
  datatype Pin = Pin(
    version: Version, status: Status, manifestSha: Sha<Manifest>, treeSha: Sha<Tree>,
    registryPath: string, capabilities: Capabilities, slots: Slots,
    dependencies: seq<Dependency>, conflicts: seq<PackId>)

  datatype Entry = Entry(pin: Pin, receipts: seq<ReceiptId>)

  type Lock = map<PackId, Entry>

  type Projection = map<PackId, Pin>

  datatype Action = InstallAction | UpgradeAction | DisableAction | RemoveAction

  datatype BundlePath = BundlePath(id: PackId, version: Version)

  /** One row of the conceptual diff. The source sorts the rows, so they form a set. */
  datatype Change =
    | CreateBundle(path: BundlePath)
    | CreateLock
    | ReplaceLock
    | CreateReceipt(pack: PackId)
    | ValidateMigration(dir: string, from: Version, to: Version)
    | DeleteBundle(path: BundlePath)

  datatype ReceiptId = ReceiptId(identity: Identity)

  datatype Identity = Identity(
    action: Action, pack: PackId, version: Version, previous: LockSha, next: Projection,
    nextSha: Sha<Projection>, branch: string, changes: set<Change>)

  datatype LockSha = LockSha(lock: Lock)

  function Project(lock: Lock): Projection {
    map id | id in lock :: lock[id].pin
  }

  function PinFor(src: PackSource, status: Status): Pin {
    Pin(src.Version(), status, Sha(src.tree.manifest), Sha(src.tree), src.registryPath,
        src.tree.manifest.capabilities, src.tree.manifest.slots,
        src.tree.manifest.dependencies, src.tree.manifest.conflicts)
  }

  function ActiveEntries(lock: Lock, excluding: Option<PackId>): Lock {
    map id | id in lock && Some(id) != excluding && lock[id].pin.status == Active :: lock[id]
  }

  predicate ActiveIn(lock: Lock, id: PackId) { id in lock && lock[id].pin.status == Active }

  function LockWithEntry(lock: Lock, id: PackId, entry: Option<Entry>): Lock {
    match entry
    case None => lock - {id}
    case Some(e) => lock[id := e]
  }

  // ----- errors -----------------------------------------------------------------------------

  datatype Code =
    | PackConflict | DependencyNotSatisfied | ReverseDependencyNotSatisfied | CapabilityConflict
    | ExclusiveSlotConflict | PackAlreadyInstalled | PackNotInstalled | UpgradeRequiresNewerVersion
    | UpgradeMigrationMissing | UpgradeMigrationVersionMismatch | DependentPackActive
    | PackAlreadyDisabled | ReceiptIdentityNotStable | InstalledBundleDrift
    | InstalledBundleAlreadyExists | ReceiptAlreadyExists | PackLockChangedDuringOperation
    | InstalledManifestDrift | PresentationInvalid | LocaleSetMismatch | IdentifierConflict
    | OperatingSystemError
}
