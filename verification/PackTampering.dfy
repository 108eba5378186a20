/**
 What the validator notices: when it has nothing to say of some files, field by field, and what can be done to the
 files of a committed installation without its saying anything.
 */
module PackTampering {
  import opened Outcomes
  import opened PackModel
  import opened PackNames
  import opened PackComposition
  import opened PackHistory
  import opened PackMachine
  import opened PackRequests
  import opened PackValidation

  // ----- what a clean report says -----------------------------------------------------------

  /** The bundle is there, is the one pinned, and its manifest says what the entry says. */
  ghost predicate BundleSound(fs: Files, id: PackId) {
    id in fs.lock &&
    var pin := fs.lock[id].pin;
    BundlePath(id, pin.version) in fs.bundles &&
    var tree := fs.bundles[BundlePath(id, pin.version)];
    && pin.treeSha == Sha(tree) && pin.manifestSha == Sha(tree.manifest)
    && tree.manifest.id == id && tree.manifest.version == pin.version
    && tree.manifest.capabilities == pin.capabilities && tree.manifest.slots == pin.slots
    && tree.manifest.dependencies == pin.dependencies && tree.manifest.conflicts == pin.conflicts
    && PinOk(id, pin) && PresentationOk(tree)
  }

  /** A receipt's own story: its digest is of its projection, and the projection shows what it says was done. */
  ghost predicate TellsItself(r: Identity) {
    && r.nextSha == Sha(r.next)
    && (forall id :: id in r.next ==> IsPackId(id))
    && match r.action
       case RemoveAction => r.pack !in r.next
       case DisableAction =>
         r.pack in r.next && r.next[r.pack].version == r.version && r.next[r.pack].status == Disabled
       case InstallAction => r.pack in r.next && r.next[r.pack].version == r.version
       case UpgradeAction => r.pack in r.next && r.next[r.pack].version == r.version
  }

  /** Each receipt file is named by its own contents, and tells itself. */
  ghost predicate ReceiptFilesSound(fs: Files) {
    forall r :: r in fs.receipts ==> fs.receipts[r] == r.identity && TellsItself(r.identity)
  }

  /** The entry lists receipts of its own, all on disk, and the last of them projects to the entry. */
  ghost predicate ChainSound(fs: Files, id: PackId) {
    id in fs.lock &&
    var rs := fs.lock[id].receipts;
    && rs != [] && (forall i :: 0 <= i < |rs| ==> rs[i] in fs.receipts && rs[i].identity.pack == id)
    && id in rs[|rs| - 1].identity.next && rs[|rs| - 1].identity.next[id] == fs.lock[id].pin
  }

  /** Beside each other, as far as the validator's map of slots can see. */
  ghost predicate PairSound(a: PackId, p: Pin, b: PackId, q: Pin) {
    && b !in p.conflicts && a !in q.conflicts
    && ListsApart(p.capabilities, q.capabilities)
    && !ValidatorRowsClash(p.slots.views, q.slots.views)
    && !ValidatorRowsClash(p.slots.commands, q.slots.commands)
    && !ValidatorRowsClash(p.slots.operations, q.slots.operations)
    && !ValidatorRowsClash(p.slots.timelines, q.slots.timelines)
  }

  ghost predicate DependenciesSound(lock: Lock, id: PackId)
    requires id in lock
  {
    forall d :: d in lock[id].pin.dependencies ==>
      ActiveIn(lock, d.id) && Satisfies(lock[d.id].pin.version, d.range)
  }

  ghost predicate ActiveSound(lock: Lock, order: seq<PackId>)
    requires Elements(order) <= lock.Keys
  {
    && (forall id :: ActiveIn(lock, id) ==> DependenciesSound(lock, id))
    && (forall i, k :: 0 <= i < k < |order| ==> PairSound(order[i], lock[order[i]].pin, order[k], lock[order[k]].pin))
  }

  ghost predicate Sound(fs: Files, order: seq<PackId>)
    requires Elements(order) <= fs.lock.Keys
  {
    && (forall id :: id in fs.lock ==> BundleSound(fs, id) && ChainSound(fs, id))
    && (forall p :: p in fs.bundles ==> p.id in fs.lock && fs.lock[p.id].pin.version == p.version)
    && ReceiptFilesSound(fs)
    && ActiveSound(fs.lock, order)
  }

  lemma BundleSoundIff(fs: Files, id: PackId)
    requires id in fs.lock
    ensures BundleSound(fs, id) <==>
              forall code :: code != ReceiptInvalid && code != ReceiptMissing ==> !EntryFault(fs, id, code)
  {
    hide PresentationFor, CapabilitiesOk, SlotsOk, RelationsOk, IsPackId, ChainMatches;
    assert BundleSound(fs, id) <==>
             && !EntryFault(fs, id, BundleDrift) && !EntryFault(fs, id, ManifestHashMismatch)
             && !EntryFault(fs, id, ManifestIdentityMismatch) && !EntryFault(fs, id, ManifestLockMismatch)
             && !EntryFault(fs, id, ManifestContractInvalid);
  }

  lemma ReceiptMatchesIff(fs: Files, r: ReceiptId)
    requires r in fs.receipts
    ensures ReceiptMatches(fs.receipts, r.identity.pack, r) <==> fs.receipts[r] == r.identity && TellsItself(r.identity)
    ensures forall id :: ReceiptMatches(fs.receipts, id, r) ==> id == r.identity.pack
  {
    hide IsPackId;
  }

  lemma ChainSoundIff(fs: Files, id: PackId)
    requires id in fs.lock && ReceiptFilesSound(fs)
    ensures ChainSound(fs, id) <==> ChainMatches(fs.receipts, id, fs.lock[id]) && fs.lock[id].receipts != []
  {
    hide TellsItself, ProjectionValid;
    var rs := fs.lock[id].receipts;
    forall i | 0 <= i < |rs|
      ensures ReceiptMatches(fs.receipts, id, rs[i]) <==> rs[i] in fs.receipts && rs[i].identity.pack == id
    {
      if rs[i] in fs.receipts { ReceiptMatchesIff(fs, rs[i]); }
    }
  }

  lemma PairSoundIff(a: PackId, p: Pin, b: PackId, q: Pin)
    ensures PairSound(a, p, b, q) <==> forall code :: !PairFault(code, a, p, b, q)
  {
    hide ValidatorRowsClash, ListsApart, CapabilityClash;
    SlotKindsCovered(p, q);
    CapabilityClashByKey(p, q);
    CapabilitiesByList(p.capabilities, q.capabilities);
    assert (forall code :: !PairFault(code, a, p, b, q)) <==>
             !PairFault(ConflictFound, a, p, b, q) && !PairFault(CapabilityFound, a, p, b, q) && !PairFault(SlotFound, a, p, b, q);
  }

  lemma DependenciesSoundIff(lock: Lock, id: PackId)
    requires id in lock
    ensures DependenciesSound(lock, id) <==> DependenciesMet(lock[id].pin, ActiveEntries(lock, None))
  {
    hide Satisfies;
    var active := ActiveEntries(lock, None);
    forall d
      ensures DependencyMet(d, active) <==> ActiveIn(lock, d.id) && Satisfies(lock[d.id].pin.version, d.range)
    {
    }
  }

  lemma PairsSoundIff(active: Lock, order: seq<PackId>)
    requires Elements(order) <= active.Keys
    ensures (forall code, a :: !FoundBefore(active, order, |order|, code, a)) <==>
              forall i, k :: 0 <= i < k < |order| ==>
                PairSound(order[i], active[order[i]].pin, order[k], active[order[k]].pin)
  {
    hide PairFault, PairSound;
    forall i, k | 0 <= i < k < |order|
      ensures PairSound(order[i], active[order[i]].pin, order[k], active[order[k]].pin) <==>
                forall code :: !PairFault(code, order[i], active[order[i]].pin, order[k], active[order[k]].pin)
    {
      PairSoundIff(order[i], active[order[i]].pin, order[k], active[order[k]].pin);
    }
    if forall code, a :: !FoundBefore(active, order, |order|, code, a) {
      forall i, k, code | 0 <= i < k < |order|
        ensures !PairFault(code, order[i], active[order[i]].pin, order[k], active[order[k]].pin)
      {
        assert !FoundBefore(active, order, |order|, code, order[i]);
        assert !FaultAmong(active, order, i, |order|, code);
      }
    }
  }

  /** Finding by finding, what it means that there is none. */
  ghost predicate Silent(fs: Files, order: seq<PackId>)
    requires Elements(order) <= ActiveEntries(fs.lock, None).Keys
  {
    var active := ActiveEntries(fs.lock, None);
    && (forall id, code :: id in fs.lock ==> !EntryFault(fs, id, code))
    && (forall r :: r in fs.receipts ==> ReceiptMatches(fs.receipts, r.identity.pack, r))
    && (forall p :: p in fs.bundles ==> Named(fs.lock, p))
    && (forall id :: id in active ==> DependenciesMet(active[id].pin, active))
    && (forall code, a :: !FoundBefore(active, order, |order|, code, a))
  }

  lemma SilentIff(fs: Files, order: seq<PackId>)
    requires Elements(order) <= ActiveEntries(fs.lock, None).Keys
    ensures (forall f :: !Justified(fs, order, f)) <==> Silent(fs, order)
  {
    hide EntryFault, ReceiptMatches, DependenciesMet, FoundBefore, Named;
    if forall f :: !Justified(fs, order, f) {
      forall id, code
        ensures id in fs.lock ==> !EntryFault(fs, id, code)
        ensures !FoundBefore(ActiveEntries(fs.lock, None), order, |order|, code, id)
      {
        assert !Justified(fs, order, Finding(code, id));
      }
      forall r | r in fs.receipts ensures ReceiptMatches(fs.receipts, r.identity.pack, r) {
        assert !Justified(fs, order, Finding(ReceiptInvalid, r.identity.pack));
      }
      forall p | p in fs.bundles ensures Named(fs.lock, p) {
        assert !Justified(fs, order, Finding(OrphanBundle, p.id));
      }
      forall id | id in ActiveEntries(fs.lock, None)
        ensures DependenciesMet(ActiveEntries(fs.lock, None)[id].pin, ActiveEntries(fs.lock, None))
      {
        assert !Justified(fs, order, Finding(DependencyUnmet, id));
      }
    }
  }

  lemma EntrySoundIff(fs: Files, id: PackId)
    requires id in fs.lock && ReceiptFilesSound(fs)
    ensures BundleSound(fs, id) && ChainSound(fs, id) <==> forall code :: !EntryFault(fs, id, code)
  {
    hide ChainMatches, ManifestAgrees, ContractOk, ReceiptFilesSound, ChainSound, BundleSound;
    BundleSoundIff(fs, id);
    ChainSoundIff(fs, id);
    if forall code :: !EntryFault(fs, id, code) {
      assert !EntryFault(fs, id, BundleDrift) && !EntryFault(fs, id, ReceiptInvalid) && !EntryFault(fs, id, ReceiptMissing);
    }
  }

  lemma ReceiptFilesSoundIff(fs: Files)
    ensures ReceiptFilesSound(fs) <==> forall r :: r in fs.receipts ==> ReceiptMatches(fs.receipts, r.identity.pack, r)
  {
    hide ReceiptMatches, TellsItself;
    forall r | r in fs.receipts { ReceiptMatchesIff(fs, r); }
  }

  lemma ActiveSoundIff(lock: Lock, order: seq<PackId>)
    requires Elements(order) <= ActiveEntries(lock, None).Keys
    ensures var active := ActiveEntries(lock, None);
            ActiveSound(lock, order) <==>
              && (forall id :: id in active ==> DependenciesMet(active[id].pin, active))
              && (forall code, a :: !FoundBefore(active, order, |order|, code, a))
  {
    hide DependenciesMet, DependenciesSound, FoundBefore, PairSound;
    var active := ActiveEntries(lock, None);
    assert forall id :: id in active <==> ActiveIn(lock, id);
    forall id | id in active { DependenciesSoundIff(lock, id); }
    PairsSoundIff(active, order);
    assert forall i :: 0 <= i < |order| ==> order[i] in Elements(order) && active[order[i]] == lock[order[i]];
  }

  /** The validator finds nothing exactly in sound files. */
  lemma NothingFoundIff(fs: Files, order: seq<PackId>)
    requires Elements(order) <= ActiveEntries(fs.lock, None).Keys
    ensures (forall f :: !Justified(fs, order, f)) <==> Sound(fs, order)
  {
    hide Justified, ReceiptFilesSound, ActiveSound, BundleSound, ChainSound, EntryFault, ReceiptMatches, DependenciesMet,
         FoundBefore;
    SilentIff(fs, order);
    ReceiptFilesSoundIff(fs);
    ActiveSoundIff(fs.lock, order);
    if ReceiptFilesSound(fs) {
      forall id | id in fs.lock { EntrySoundIff(fs, id); }
    }
  }

  // ----- files that were tampered with ------------------------------------------------------

  /** The bundles are exactly those the lock pins, file for file. */
  ghost predicate OnlyPinnedBundles(fs: Files) {
    forall p :: (p in fs.bundles <==> Named(fs.lock, p)) && (p in fs.bundles ==> fs.bundles[p] == fs.lock[p.id].pin.treeSha.of)
  }

  ghost predicate ListedReceiptsThere(fs: Files) {
    forall id, r :: id in fs.lock && r in fs.lock[id].receipts ==> r in fs.receipts
  }

  lemma PinnedIff(hadFile: bool, log: Log, fs: Files)
    requires ValidLog(hadFile, log) && fs.lock == LockAfter(log)
    ensures OnlyPinnedBundles(fs) <==>
              && (forall id :: id in fs.lock ==> BundleSound(fs, id))
              && (forall p :: p in fs.bundles ==> p.id in fs.lock && fs.lock[p.id].pin.version == p.version)
  {
    hide ValidLog, PresentationFor, CapabilitiesOk, SlotsOk, RelationsOk, IsPackId;
    if OnlyPinnedBundles(fs) {
      forall id | id in fs.lock
        ensures BundleSound(fs, id)
      {
        EntriesGenuine(hadFile, log, id);
        assert Named(fs.lock, BundlePath(id, fs.lock[id].pin.version));
      }
    }
    if forall id :: id in fs.lock ==> BundleSound(fs, id) {
      forall p | Named(fs.lock, p)
        ensures p in fs.bundles && fs.bundles[p] == fs.lock[p.id].pin.treeSha.of
      {
        assert BundleSound(fs, p.id) && p == BundlePath(p.id, fs.lock[p.id].pin.version);
      }
    }
  }

  lemma ListedIff(hadFile: bool, log: Log, fs: Files)
    requires ValidLog(hadFile, log) && fs.lock == LockAfter(log)
    ensures ListedReceiptsThere(fs) <==> forall id :: id in fs.lock ==> ChainSound(fs, id)
  {
    hide ValidLog;
    forall id | id in fs.lock { ChainTips(hadFile, log, id); }
    if forall id :: id in fs.lock ==> ChainSound(fs, id) {
      forall id, r | id in fs.lock && r in fs.lock[id].receipts
        ensures r in fs.receipts
      {
        assert ChainSound(fs, id);
      }
    }
  }

  lemma HistoryActiveSound(hadFile: bool, log: Log, lock: Lock, order: seq<PackId>)
    requires ValidLog(hadFile, log) && lock == LockAfter(log) && Enumerates(order, ActiveEntries(lock, None).Keys)
    ensures ActiveSound(lock, order)
  {
    hide ValidLog, ActiveSound, ComposedEntries, FoundBefore, DependenciesMet, LockOk;
    var active := ActiveEntries(lock, None);
    LockSound(hadFile, log);
    DependenciesAccepted(active);
    forall code, a { PairsAccepted(active, order, code, a); }
    ActiveSoundIff(lock, order);
  }

  /**
   Whatever is done to the bundle and receipt files of a committed installation, the validator has nothing to say
   exactly when the bundles are those the lock pins and no others, every receipt the lock lists is there, and every
   receipt there is named by its own contents and tells itself.
   */
  lemma TamperingFoundIff(hadFile: bool, log: Log, fs: Files, order: seq<PackId>)
    requires ValidLog(hadFile, log) && fs.lock == LockAfter(log)
    requires Enumerates(order, ActiveEntries(fs.lock, None).Keys)
    ensures (forall f :: !Justified(fs, order, f)) <==>
              OnlyPinnedBundles(fs) && ListedReceiptsThere(fs) && ReceiptFilesSound(fs)
  {
    hide ValidLog, Justified, OnlyPinnedBundles, ListedReceiptsThere, ReceiptFilesSound, ActiveSound, BundleSound, ChainSound;
    NothingFoundIff(fs, order);
    PinnedIff(hadFile, log, fs);
    ListedIff(hadFile, log, fs);
    HistoryActiveSound(hadFile, log, fs.lock, order);
  }
}
