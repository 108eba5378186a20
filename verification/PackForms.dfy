/**
 The rules for pack ids, names, slots and labels, written out list by list.
 */
module PackForms {
  import opened Text
  import opened PackModel
  import opened PackNames
  import opened PackLoading
  import opened PackPresentation

  // ----- ids --------------------------------------------------------------------------------

  /** One part of an id: small letters and digits, at least one of them. */
  predicate Alphanumeric(s: string) {
    s != "" && forall i :: 0 <= i < |s| ==> 'a' <= s[i] <= 'z' || '0' <= s[i] <= '9'
  }

  predicate EachAlphanumeric(parts: seq<string>) { forall k :: 0 <= k < |parts| ==> Alphanumeric(parts[k]) }

  /** `[a-z0-9]+(-[a-z0-9]+)*` */
  predicate Dashed(s: string) {
    && s != "" && s[0] != '-' && s[|s| - 1] != '-'
    && (forall i :: 0 <= i < |s| ==> Lower(s[i]) || IsDigit(s[i]) || s[i] == '-')
    && (forall i :: 0 <= i < |s| - 1 ==> s[i] != '-' || s[i + 1] != '-')
  }

  lemma DashedInTwo(a: string, b: string)
    ensures Dashed(a + "-" + b) <==> Dashed(a) && Dashed(b)
  {
    var s := a + "-" + b;
    assert forall i :: 0 <= i < |a| ==> s[i] == a[i];
    assert forall i :: 0 <= i < |b| ==> s[|a| + 1 + i] == b[i];
    assert s[|a|] == '-';
    if Dashed(s) {
      assert a != "" by { assert s[0] != '-'; }
      assert b != "" by { assert s[|s| - 1] != '-'; }
      assert s[|a| - 1] != '-' && s[|a| + 1] != '-';
    }
  }

  lemma {:induction false} DashedIff(s: string)
    ensures Dashed(s) <==> EachAlphanumeric(Split('-', s))
    decreases |s|
  {
    hide Dashed, Alphanumeric, RunBefore;
    var n := RunBefore('-', s);
    if n == |s| {
      OnePart(s);
      assert |Split('-', s)| == 1 && Split('-', s)[0] == s;
    } else {
      var first, rest := s[..n], s[n + 1..];
      DashedIff(rest);
      OnePart(first);
      DashedInTwo(first, rest);
      assert s == first + "-" + rest;
      AllAlphanumeric(first, Split('-', rest));
      assert Split('-', s) == [first] + Split('-', rest);
    }
  }

  lemma AllAlphanumeric(x: string, rest: seq<string>)
    ensures EachAlphanumeric([x] + rest) <==> Alphanumeric(x) && EachAlphanumeric(rest)
  {
    hide Alphanumeric;
    var all := [x] + rest;
    assert all[0] == x && forall k :: 0 <= k < |rest| ==> all[k + 1] == rest[k];
    assert forall k :: 0 < k < |all| ==> all[k] == rest[k - 1];
  }

  lemma OnePart(s: string)
    requires '-' !in s
    ensures Dashed(s) <==> Alphanumeric(s)
  {
  }

  /** An id is parts of small letters and digits between single dashes, and starts with a letter. */
  lemma PackIdIff(s: string)
    ensures IsPackId(s) <==> EachAlphanumeric(Split('-', s)) && s != "" && 'a' <= s[0] <= 'z'
  {
    hide Split;
    DashedIff(s);
  }

  // ----- the lists of an entry --------------------------------------------------------------

  /** Well-formed names, none of them twice, all of them under one prefix. */
  predicate NamesUnder(prefix: string, names: seq<string>) {
    && (forall i, j :: 0 <= i < j < |names| ==> names[i] != names[j])
    && forall i :: 0 <= i < |names| ==>
         && prefix <= names[i] && names[i] != "" && 'a' <= names[i][0] <= 'z'
         && forall k :: 0 <= k < |names[i]| ==>
              'a' <= names[i][k] <= 'z' || '0' <= names[i][k] <= '9' || names[i][k] in "_.-"
  }

  lemma NamesUnderIff(prefix: string, names: seq<string>)
    ensures NamesUnder(prefix, names) <==>
              Distinct(names) && forall i :: 0 <= i < |names| ==> IsCapabilityName(names[i]) && prefix <= names[i]
  {
    forall i | 0 <= i < |names|
      ensures IsCapabilityName(names[i]) <==>
                && names[i] != "" && 'a' <= names[i][0] <= 'z'
                && forall k :: 0 <= k < |names[i]| ==>
                     'a' <= names[i][k] <= 'z' || '0' <= names[i][k] <= '9' || names[i][k] in "_.-"
    {
    }
  }

  /** Page types under the id with underscores, block packages anywhere, the rest under the id and a dot. */
  lemma CapabilitiesIff(id: PackId, caps: Capabilities)
    ensures CapabilitiesOk(id, caps) <==>
              && NamesUnder(Underscored(id) + "_", caps.pageTypes) && NamesUnder(id + ".", caps.blocks)
              && NamesUnder("", caps.blockPackages) && NamesUnder(id + ".", caps.views)
              && NamesUnder(id + ".", caps.commands) && NamesUnder(id + ".", caps.operations)
              && NamesUnder(id + ".", caps.temporalProfiles)
  {
    hide IsCapabilityName, NamesUnder, Distinct, Underscored;
    NamesUnderIff(Underscored(id) + "_", caps.pageTypes);
    NamesUnderIff(id + ".", caps.blocks);
    NamesUnderIff("", caps.blockPackages);
    NamesUnderIff(id + ".", caps.views);
    NamesUnderIff(id + ".", caps.commands);
    NamesUnderIff(id + ".", caps.operations);
    NamesUnderIff(id + ".", caps.temporalProfiles);
    EveryList(id, caps);
  }

  lemma EveryList(id: PackId, caps: Capabilities)
    ensures CapabilitiesOk(id, caps) <==>
              && KeyOk(id, PageTypes, caps.pageTypes) && KeyOk(id, Blocks, caps.blocks)
              && KeyOk(id, BlockPackages, caps.blockPackages) && KeyOk(id, Views, caps.views)
              && KeyOk(id, Commands, caps.commands) && KeyOk(id, Operations, caps.operations)
              && KeyOk(id, TemporalProfiles, caps.temporalProfiles)
  {
    hide KeyOk;
    EveryKey(id, caps);
    assert ALL_CAPABILITIES == [PageTypes, Blocks, BlockPackages, Views, Commands, Operations, TemporalProfiles];
    EachOfSeven(j => 0 <= j < 7 && KeyOk(id, ALL_CAPABILITIES[j], caps.Of(ALL_CAPABILITIES[j])));
  }

  lemma EachOfSeven(p: int -> bool)
    ensures (forall j :: 0 <= j < 7 ==> p(j)) <==> p(0) && p(1) && p(2) && p(3) && p(4) && p(5) && p(6)
  {
  }

  /** Each kind of slot has its own prefix, and its rows name what the pack declares of that kind. */
  lemma SlotsIff(slots: Slots, caps: Capabilities)
    ensures SlotsOk(slots, caps) <==>
              && RowsUnder("view.", slots.views, caps.views) && RowsUnder("command.", slots.commands, caps.commands)
              && RowsUnder("operation.", slots.operations, caps.operations)
              && RowsUnder("timeline.", slots.timelines, caps.temporalProfiles)
  {
    hide RowsUnder;
    if SlotsOk(slots, caps) {
      assert RowsOk(ViewSlots, slots.Of(ViewSlots), caps.Of(Views));
      assert RowsOk(CommandSlots, slots.Of(CommandSlots), caps.Of(Commands));
      assert RowsOk(OperationSlots, slots.Of(OperationSlots), caps.Of(Operations));
      assert RowsOk(TimelineSlots, slots.Of(TimelineSlots), caps.Of(TemporalProfiles));
    }
  }

  // ----- labels -----------------------------------------------------------------------------

  /** What a pack must label: itself, and what it declares that a reader can meet. */
  predicate MustLabel(id: PackId, caps: Capabilities, eventKinds: set<string>, name: string) {
    || name == id || name in caps.pageTypes || name in caps.views || name in caps.commands
    || name in caps.operations || name in caps.temporalProfiles || name in eventKinds
  }

  /** An entry is readable when its bundle is its own, and every declared locale labels just what must be labelled. */
  lemma ReadableIff(id: PackId, pin: Pin)
    ensures var tree := pin.treeSha.of;
            EntryReadable(id, pin) <==>
              && pin.manifestSha == Sha(tree.manifest) && tree.manifest.id == id && tree.manifest.version == pin.version
              && "en" in tree.manifest.locales && "es" in tree.manifest.locales && "pt-BR" in tree.manifest.locales
              && tree.eventKinds != {} && (forall e :: e in tree.eventKinds ==> NamesUnder(id + ".", [e]))
              && forall l :: l in tree.manifest.locales ==>
                   l in tree.labels && forall n :: n in tree.labels[l] <==> MustLabel(id, pin.capabilities, tree.eventKinds, n)
  {
    hide NamesUnder, EventKindsOk, Identifiers, MustLabel;
    var tree := pin.treeSha.of;
    forall l | l in tree.labels
      ensures tree.labels[l].Keys == Identifiers(id, pin.capabilities, tree.eventKinds) <==>
                forall n :: n in tree.labels[l] <==> MustLabel(id, pin.capabilities, tree.eventKinds, n)
    {
      KeysAre(tree.labels[l], id, pin.capabilities, tree.eventKinds);
    }
    KindsUnder(id, tree.eventKinds);
  }

  lemma KeysAre(labels: map<string, string>, id: PackId, caps: Capabilities, eventKinds: set<string>)
    ensures labels.Keys == Identifiers(id, caps, eventKinds) <==>
              forall n :: n in labels <==> MustLabel(id, caps, eventKinds, n)
  {
    assert forall n :: n in Identifiers(id, caps, eventKinds) <==> MustLabel(id, caps, eventKinds, n);
    if forall n :: n in labels <==> MustLabel(id, caps, eventKinds, n) {
      assert forall n :: n in labels.Keys <==> n in Identifiers(id, caps, eventKinds);
    }
  }

  lemma KindsUnder(id: PackId, eventKinds: set<string>)
    ensures EventKindsOk(id, eventKinds) <==> eventKinds != {} && forall e :: e in eventKinds ==> NamesUnder(id + ".", [e])
  {
    hide IsCapabilityName, NamesUnder;
    forall e
      ensures NamesUnder(id + ".", [e]) <==> IsCapabilityName(e) && id + "." <= e
    {
      NamesUnderIff(id + ".", [e]);
      assert [e][0] == e;
    }
  }
}
