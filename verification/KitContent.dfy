/**
 The kit's side of a sync: which files of a tree are portable, and the stream their contents arrive
 in, one record a file: a header line with the object's name, kind and size, the payload, a newline.
 */
module KitContent {
  import opened Outcomes
  import opened Text

  newtype byte = x: int | 0 <= x < 256

  type Bytestring = seq<byte>

  const NEWLINE: byte := 10

  function Ascii(s: string): (b: Bytestring)
    requires forall i :: 0 <= i < |s| ==> s[i] < 128 as char
    ensures |b| == |s| && forall i :: 0 <= i < |s| ==> b[i] == s[i] as byte
  {
    seq(|s|, i requires 0 <= i < |s| => s[i] as byte)
  }

  function Chars(b: Bytestring): (s: string)
    ensures |s| == |b| && forall i :: 0 <= i < |b| ==> s[i] == b[i] as char
  {
    seq(|b|, i requires 0 <= i < |b| => b[i] as char)
  }

  predicate IsBlankByte(b: byte) { b == 32 || 9 <= b <= 13 }

  predicate IsField(f: Bytestring) { f != [] && forall i :: 0 <= i < |f| ==> !IsBlankByte(f[i]) }

  function FieldRun(s: Bytestring): (n: nat)
    ensures n <= |s|
  {
    if s == [] || IsBlankByte(s[0]) then 0 else 1 + FieldRun(s[1..])
  }

  /** Splitting a header line on runs of ASCII whitespace. */
  function Fields(s: Bytestring): seq<Bytestring> {
    if s == [] then []
    else if IsBlankByte(s[0]) then Fields(s[1..])
    else [s[..FieldRun(s)]] + Fields(s[FieldRun(s)..])
  }

  // ----- reading a stream -------------------------------------------------------------------

  datatype FrameError = Incomplete | Invalid

  /** The first newline at or after `from`. */
  function Find(s: Bytestring, from: nat): (r: Option<nat>)
    ensures r.Some? ==> from <= r.value < |s| && s[r.value] == NEWLINE
    ensures r.Some? ==> forall i :: from <= i < r.value ==> s[i] != NEWLINE
    ensures r.None? ==> forall i :: from <= i < |s| ==> s[i] != NEWLINE
    decreases |s| - from
  {
    if from >= |s| then None else if s[from] == NEWLINE then Some(from) else Find(s, from + 1)
  }

  /** The size a header announces, if it names the object asked for. */
  function HeaderSize(line: Bytestring, blob: Bytestring): Option<nat> {
    var f := Fields(line);
    if |f| == 3 && f[0] == blob && f[1] == Ascii("blob") && AllDigits(Chars(f[2])) then Some(ParseDecimal(Chars(f[2])))
    else None
  }

  /** One record at `offset`: its payload, and where the next record starts. */
  function ReadRecord(s: Bytestring, offset: nat, blob: Bytestring): (r: Result<(Bytestring, nat), FrameError>)
    requires offset <= |s|
    ensures r.Ok? ==> offset < r.value.1 <= |s|
  {
    match Find(s, offset)
    case None => Err(Incomplete)
    case Some(end) =>
      match HeaderSize(s[offset..end], blob)
      case None => Err(Invalid)
      case Some(size) =>
        var next := end + 1 + size;
        if next >= |s| || s[next] != NEWLINE then Err(Incomplete)
        else Ok((s[end + 1..next], next + 1))
  }

  /** The records of the named objects, one after another. */
  function ReadRecords(s: Bytestring, offset: nat, blobs: seq<Bytestring>)
    : (r: Reading)
    requires offset <= |s|
    ensures r.Ok? ==> offset <= r.value.1 <= |s| && |r.value.0| == |blobs|
    decreases |blobs|
  {
    if blobs == [] then Ok(([], offset))
    else
      match ReadRecord(s, offset, blobs[0])
      case Err(e) => Err(e)
      case Ok((payload, next)) =>
        After([payload], ReadRecords(s, next, blobs[1..]))
  }

  type Reading = Result<(seq<Bytestring>, nat), FrameError>

  /** What is read after some payloads, with them in front. */
  function After(first: seq<Bytestring>, rest: Reading): Reading {
    match rest
    case Err(e) => Err(e)
    case Ok(v) => Ok((first + v.0, v.1))
  }

  lemma AfterTwice(x: seq<Bytestring>, y: seq<Bytestring>, r: Reading)
    ensures After(x, After(y, r)) == After(x + y, r) && After([], r) == r
  {
    if r.Ok? {
      assert x + (y + r.value.0) == x + y + r.value.0;
      assert [] + r.value.0 == r.value.0;
    }
  }

  /** A whole stream: the records, and nothing after them. */
  function ReadBatch(s: Bytestring, blobs: seq<Bytestring>): Result<seq<Bytestring>, FrameError> {
    match ReadRecords(s, 0, blobs)
    case Err(e) => Err(e)
    case Ok((payloads, end)) => if end != |s| then Err(Invalid) else Ok(payloads)
  }

  lemma {:induction false} ReadInTwo(s: Bytestring, offset: nat, a: seq<Bytestring>, b: seq<Bytestring>)
    requires offset <= |s|
    ensures ReadRecords(s, offset, a + b) ==
            match ReadRecords(s, offset, a)
            case Err(e) => Err(e)
            case Ok(v) => After(v.0, ReadRecords(s, v.1, b))
    decreases |a|
  {
    hide ReadRecord, After;
    if a == [] {
      assert a + b == b;
      AfterTwice([], [], ReadRecords(s, offset, b));
    } else {
      assert (a + b)[1..] == a[1..] + b;
      match ReadRecord(s, offset, a[0])
      case Err(_) =>
      case Ok((payload, next)) =>
        ReadInTwo(s, next, a[1..], b);
        var rest := ReadRecords(s, next, a[1..]);
        AfterRead([payload], rest, s, b);
    }
  }

  lemma AfterRead(first: seq<Bytestring>, r: Reading, s: Bytestring, b: seq<Bytestring>)
    requires r.Ok? ==> r.value.1 <= |s|
    ensures After(first, r).Ok? <==> r.Ok?
    ensures r.Err? ==> After(first, r) == r
    ensures r.Ok? ==>
              && After(first, r).value == (first + r.value.0, r.value.1)
              && After(first + r.value.0, ReadRecords(s, r.value.1, b)) ==
                 After(first, After(r.value.0, ReadRecords(s, r.value.1, b)))
  {
    hide ReadRecords;
    if r.Ok? {
      AfterTwice(first, r.value.0, ReadRecords(s, r.value.1, b));
    }
  }

  lemma ReadOne(s: Bytestring, offset: nat, blob: Bytestring)
    requires offset <= |s|
    ensures ReadRecords(s, offset, [blob]) ==
            match ReadRecord(s, offset, blob)
            case Err(e) => Err(e)
            case Ok((payload, next)) => Ok(([payload], next))
  {
    hide ReadRecord;
    assert [blob][1..] == [];
    match ReadRecord(s, offset, blob)
    case Err(_) =>
    case Ok((payload, next)) =>
      assert ReadRecords(s, next, []) == Ok(([], next));
      assert [payload] + [] == [payload];
  }

  /** The framing loop, with its moving offset. */
  method DecodeBatch(s: Bytestring, blobs: seq<Bytestring>) returns (r: Result<seq<Bytestring>, FrameError>)
    ensures r == ReadBatch(s, blobs)
  {
    hide ReadRecords, HeaderSize;
    var offset := 0;
    var payloads: seq<Bytestring> := [];
    EmptyRead(s);
    for k := 0 to |blobs|
      invariant offset <= |s|
      invariant ReadRecords(s, 0, blobs[..k]) == Ok((payloads, offset))
    {
      assert blobs == blobs[..k] + blobs[k..] && blobs[..k + 1] == blobs[..k] + [blobs[k]];
      ReadInTwo(s, 0, blobs[..k], [blobs[k]]);
      ReadOne(s, offset, blobs[k]);
      FailedRead(s, blobs, k);
      var end := Find(s, offset);
      if end.None? {
        return Err(Incomplete);
      }
      var size := HeaderSize(s[offset..end.value], blobs[k]);
      if size.None? {
        return Err(Invalid);
      }
      var from := end.value + 1;
      offset := from + size.value;
      if offset >= |s| || s[offset] != NEWLINE {
        return Err(Incomplete);
      }
      payloads := payloads + [s[from..offset]];
      offset := offset + 1;
    }
    assert blobs[..|blobs|] == blobs;
    if offset != |s| {
      return Err(Invalid);
    }
    return Ok(payloads);
  }

  lemma EmptyRead(s: Bytestring)
    ensures ReadRecords(s, 0, []) == Ok(([], 0))
  {
  }

  lemma FailedRead(s: Bytestring, blobs: seq<Bytestring>, k: nat)
    requires k < |blobs|
    ensures ReadRecords(s, 0, blobs[..k + 1]).Err? ==> ReadRecords(s, 0, blobs) == ReadRecords(s, 0, blobs[..k + 1])
  {
    hide ReadRecords;
    assert blobs == blobs[..k + 1] + blobs[k + 1..];
    ReadInTwo(s, 0, blobs[..k + 1], blobs[k + 1..]);
  }

  // ----- the framing is a bijection ---------------------------------------------------------

  datatype Object = Object(name: Bytestring, payload: Bytestring)

  function HeaderLine(o: Object): Bytestring {
    o.name + Ascii(" blob ") + Ascii(Decimal(|o.payload|))
  }

  function Record(o: Object): (r: Bytestring)
    ensures |r| == |HeaderLine(o)| + |o.payload| + 2
  {
    HeaderLine(o) + [NEWLINE] + o.payload + [NEWLINE]
  }

  function Encode(objects: seq<Object>): Bytestring {
    if objects == [] then [] else Record(objects[0]) + Encode(objects[1..])
  }

  function Names(objects: seq<Object>): (r: seq<Bytestring>)
    ensures |r| == |objects| && forall i :: 0 <= i < |objects| ==> r[i] == objects[i].name
  {
    seq(|objects|, i requires 0 <= i < |objects| => objects[i].name)
  }

  function Payloads(objects: seq<Object>): (r: seq<Bytestring>)
    ensures |r| == |objects| && forall i :: 0 <= i < |objects| ==> r[i] == objects[i].payload
  {
    seq(|objects|, i requires 0 <= i < |objects| => objects[i].payload)
  }

  lemma {:induction false} RunOfField(f: Bytestring, rest: Bytestring)
    requires forall i :: 0 <= i < |f| ==> !IsBlankByte(f[i])
    requires rest == [] || IsBlankByte(rest[0])
    ensures FieldRun(f + rest) == |f|
  {
    if f == [] {
      assert f + rest == rest;
    } else {
      RunOfField(f[1..], rest);
      assert (f + rest)[1..] == f[1..] + rest;
    }
  }

  lemma FirstField(f: Bytestring, rest: Bytestring)
    requires IsField(f) && (rest == [] || IsBlankByte(rest[0]))
    ensures Fields(f + rest) == [f] + Fields(rest)
  {
    RunOfField(f, rest);
    assert (f + rest)[0] == f[0];
    assert (f + rest)[..|f|] == f && (f + rest)[|f|..] == rest;
  }

  lemma HeaderFields(o: Object)
    requires IsField(o.name)
    ensures Fields(HeaderLine(o)) == [o.name, Ascii("blob"), Ascii(Decimal(|o.payload|))]
  {
    hide Decimal, Fields;
    assert Fields([]) == [] by { NoFields(); }
    var digits := Ascii(Decimal(|o.payload|));
    var space, word: Bytestring := [32], Ascii("blob");
    FirstField(digits, []);
    assert digits + [] == digits;
    NextField(o.name, word + (space + digits));
    NextField(word, digits);
    assert Ascii(" blob ") == space + word + space;
    assert HeaderLine(o) == o.name + (space + (word + (space + digits)));
  }

  lemma NoFields()
    ensures Fields([]) == []
  {
  }

  lemma NextField(f: Bytestring, rest: Bytestring)
    requires IsField(f)
    ensures Fields(f + ([32] + rest)) == [f] + Fields(rest)
  {
    FirstField(f, [32] + rest);
    assert ([32] + rest)[1..] == rest;
  }

  lemma HeaderReads(o: Object)
    requires IsField(o.name)
    ensures HeaderSize(HeaderLine(o), o.name) == Some(|o.payload|)
    ensures forall i :: 0 <= i < |HeaderLine(o)| ==> HeaderLine(o)[i] != NEWLINE
  {
    hide Decimal, Fields, ParseDecimal;
    HeaderFields(o);
    ParseOfDecimal(|o.payload|);
    assert Chars(Ascii(Decimal(|o.payload|))) == Decimal(|o.payload|);
  }

  lemma FindAt(s: Bytestring, from: nat, at: nat)
    requires from <= at < |s| && s[at] == NEWLINE && forall i :: from <= i < at ==> s[i] != NEWLINE
    ensures Find(s, from) == Some(at)
  {
  }

  /** A header line, a newline, and enough bytes ending in a newline make a record. */
  lemma ReadAt(s: Bytestring, offset: nat, line: Bytestring, payload: Bytestring, name: Bytestring)
    requires offset + |line| + 1 + |payload| < |s|
    requires s[offset..offset + |line|] == line && s[offset + |line|] == NEWLINE
    requires s[offset + |line| + 1..offset + |line| + 1 + |payload|] == payload
    requires s[offset + |line| + 1 + |payload|] == NEWLINE
    requires HeaderSize(line, name) == Some(|payload|) && forall i :: 0 <= i < |line| ==> line[i] != NEWLINE
    ensures ReadRecord(s, offset, name) == Ok((payload, offset + |line| + 1 + |payload| + 1))
  {
    hide HeaderSize, Find;
    assert forall i :: offset <= i < offset + |line| ==> s[i] == s[offset..offset + |line|][i - offset];
    FindAt(s, offset, offset + |line|);
  }

  lemma ReadEncoded(before: Bytestring, o: Object, after: Bytestring)
    requires IsField(o.name)
    ensures ReadRecord(before + Record(o) + after, |before|, o.name) == Ok((o.payload, |before| + |Record(o)|))
  {
    hide HeaderLine, HeaderSize, Find, ReadRecord;
    var line := HeaderLine(o);
    var s := before + Record(o) + after;
    assert s == before + line + [NEWLINE] + o.payload + [NEWLINE] + after;
    HeaderReads(o);
    assert s[|before|..|before| + |line|] == line;
    assert s[|before| + |line| + 1..|before| + |line| + 1 + |o.payload|] == o.payload;
    ReadAt(s, |before|, line, o.payload, o.name);
  }

  lemma {:induction false} ReadEncodedAll(before: Bytestring, objects: seq<Object>)
    requires forall i :: 0 <= i < |objects| ==> IsField(objects[i].name)
    ensures var s := before + Encode(objects);
            ReadRecords(s, |before|, Names(objects)) == Ok((Payloads(objects), |s|))
    decreases |objects|
  {
    hide HeaderLine, Record, ReadRecord, IsField;
    if objects == [] {
      assert before + Encode(objects) == before;
    } else {
      var o, rest := objects[0], objects[1..];
      ReadEncoded(before, o, Encode(rest));
      ReadEncodedAll(before + Record(o), rest);
      assert before + Encode(objects) == before + Record(o) + Encode(rest);
      assert Names(objects)[1..] == Names(rest);
      assert Payloads(objects) == [o.payload] + Payloads(rest);
    }
  }

  lemma NothingBefore<T>(s: seq<T>)
    ensures [] + s == s
  {
  }

  /** Decoding inverts the framing for any payload bytes, newlines included. */
  lemma DecodeOfEncode(objects: seq<Object>)
    requires forall i :: 0 <= i < |objects| ==> IsField(objects[i].name)
    ensures ReadBatch(Encode(objects), Names(objects)) == Ok(Payloads(objects))
  {
    hide ReadRecords, Encode, IsField, Names, Payloads;
    ReadEncodedAll([], objects);
    NothingBefore(Encode(objects));
  }

  lemma {:induction false} FindAgrees(s: Bytestring, t: Bytestring, from: nat)
    requires t <= s
    ensures Find(t, from) == if Find(s, from).Some? && Find(s, from).value < |t| then Find(s, from) else None
    decreases |s| - from
  {
  }

  /** Reading a record looks no further than its end; a stream cut inside it is incomplete. */
  lemma RecordOfPrefix(s: Bytestring, t: Bytestring, offset: nat, blob: Bytestring)
    requires t <= s && offset <= |t| && ReadRecord(s, offset, blob).Ok?
    ensures ReadRecord(t, offset, blob)
         == if ReadRecord(s, offset, blob).value.1 <= |t| then ReadRecord(s, offset, blob) else Err(Incomplete)
  {
    hide HeaderSize, Find;
    FindAgrees(s, t, offset);
    var end := Find(s, offset).value;
    if end < |t| {
      assert s[offset..end] == t[offset..end];
      var next := end + 1 + HeaderSize(s[offset..end], blob).value;
      if next < |t| {
        assert s[end + 1..next] == t[end + 1..next];
      }
    }
  }

  lemma {:induction false} RecordsOfPrefix(s: Bytestring, t: Bytestring, offset: nat, blobs: seq<Bytestring>)
    requires t <= s && offset <= |t| && ReadRecords(s, offset, blobs).Ok?
    ensures ReadRecords(t, offset, blobs)
         == if ReadRecords(s, offset, blobs).value.1 <= |t| then ReadRecords(s, offset, blobs) else Err(Incomplete)
    decreases |blobs|
  {
    hide ReadRecord;
    if blobs != [] {
      RecordOfPrefix(s, t, offset, blobs[0]);
      var next := ReadRecord(s, offset, blobs[0]).value.1;
      if next <= |t| {
        RecordsOfPrefix(s, t, next, blobs[1..]);
      }
    }
  }

  /** Of an accepted stream every strict prefix is refused as incomplete, whatever its bytes. */
  lemma PrefixRefused(s: Bytestring, t: Bytestring, blobs: seq<Bytestring>)
    requires ReadBatch(s, blobs).Ok? && t < s
    ensures ReadBatch(t, blobs) == Err(Incomplete)
  {
    hide ReadRecords;
    RecordsOfPrefix(s, t, 0, blobs);
  }

  /** And every strict extension is refused as invalid. */
  lemma ExtensionRefused(s: Bytestring, t: Bytestring, blobs: seq<Bytestring>)
    requires ReadBatch(s, blobs).Ok? && s < t
    ensures ReadBatch(t, blobs) == Err(Invalid)
  {
    hide ReadRecords;
    RecordsOfExtension(s, t, 0, blobs);
  }

  lemma RecordOfExtension(s: Bytestring, t: Bytestring, offset: nat, blob: Bytestring)
    requires s <= t && offset <= |s| && ReadRecord(s, offset, blob).Ok?
    ensures ReadRecord(t, offset, blob) == ReadRecord(s, offset, blob)
  {
    hide HeaderSize, Find;
    FindAgrees(t, s, offset);
    var end := Find(s, offset).value;
    assert s[offset..end] == t[offset..end];
    var next := end + 1 + HeaderSize(s[offset..end], blob).value;
    assert s[end + 1..next] == t[end + 1..next];
  }

  lemma {:induction false} RecordsOfExtension(s: Bytestring, t: Bytestring, offset: nat, blobs: seq<Bytestring>)
    requires s <= t && offset <= |s| && ReadRecords(s, offset, blobs).Ok?
    ensures ReadRecords(t, offset, blobs) == ReadRecords(s, offset, blobs)
    decreases |blobs|
  {
    hide ReadRecord;
    if blobs != [] {
      RecordOfExtension(s, t, offset, blobs[0]);
      RecordsOfExtension(s, t, ReadRecord(s, offset, blobs[0]).value.1, blobs[1..]);
    }
  }

  // ----- the portable selection -------------------------------------------------------------

  type Path = string

  datatype Mode = Plain | Executable

  /** A line of the tree listing: regular files carry a mode, links and submodules do not. */
  datatype TreeEntry = TreeEntry(path: Path, mode: Option<Mode>, blob: Bytestring)

  datatype KitFile = KitFile(payload: Bytestring, mode: Mode)

  datatype KitError = NonRegular(path: Path) | EmptySelection | BadStream(error: FrameError)

  predicate Portable(e: TreeEntry, allowed: Path -> bool, blocked: Path -> bool) {
    allowed(e.path) && !blocked(e.path)
  }

  predicate DistinctPaths(tree: seq<TreeEntry>) {
    forall i, j :: 0 <= i < j < |tree| ==> tree[i].path != tree[j].path
  }

  function PortableEntries(tree: seq<TreeEntry>, allowed: Path -> bool, blocked: Path -> bool): (r: seq<TreeEntry>)
    ensures forall e :: e in r <==> e in tree && Portable(e, allowed, blocked)
  {
    if tree == [] then []
    else
      (if Portable(tree[0], allowed, blocked) then [tree[0]] else [])
      + PortableEntries(tree[1..], allowed, blocked)
  }

  function Blobs(entries: seq<TreeEntry>): (r: seq<Bytestring>)
    ensures |r| == |entries| && forall i :: 0 <= i < |entries| ==> r[i] == entries[i].blob
  {
    seq(|entries|, i requires 0 <= i < |entries| => entries[i].blob)
  }

  /** Which entries a kit revision's manifest selects; the names their contents are asked for by. */
  method SelectEntries(tree: seq<TreeEntry>, allowed: Path -> bool, blocked: Path -> bool)
    returns (r: Result<seq<TreeEntry>, KitError>)
    ensures r.Ok? ==> r.value == PortableEntries(tree, allowed, blocked) && r.value != []
    ensures r.Ok? ==> forall e :: e in r.value ==> e.mode.Some?
    ensures r.Err? && r.error.NonRegular? ==>
              exists e :: e in tree && Portable(e, allowed, blocked) && e.mode.None? && e.path == r.error.path
    ensures r.Err? && r.error.EmptySelection? ==> forall e :: e in tree ==> !Portable(e, allowed, blocked)
    ensures r.Err? ==> !r.error.BadStream?
  {
    hide PortableEntries;
    var selected: seq<TreeEntry> := [];
    for i := 0 to |tree|
      invariant selected + PortableEntries(tree[i..], allowed, blocked) == PortableEntries(tree, allowed, blocked)
      invariant forall e :: e in selected ==> e.mode.Some?
    {
      var e := tree[i];
      NextEntry(tree, i, allowed, blocked);
      if !allowed(e.path) {
        continue;
      }
      if blocked(e.path) {
        continue;
      }
      if e.mode.None? {
        return Err(NonRegular(e.path));
      }
      selected := selected + [e];
    }
    NoEntries(tree, allowed, blocked);
    if selected == [] {
      return Err(EmptySelection);
    }
    return Ok(selected);
  }

  lemma NextEntry(tree: seq<TreeEntry>, i: nat, allowed: Path -> bool, blocked: Path -> bool)
    requires i < |tree|
    ensures PortableEntries(tree[i..], allowed, blocked)
         == (if Portable(tree[i], allowed, blocked) then [tree[i]] else [])
            + PortableEntries(tree[i + 1..], allowed, blocked)
  {
  }

  lemma NoEntries(tree: seq<TreeEntry>, allowed: Path -> bool, blocked: Path -> bool)
    ensures PortableEntries(tree[|tree|..], allowed, blocked) == []
  {
  }

  /** The tracked files, from the tree listing and the stream that answers the request for their contents. */
  method TrackedFiles(tree: seq<TreeEntry>, allowed: Path -> bool, blocked: Path -> bool, batch: Bytestring)
    returns (r: Result<map<Path, KitFile>, KitError>)
    requires DistinctPaths(tree)
    ensures r.Ok? ==>
              var entries := PortableEntries(tree, allowed, blocked);
              var payloads := ReadBatch(batch, Blobs(entries));
              && payloads.Ok? && |payloads.value| == |entries|
              && (forall p :: p in r.value ==> exists i :: 0 <= i < |entries| && entries[i].path == p)
              && forall i :: 0 <= i < |entries| ==>
                   entries[i].mode.Some? && entries[i].path in r.value
                   && r.value[entries[i].path] == KitFile(payloads.value[i], entries[i].mode.value)
    ensures r.Ok? ==> r.value != map[]
    ensures r.Err? && r.error.BadStream? ==>
              ReadBatch(batch, Blobs(PortableEntries(tree, allowed, blocked))) == Err(r.error.error)
  {
    hide ReadBatch, PortableEntries;
    var selection := SelectEntries(tree, allowed, blocked);
    if selection.Err? {
      return Err(selection.error);
    }
    var entries := selection.value;
    StillDistinct(tree, allowed, blocked);
    var payloads := DecodeBatch(batch, Blobs(entries));
    if payloads.Err? {
      return Err(BadStream(payloads.error));
    }
    CountOfRead(batch, Blobs(entries));
    var files: map<Path, KitFile> := map[];
    for i := 0 to |entries|
      invariant forall p :: p in files ==> exists j :: 0 <= j < i && entries[j].path == p
      invariant forall j :: 0 <= j < i ==>
                  entries[j].path in files && files[entries[j].path] == KitFile(payloads.value[j], entries[j].mode.value)
    {
      files := files[entries[i].path := KitFile(payloads.value[i], entries[i].mode.value)];
    }
    assert entries[0].path in files;
    return Ok(files);
  }

  lemma CountOfRead(s: Bytestring, blobs: seq<Bytestring>)
    ensures ReadBatch(s, blobs).Ok? ==> |ReadBatch(s, blobs).value| == |blobs|
  {
  }

  lemma {:induction false} StillDistinct(tree: seq<TreeEntry>, allowed: Path -> bool, blocked: Path -> bool)
    requires DistinctPaths(tree)
    ensures DistinctPaths(PortableEntries(tree, allowed, blocked))
  {
    if tree != [] {
      assert forall i, j :: 0 <= i < j < |tree[1..]| ==> tree[1..][i] == tree[i + 1] && tree[1..][j] == tree[j + 1];
      StillDistinct(tree[1..], allowed, blocked);
      var rest := PortableEntries(tree[1..], allowed, blocked);
      forall e | e in rest
        ensures e.path != tree[0].path
      {
        var i :| 0 <= i < |tree[1..]| && tree[1..][i] == e;
        assert tree[i + 1] == e;
      }
    }
  }
}
