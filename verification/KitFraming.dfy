/**
 Which streams are accepted for the objects asked for, said of the bytes alone: header lines, payloads, and
 nothing else.
 */
module KitFraming {
  import opened Outcomes
  import opened Text
  import opened KitContent

  // ----- header lines -----------------------------------------------------------------------

  /** Tab, line feed, vertical tab, form feed, carriage return, space. */
  predicate White(b: byte) { b == 9 || b == 10 || b == 11 || b == 12 || b == 13 || b == 32 }

  lemma WhiteIff(b: byte)
    ensures White(b) <==> IsBlankByte(b)
  {
  }

  predicate Gap(g: Bytestring) { forall i :: 0 <= i < |g| ==> White(g[i]) }

  predicate Word(w: Bytestring) { w != [] && forall i :: 0 <= i < |w| ==> !White(w[i]) }

  ghost predicate Spaced(line: Bytestring, a: Bytestring, name: Bytestring, b: Bytestring, c: Bytestring,
                         digits: Bytestring, d: Bytestring)
  {
    && line == a + (name + (b + ([98, 108, 111, 98] + (c + (digits + d)))))
    && Gap(a) && Gap(b) && Gap(c) && Gap(d) && b != [] && c != []
    && Word(name) && AllDigits(Chars(digits))
  }

  /** The object's name, the word `blob`, and a number in decimal, with whitespace between and perhaps around. */
  ghost predicate Announces(line: Bytestring, name: Bytestring, size: nat) {
    exists a, b, c, digits, d :: Spaced(line, a, name, b, c, digits, d) && ParseDecimal(Chars(digits)) == size
  }

  lemma {:induction false} GapSkipped(g: Bytestring, rest: Bytestring)
    requires Gap(g)
    ensures Fields(g + rest) == Fields(rest)
  {
    if g == [] {
      assert g + rest == rest;
    } else {
      GapSkipped(g[1..], rest);
      assert (g + rest)[0] == g[0];
      assert (g + rest)[1..] == g[1..] + rest;
    }
  }

  lemma GapHasNoFields(g: Bytestring)
    requires Gap(g)
    ensures Fields(g) == []
  {
    GapSkipped(g, []);
    assert g + [] == g;
  }

  lemma FieldThenGap(f: Bytestring, g: Bytestring, rest: Bytestring)
    requires Word(f) && Gap(g) && (g == [] ==> rest == [])
    ensures Fields(f + (g + rest)) == [f] + Fields(rest)
  {
    assert g != [] ==> (g + rest)[0] == g[0];
    assert g + rest == [] || IsBlankByte((g + rest)[0]);
    FirstField(f, g + rest);
    GapSkipped(g, rest);
  }

  lemma DigitsAreWord(digits: Bytestring)
    requires AllDigits(Chars(digits))
    ensures Word(digits)
  {
    assert forall i :: 0 <= i < |digits| ==> IsDigit(Chars(digits)[i]);
  }

  lemma SpacedFields(line: Bytestring, a: Bytestring, name: Bytestring, b: Bytestring, c: Bytestring,
                     digits: Bytestring, d: Bytestring)
    requires Spaced(line, a, name, b, c, digits, d)
    ensures Fields(line) == [name, [98, 108, 111, 98], digits]
  {
    hide Fields, Gap, Word;
    var word: Bytestring := [98, 108, 111, 98];
    assert Word(word) by { BlobIsWord(); }
    DigitsAreWord(digits);
    GapHasNoFields(d);
    EmptyGap();
    FieldThenGap(digits, d, []);
    assert digits + (d + []) == digits + d;
    FieldThenGap(word, c, digits + d);
    FieldThenGap(name, b, word + (c + (digits + d)));
    GapSkipped(a, name + (b + (word + (c + (digits + d)))));
    GapHasNoFields([]);
  }

  lemma BlobIsWord()
    ensures Word([98, 108, 111, 98])
  {
  }

  lemma EmptyGap()
    ensures Gap([])
  {
  }

  /** The whitespace in front, the first field, and what follows it. */
  lemma {:induction false} FirstOf(s: Bytestring) returns (gap: Bytestring, rest: Bytestring)
    requires Fields(s) != []
    ensures Gap(gap) && Word(Fields(s)[0]) && s == gap + (Fields(s)[0] + rest) && Fields(rest) == Fields(s)[1..]
    ensures rest == [] || White(rest[0])
  {
    hide White, FieldRun, Word, Gap, IsBlankByte;
    WhiteIff(s[0]);
    if IsBlankByte(s[0]) {
      var g, r := FirstOf(s[1..]);
      gap, rest := [s[0]] + g, r;
      GapGrows(s[0], g);
      assert s == [s[0]] + s[1..];
      assert gap + (Fields(s)[0] + rest) == [s[0]] + (g + (Fields(s)[0] + rest));
    } else {
      RunIsWord(s);
      gap, rest := [], s[FieldRun(s)..];
      EmptyGap();
      assert s == [] + (s[..FieldRun(s)] + rest);
    }
  }

  lemma GapGrows(b: byte, g: Bytestring)
    requires White(b) && Gap(g)
    ensures Gap([b] + g)
  {
  }

  lemma {:induction false} RunIsWord(s: Bytestring)
    requires s != [] && !IsBlankByte(s[0])
    ensures Word(s[..FieldRun(s)]) && (FieldRun(s) < |s| ==> White(s[FieldRun(s)]))
  {
    if |s| > 1 && !IsBlankByte(s[1]) {
      RunIsWord(s[1..]);
      var n := FieldRun(s[1..]);
      var run := s[..n + 1];
      assert forall i :: 0 < i < n + 1 ==> run[i] == s[1..][..n][i - 1];
    } else {
      assert FieldRun(s[1..]) == 0;
    }
  }

  lemma {:induction false} NoFieldsIsGap(s: Bytestring)
    requires Fields(s) == []
    ensures Gap(s)
  {
    if s != [] {
      NoFieldsIsGap(s[1..]);
      assert forall i :: 0 < i < |s| ==> s[i] == s[1..][i - 1];
    }
  }

  lemma HeadOf(gap: Bytestring, w: Bytestring, rest: Bytestring)
    requires w != []
    ensures (gap + (w + rest))[0] == if gap == [] then w[0] else gap[0]
  {
  }

  lemma GapLeads(s: Bytestring, gap: Bytestring, w: Bytestring, rest: Bytestring)
    requires s == gap + (w + rest) && Word(w) && White(s[0])
    ensures gap != []
  {
    HeadOf(gap, w, rest);
  }

  /** A header is accepted exactly when it announces the object, and gives the size it announces. */
  lemma HeaderSizeIff(line: Bytestring, name: Bytestring, size: nat)
    ensures HeaderSize(line, name) == Some(size) <==> Announces(line, name, size)
  {
    hide Fields, Gap, Word, ParseDecimal;
    assert Ascii("blob") == [98, 108, 111, 98];
    if HeaderSize(line, name) == Some(size) {
      var a, r := FirstOf(line);
      var b, s := FirstOf(r);
      var c, d := FirstOf(s);
      assert Fields(line)[1..][0] == Fields(line)[1] && Fields(r)[1..][0] == Fields(r)[1];
      NoFieldsIsGap(d);
      GapLeads(r, b, Fields(r)[0], s);
      GapLeads(s, c, Fields(s)[0], d);
      assert Spaced(line, a, name, b, c, Fields(line)[2], d);
    }
    forall a, b, c, digits, d | Spaced(line, a, name, b, c, digits, d)
      ensures Fields(line) == [name, [98, 108, 111, 98], digits]
    {
      SpacedFields(line, a, name, b, c, digits, d);
    }
  }

  // ----- whole streams ----------------------------------------------------------------------

  ghost predicate Frame(s: Bytestring, header: Bytestring, payload: Bytestring, rest: Bytestring, name: Bytestring) {
    && s == header + ([10] + (payload + ([10] + rest)))
    && 10 !in header && Announces(header, name, |payload|)
  }

  /** For each object its header line and its payload, each with a newline after it, and nothing else. */
  ghost predicate Framed(s: Bytestring, names: seq<Bytestring>, payloads: seq<Bytestring>)
    decreases |names|
  {
    if names == [] then s == [] && payloads == []
    else
      && payloads != []
      && exists header, rest :: Frame(s, header, payloads[0], rest, names[0]) && Framed(rest, names[1..], payloads[1..])
  }

  lemma FrameRead(s: Bytestring, offset: nat, header: Bytestring, payload: Bytestring, rest: Bytestring, name: Bytestring)
    requires offset <= |s| && Frame(s[offset..], header, payload, rest, name)
    ensures var next := |s| - |rest|;
            offset < next && s[next..] == rest && ReadRecord(s, offset, name) == Ok((payload, next))
  {
    hide HeaderSize, ReadRecord, Announces;
    HeaderSizeIff(header, name, |payload|);
    var from, n := s[offset..], |header|;
    assert from[..n] == header && from[n] == 10 && from[n + 1..n + 1 + |payload|] == payload;
    assert from[n + 1 + |payload|] == 10 && from[n + 1 + |payload| + 1..] == rest;
    assert s[offset..offset + n] == header && s[offset + n] == 10;
    assert s[offset + n + 1..offset + n + 1 + |payload|] == payload;
    ReadAt(s, offset, header, payload, name);
  }

  lemma ReadFramed(s: Bytestring, offset: nat, name: Bytestring) returns (header: Bytestring, rest: Bytestring)
    requires offset <= |s| && ReadRecord(s, offset, name).Ok?
    ensures var (payload, next) := ReadRecord(s, offset, name).value;
            rest == s[next..] && Frame(s[offset..], header, payload, rest, name)
  {
    hide HeaderSize, Find, Announces;
    var end := Find(s, offset).value;
    header := s[offset..end];
    var size := HeaderSize(header, name).value;
    HeaderSizeIff(header, name, size);
    var next := end + 1 + size;
    rest := s[next + 1..];
    assert s[offset..] == header + ([10] + (s[end + 1..next] + ([10] + rest)));
  }

  lemma ReadingByHead(s: Bytestring, offset: nat, names: seq<Bytestring>, payloads: seq<Bytestring>)
    requires offset <= |s| && names != []
    ensures ReadRecords(s, offset, names) == Ok((payloads, |s|)) <==>
              && ReadRecord(s, offset, names[0]).Ok? && payloads != []
              && payloads[0] == ReadRecord(s, offset, names[0]).value.0
              && ReadRecords(s, ReadRecord(s, offset, names[0]).value.1, names[1..]) == Ok((payloads[1..], |s|))
  {
    hide ReadRecord;
    if ReadRecord(s, offset, names[0]).Ok? {
      var (payload, next) := ReadRecord(s, offset, names[0]).value;
      var later := ReadRecords(s, next, names[1..]);
      if later.Ok? {
        assert ([payload] + later.value.0)[1..] == later.value.0;
        assert payloads != [] ==> [payloads[0]] + payloads[1..] == payloads;
      }
    }
  }

  lemma {:induction false} ReadIffFramed(s: Bytestring, offset: nat, names: seq<Bytestring>, payloads: seq<Bytestring>)
    requires offset <= |s|
    ensures ReadRecords(s, offset, names) == Ok((payloads, |s|)) <==> Framed(s[offset..], names, payloads)
    decreases |names|
  {
    hide ReadRecord, Frame, ReadRecords;
    if names == [] {
      NothingRead(s, offset);
    } else {
      ReadingByHead(s, offset, names, payloads);
      if Framed(s[offset..], names, payloads) {
        var header, rest :| Frame(s[offset..], header, payloads[0], rest, names[0]) && Framed(rest, names[1..], payloads[1..]);
        FrameRead(s, offset, header, payloads[0], rest, names[0]);
        ReadIffFramed(s, |s| - |rest|, names[1..], payloads[1..]);
      }
      if ReadRecords(s, offset, names) == Ok((payloads, |s|)) {
        var header, rest := ReadFramed(s, offset, names[0]);
        ReadIffFramed(s, ReadRecord(s, offset, names[0]).value.1, names[1..], payloads[1..]);
      }
    }
  }

  lemma NothingRead(s: Bytestring, offset: nat)
    requires offset <= |s|
    ensures ReadRecords(s, offset, []) == Ok(([], offset))
  {
  }

  /** A stream is accepted, with these payloads, exactly when it is framed so for the objects asked for. */
  lemma AcceptedIffFramed(s: Bytestring, names: seq<Bytestring>, payloads: seq<Bytestring>)
    ensures ReadBatch(s, names) == Ok(payloads) <==> Framed(s, names, payloads)
  {
    hide ReadRecords, Framed;
    ReadIffFramed(s, 0, names, payloads);
    assert s[0..] == s;
  }
}
