/**
 A source's text cut into identified chunks: how the text becomes units, and what the chunks keep of
 it.
 */
module SourceChunks {
  import opened Outcomes
  import opened Text
  import opened Chunking

  // ----- splitting plain text into units ----------------------------------------------------

  /** How much of the first `n` characters ends with the last newline among them. */
  function LastNewline(s: string, n: nat): (m: nat)
    requires n <= |s|
    ensures m <= n && (m > 0 ==> s[m - 1] == '\n')
  {
    if n == 0 then 0 else if s[n - 1] == '\n' then n else LastNewline(s, n - 1)
  }

  /** The length of the paragraph break that starts `s`: from one newline to the last of a run of whitespace. */
  function BreakLength(s: string): (n: nat)
    ensures n <= |s| && AllSpace(s[..n])
  {
    if s == [] || s[0] != '\n' then 0
    else
      var m := LastNewline(s[1..], SpaceRun(s[1..]));
      if m == 0 then 0 else
        assert forall i :: 0 < i < 1 + m ==> s[i] == s[1..][i - 1];
        1 + m
  }

  function ParagraphRun(s: string): (n: nat)
    ensures n <= |s| && (n < |s| ==> BreakLength(s[n..]) > 0)
  {
    if s == [] || BreakLength(s) > 0 then 0 else 1 + ParagraphRun(s[1..])
  }

  function Paragraphs(s: string): seq<string>
    decreases |s|
  {
    var n := ParagraphRun(s);
    if n == |s| then [s] else [s[..n]] + Paragraphs(s[n + BreakLength(s[n..])..])
  }

  predicate IsLineBreak(c: char) {
    var n := c as int;
    0x0a <= n <= 0x0d || 0x1c <= n <= 0x1e || n == 0x85 || n == 0x2028 || n == 0x2029
  }

  function PhysicalRun(s: string): (n: nat)
    ensures n <= |s| && (n < |s| ==> IsLineBreak(s[n]))
  {
    if s == [] || IsLineBreak(s[0]) then 0 else 1 + PhysicalRun(s[1..])
  }

  /** Splitting at every line boundary; an empty line more or less is dropped later. */
  function PhysicalLines(s: string): seq<string>
    decreases |s|
  {
    var n := PhysicalRun(s);
    if n == |s| then [s] else [s[..n]] + PhysicalLines(s[n + 1..])
  }

  /** The parts that are not blank, stripped. */
  function Kept(parts: seq<string>): seq<string> {
    if parts == [] then []
    else (if Strip(parts[0]) == "" then [] else [Strip(parts[0])]) + Kept(parts[1..])
  }

  /** Paragraphs when there are several, else lines when there are several, else the one block. */
  function SplitUnits(text: string): (r: (seq<string>, string)) {
    if |Kept(Paragraphs(text))| > 1 then (Kept(Paragraphs(text)), "\n\n")
    else if |Kept(PhysicalLines(text))| > 1 then (Kept(PhysicalLines(text)), "\n")
    else (Kept([text]), "\n\n")
  }

  lemma StrippedPart(s: string)
    ensures Words(Strip(s)) == Words(s)
    ensures Strip(s) == "" ==> Words(s) == []
    ensures Strip(s) != "" ==> !Blank(Strip(s))
  {
    StripKeepsWords(s);
  }

  lemma {:induction false} KeptKeepsWords(parts: seq<string>)
    ensures AllWords(Kept(parts)) == AllWords(parts)
    ensures forall i :: 0 <= i < |Kept(parts)| ==> !Blank(Kept(parts)[i])
  {
    hide Strip, Words, Blank;
    if parts != [] {
      var rest, w := Kept(parts[1..]), Strip(parts[0]);
      KeptKeepsWords(parts[1..]);
      assert Words(w) == Words(parts[0]) && (w == "" ==> Words(parts[0]) == []) && (w != "" ==> !Blank(w)) by {
        StrippedPart(parts[0]);
      }
      assert w == "" ==> Kept(parts) == rest;
      if w != "" {
        assert Kept(parts) == [w] + rest;
        assert ([w] + rest)[1..] == rest;
      }
    }
  }

  lemma {:induction false} ParagraphsKeepWords(s: string)
    ensures AllWords(Paragraphs(s)) == Words(s)
    decreases |s|
  {
    hide Words, BreakLength, ParagraphRun;
    var n := ParagraphRun(s);
    assert AllWords([]) == [];
    if n < |s| {
      var b := BreakLength(s[n..]);
      var rest := s[n + b..];
      ParagraphsKeepWords(rest);
      assert s == s[..n] + s[n..][..b] + rest;
      WordsSeparate(s[..n], s[n..][..b], rest);
      assert Paragraphs(s)[1..] == Paragraphs(rest);
    }
  }

  lemma {:induction false} LinesKeepWords(s: string)
    ensures AllWords(PhysicalLines(s)) == Words(s)
    decreases |s|
  {
    hide Words, PhysicalRun;
    var n := PhysicalRun(s);
    assert AllWords([]) == [];
    if n < |s| {
      var rest := s[n + 1..];
      LinesKeepWords(rest);
      assert s == s[..n] + [s[n]] + rest;
      WordsSeparate(s[..n], [s[n]], rest);
      assert PhysicalLines(s)[1..] == PhysicalLines(rest);
    }
  }

  /** However a text is split, its units hold its words, all of them and in order, and none is blank. */
  lemma SplitKeepsWords(text: string)
    ensures AllWords(SplitUnits(text).0) == Words(text)
    ensures forall i :: 0 <= i < |SplitUnits(text).0| ==> !Blank(SplitUnits(text).0[i])
    ensures IsSeparator(SplitUnits(text).1)
  {
    hide Words, Kept, Paragraphs, PhysicalLines;
    KeptKeepsWords(Paragraphs(text));
    KeptKeepsWords(PhysicalLines(text));
    KeptKeepsWords([text]);
    ParagraphsKeepWords(text);
    LinesKeepWords(text);
    assert AllWords([text]) == Words(text) + AllWords([]);
  }

  // ----- units of a source ------------------------------------------------------------------

  datatype SourceUnit = Paragraph(text: string) | TableRow(text: string)

  function SourceTexts(units: seq<SourceUnit>): (r: seq<string>)
    ensures |r| == |units| && forall i :: 0 <= i < |units| ==> r[i] == units[i].text
  {
    seq(|units|, i requires 0 <= i < |units| => units[i].text)
  }

  function OfSource(units: seq<SourceUnit>): (r: seq<Unit>)
    ensures |r| == |units|
    ensures forall i :: 0 <= i < |units| ==> r[i] == Unit(units[i].text, units[i].TableRow?)
  {
    seq(|units|, i requires 0 <= i < |units| => Unit(units[i].text, units[i].TableRow?))
  }

  function Marked(texts: seq<string>, atomic: bool): (r: seq<Unit>)
    ensures |r| == |texts| && forall i :: 0 <= i < |texts| ==> r[i] == Unit(texts[i], atomic)
  {
    seq(|texts|, i requires 0 <= i < |texts| => Unit(texts[i], atomic))
  }

  function NonBlank(lines: seq<string>): (r: seq<string>)
    ensures forall i :: 0 <= i < |r| ==> !Blank(r[i])
  {
    if lines == [] then []
    else (if Blank(lines[0]) then [] else [lines[0]]) + NonBlank(lines[1..])
  }

  /** The units, and the separator that joins them again. */
  function UnitsOf(text: string, preserveLines: bool, sourceUnits: Option<seq<SourceUnit>>)
    : Result<(seq<Unit>, string), ChunkError>
  {
    if preserveLines && sourceUnits.Some? then Err(ConflictingModes)
    else if sourceUnits.Some? then
      if Join("\n", SourceTexts(sourceUnits.value)) != text then Err(UnitsDifferFromText)
      else Ok((OfSource(sourceUnits.value), "\n"))
    else if preserveLines then Ok((Marked(NonBlank(Lines(text)), true), "\n"))
    else Ok((Marked(SplitUnits(text).0, false), SplitUnits(text).1))
  }

  // ----- chunks -----------------------------------------------------------------------------

  datatype Chunk = Chunk(id: string, ordinal: nat, text: string, tokenEstimate: nat, hash: string)

  function First10(s: string): string { if |s| < 10 then s else s[..10] }

  function TokenEstimate(g: Group): nat {
    var words, bytes := EstimateTokens(g.text), CeilDiv(Bytes(g.text), 4);
    if g.hasAtomic && words < bytes then bytes else words
  }

  function IdPrefix(sourceId: string): string { sourceId + "-chunk-" }

  function ChunkOf(sourceId: string, ordinal: nat, g: Group, sha: string -> string): Chunk {
    var digest := sha(g.text);
    Chunk(IdPrefix(sourceId) + Padded(ordinal) + "-" + First10(digest), ordinal, g.text, TokenEstimate(g), digest)
  }

  function ChunksOf(sourceId: string, groups: seq<Group>, sha: string -> string): (r: seq<Chunk>)
    ensures |r| == |groups|
    ensures forall k :: 0 <= k < |groups| ==> r[k] == ChunkOf(sourceId, k + 1, groups[k], sha)
  {
    seq(|groups|, k requires 0 <= k < |groups| => ChunkOf(sourceId, k + 1, groups[k], sha))
  }

  /** The groups of some units: expanded, then gathered. */
  function GroupsOf(units: seq<Unit>, sep: string, target: nat, overlap: nat): seq<Group>
    requires target > 0
  {
    GroupsFrom(Expand(units, target, overlap), sep, target, 0)
  }

  /** What chunking a text gives, as one expression. */
  function Chunked(sourceId: string, text: string, target: nat, overlap: nat, preserveLines: bool,
                   sourceUnits: Option<seq<SourceUnit>>, sha: string -> string): Result<seq<Chunk>, ChunkError>
    requires target > 0
  {
    match UnitsOf(text, preserveLines, sourceUnits)
    case Err(e) => Err(e)
    case Ok(us) =>
      if RowsAccepted(us.0, target) then Ok(ChunksOf(sourceId, GroupsOf(us.0, us.1, target, overlap), sha))
      else Err(RowTooLarge)
  }

  /** The whole operation: units, expansion, grouping, and numbered chunks. */
  method ChunkText(sourceId: string, text: string, targetTokens: int, overlapTokens: int, preserveLines: bool,
                   sourceUnits: Option<seq<SourceUnit>>, sha: string -> string)
    returns (r: Result<seq<Chunk>, ChunkError>)
    ensures r == Chunked(sourceId, text, TargetWords(targetTokens), OverlapWords(overlapTokens), preserveLines,
                         sourceUnits, sha)
  {
    hide Expand, RowsAccepted, GroupsFrom, ChunkOf, TargetWords;
    var target, overlap := TargetWords(targetTokens), OverlapWords(overlapTokens);
    var units := UnitsOf(text, preserveLines, sourceUnits);
    if units.Err? {
      return Err(units.error);
    }
    var (us, sep) := units.value;
    if us == [] {
      NoUnits(sep, target, overlap);
      return Ok([]);
    }
    var expanded := ExpandUnits(us, target, overlap);
    if expanded.Err? {
      return Err(expanded.error);
    }
    var grouped := GroupUnits(expanded.value, sep, target);
    var chunks: seq<Chunk> := [];
    for k := 0 to |grouped|
      invariant chunks == ChunksOf(sourceId, grouped[..k], sha)
    {
      assert grouped[..k + 1] == grouped[..k] + [grouped[k]];
      chunks := chunks + [ChunkOf(sourceId, k + 1, grouped[k], sha)];
    }
    assert grouped[..|grouped|] == grouped;
    return Ok(chunks);
  }

  lemma NoUnits(sep: string, target: nat, overlap: nat)
    requires target > 0
    ensures RowsAccepted([], target) && GroupsOf([], sep, target, overlap) == []
  {
  }

  function ChunkTexts(chunks: seq<Chunk>): (r: seq<string>)
    ensures |r| == |chunks| && forall i :: 0 <= i < |chunks| ==> r[i] == chunks[i].text
  {
    seq(|chunks|, i requires 0 <= i < |chunks| => chunks[i].text)
  }

  // ----- what the chunks keep of the text ---------------------------------------------------

  /** Joining the chunks gives back the join of the expanded units. */
  lemma ChunksRejoin(sourceId: string, units: seq<Unit>, sep: string, target: nat, overlap: nat, sha: string -> string)
    requires target > 0
    ensures Join(sep, ChunkTexts(ChunksOf(sourceId, GroupsOf(units, sep, target, overlap), sha)))
         == Join(sep, Texts(Expand(units, target, overlap)))
  {
    hide Expand, GroupsFrom, Join;
    var expanded := Expand(units, target, overlap);
    GroupsRejoin(expanded, sep, target, 0);
    assert expanded[0..] == expanded;
    assert ChunkTexts(ChunksOf(sourceId, GroupsOf(units, sep, target, overlap), sha))
        == GroupTexts(GroupsOf(units, sep, target, overlap));
  }

  /** With document units and no oversized paragraph, joining the chunks gives back the exact text. */
  lemma SourceUnitsRejoin(sourceId: string, text: string, target: nat, overlap: nat, units: seq<SourceUnit>,
                          sha: string -> string)
    requires target > 0
    requires var r := Chunked(sourceId, text, target, overlap, false, Some(units), sha);
             r.Ok? && forall i :: 0 <= i < |units| ==> !Oversized(OfSource(units)[i], target)
    ensures var r := Chunked(sourceId, text, target, overlap, false, Some(units), sha);
            Join("\n", ChunkTexts(r.value)) == text
  {
    hide Expand, GroupsOf, ChunksOf, Oversized, Join, RowsAccepted;
    ChunksRejoin(sourceId, OfSource(units), "\n", target, overlap, sha);
    ExpandNothing(OfSource(units), target, overlap);
    assert Texts(OfSource(units)) == SourceTexts(units);
  }

  /** Windows without overlap partition the words. */
  lemma {:induction false} DisjointWindows(words: seq<string>, target: nat, start: nat)
    requires start < |words| && target > 0 && forall i :: 0 <= i < |words| ==> IsWord(words[i])
    ensures AllWords(Texts(Pieces(words, Windows(|words|, target, 0, start)))) == words[start..]
    decreases |words| - start
  {
    hide Windows, Pieces, Join, Words;
    var n, end := |words|, WindowEnd(|words|, target, start);
    NextPiece(words, target, 0, start);
    var first, all := Join(" ", words[start..end]), Pieces(words, Windows(n, target, 0, start));
    assert Words(first) == words[start..end] by { WordsOfJoinedWords(words[start..end]); }
    assert AllWords([]) == [];
    if end < n {
      assert NextStart(end, 0, start) == end;
      DisjointWindows(words, target, end);
      var rest := Pieces(words, Windows(n, target, 0, end));
      assert Texts(all)[1..] == Texts(rest);
      assert words[start..] == words[start..end] + words[end..];
    } else {
      assert Texts(all)[1..] == [];
    }
  }

  lemma AllWordsOfCons(x: string, rest: seq<string>)
    ensures AllWords([x] + rest) == Words(x) + AllWords(rest)
  {
    hide Words;
    assert ([x] + rest)[1..] == rest;
  }

  lemma {:induction false} AllWordsAppend(a: seq<string>, b: seq<string>)
    ensures AllWords(a + b) == AllWords(a) + AllWords(b)
  {
    hide Words, AllWords;
    if a == [] {
      assert a + b == b;
      NothingToSay();
    } else {
      HeadAndTail(a, b);
      AllWordsAppend(a[1..], b);
      AllWordsOfCons(a[0], a[1..]);
      AllWordsOfCons(a[0], a[1..] + b);
      Associative(Words(a[0]), AllWords(a[1..]), AllWords(b));
    }
  }

  lemma NothingToSay()
    ensures AllWords([]) == []
  {
  }

  lemma UnitKeepsWords(u: Unit, target: nat, overlap: nat)
    requires target > 0 && (overlap == 0 || !Oversized(u, target))
    ensures AllWords(Texts(ExpandUnit(u, target, overlap))) == Words(u.text)
  {
    hide Words, Windows, Pieces;
    if Oversized(u, target) {
      WordsAreWords(u.text);
      DisjointWindows(Words(u.text), target, 0);
      assert Words(u.text)[0..] == Words(u.text);
    } else {
      assert Texts([u]) == [u.text];
      assert AllWords([u.text]) == Words(u.text) + AllWords([]);
    }
  }

  lemma {:induction false} ExpandKeepsWords(units: seq<Unit>, target: nat, overlap: nat)
    requires target > 0 && (overlap == 0 || forall i :: 0 <= i < |units| ==> !Oversized(units[i], target))
    ensures AllWords(Texts(Expand(units, target, overlap))) == AllWords(Texts(units))
  {
    hide Words, ExpandUnit, Oversized, AllWords;
    if units != [] {
      var first, rest := ExpandUnit(units[0], target, overlap), Expand(units[1..], target, overlap);
      UnitKeepsWords(units[0], target, overlap);
      ExpandKeepsWords(units[1..], target, overlap);
      assert Texts(first + rest) == Texts(first) + Texts(rest);
      AllWordsAppend(Texts(first), Texts(rest));
      assert Texts(units) == [units[0].text] + Texts(units[1..]);
      AllWordsOfCons(units[0].text, Texts(units[1..]));
    }
  }

  /**
   No word is lost, repeated or moved: without overlap, or without an oversized unit, the chunks of
   a plain text hold its words exactly.
   */
  lemma PlainTextKeepsWords(sourceId: string, text: string, target: nat, overlap: nat, sha: string -> string)
    requires target > 0
    requires overlap == 0 || forall i :: 0 <= i < |SplitUnits(text).0| ==> |Words(SplitUnits(text).0[i])| <= Limit(target)
    ensures var r := Chunked(sourceId, text, target, overlap, false, None, sha);
            r.Ok? && AllWords(ChunkTexts(r.value)) == Words(text)
  {
    hide Words, Expand, GroupsOf, SplitUnits, ChunksOf, AllWords, Join, Limit;
    var (parts, sep) := SplitUnits(text);
    var units := Marked(parts, false);
    PlainChunked(sourceId, text, target, overlap, sha);
    SplitKeepsWords(text);
    ExpandKeepsWords(units, target, overlap);
    assert Texts(units) == parts;
    ChunksRejoin(sourceId, units, sep, target, overlap, sha);
    WordsOfJoin(sep, Texts(Expand(units, target, overlap)));
    WordsOfJoin(sep, ChunkTexts(ChunksOf(sourceId, GroupsOf(units, sep, target, overlap), sha)));
  }

  /** Plain text has no rows to refuse. */
  lemma PlainChunked(sourceId: string, text: string, target: nat, overlap: nat, sha: string -> string)
    requires target > 0
    ensures Chunked(sourceId, text, target, overlap, false, None, sha) ==
            Ok(ChunksOf(sourceId, GroupsOf(Marked(SplitUnits(text).0, false), SplitUnits(text).1, target, overlap), sha))
  {
    hide GroupsOf, SplitUnits, ChunksOf, Weight;
  }

  /** How many units the g-th group holds. */
  function UnitsIn(units: seq<Unit>, target: nat, g: nat): int {
    var ws := WeightsOf(units);
    if g < |Cuts(ws, target, 0)| then Cuts(ws, target, 0)[g] - GroupStart(ws, target, 0, g) else 0
  }

  lemma GroupSize(units: seq<Unit>, sep: string, targetTokens: int, g: nat)
    requires IsSeparator(sep) && !AnyAtomic(units) && Expanded(units, TargetWords(targetTokens))
    requires g < |GroupsFrom(units, sep, TargetWords(targetTokens), 0)|
    ensures var target := TargetWords(targetTokens);
            var group := GroupsFrom(units, sep, target, 0)[g];
            && !group.hasAtomic
            && |Words(group.text)| <= Limit(target)
            && (UnitsIn(units, target, g) >= 2 && targetTokens >= 108 ==> EstimateTokens(group.text) <= targetTokens)
  {
    hide TargetWords, Words, GroupsFrom, Cuts, EstimateTokens, Expanded, WeightsOf, GroupStart, Join, Limit;
    var target := TargetWords(targetTokens);
    GroupCount(units, sep, target, 0);
    GroupAt(units, sep, target, 0, g);
    ChunkSize(units, sep, targetTokens, g);
  }

  /** The size bounds of the chunks of a plain text, whatever it holds. */
  lemma PlainChunkSize(sourceId: string, text: string, targetTokens: int, overlap: nat, sha: string -> string,
                       chunks: seq<Chunk>, g: nat)
    requires Chunked(sourceId, text, TargetWords(targetTokens), overlap, false, None, sha) == Ok(chunks) && g < |chunks|
    ensures |Words(chunks[g].text)| <= Limit(TargetWords(targetTokens))
    ensures var units := Expand(Marked(SplitUnits(text).0, false), TargetWords(targetTokens), overlap);
            UnitsIn(units, TargetWords(targetTokens), g) >= 2 && targetTokens >= 108 ==>
              chunks[g].tokenEstimate <= targetTokens
  {
    hide Expand, TargetWords, SplitUnits, Words, GroupsFrom, Bytes, Limit, EstimateTokens, Expanded, UnitsIn, IdPrefix,
         Padded, First10, RowsAccepted;
    var target := TargetWords(targetTokens);
    var (parts, sep) := SplitUnits(text);
    SplitKeepsWords(text);
    ExpandBounded(Marked(parts, false), target, overlap);
    ExpandHasNoRows(Marked(parts, false), target, overlap);
    GroupSize(Expand(Marked(parts, false), target, overlap), sep, targetTokens, g);
  }

  lemma {:induction false} ExpandHasNoRows(units: seq<Unit>, target: nat, overlap: nat)
    requires target > 0 && !AnyAtomic(units)
    ensures !AnyAtomic(Expand(units, target, overlap))
  {
    if units != [] {
      assert forall i :: 0 <= i < |units| - 1 ==> units[1..][i] == units[i + 1];
      ExpandHasNoRows(units[1..], target, overlap);
      var first := ExpandUnit(units[0], target, overlap);
      assert !AnyAtomic(first);
    }
  }
}
