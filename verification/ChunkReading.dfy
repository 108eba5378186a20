/**
 The check made when the chunks of a source are read back, and which chunks pass it.
 */
module ChunkReading {
  import opened Outcomes
  import opened Text
  import opened Chunking
  import opened SourceChunks
  import opened ChunkEdits

  datatype ChunkFault = BlankText | ForeignOrRepeatedId | DigestMismatch

  predicate ChunkOk(sourceId: string, c: Chunk, sha: string -> string) {
    !Blank(c.text) && IdPrefix(sourceId) <= c.id && c.hash == sha(c.text)
  }

  predicate DistinctIds(chunks: seq<Chunk>) {
    forall i, j :: 0 <= i < j < |chunks| ==> chunks[i].id != chunks[j].id
  }

  /** Chunks that are non-blank, belong to the source, match their digests, and have distinct ids. */
  predicate Accepted(sourceId: string, chunks: seq<Chunk>, sha: string -> string) {
    DistinctIds(chunks) && forall i :: 0 <= i < |chunks| ==> ChunkOk(sourceId, chunks[i], sha)
  }

  /** Accepts exactly chunks that are non-blank, belong to the source, match their digests, and have distinct ids. */
  method CheckChunks(sourceId: string, chunks: seq<Chunk>, sha: string -> string)
    returns (r: Result<seq<Chunk>, ChunkFault>)
    ensures r.Ok? <==> Accepted(sourceId, chunks, sha)
    ensures r.Ok? ==> r.value == chunks
  {
    hide Blank, IdPrefix;
    var ids: set<string> := {};
    for k := 0 to |chunks|
      invariant DistinctIds(chunks[..k]) && forall i :: 0 <= i < k ==> ChunkOk(sourceId, chunks[i], sha)
      invariant forall i :: 0 <= i < k ==> chunks[i].id in ids
      invariant forall id :: id in ids ==> exists i :: 0 <= i < k && chunks[i].id == id
    {
      var c := chunks[k];
      if Blank(c.text) {
        return Err(BlankText);
      }
      if !(IdPrefix(sourceId) <= c.id) || c.id in ids {
        return Err(ForeignOrRepeatedId);
      }
      if c.hash != sha(c.text) {
        return Err(DigestMismatch);
      }
      ids := ids + {c.id};
    }
    assert chunks[..|chunks|] == chunks;
    return Ok(chunks);
  }

  lemma {:induction false} DigitsEnd(a: string, x: string, b: string, y: string)
    requires AllDigits(a) && AllDigits(b) && a + "-" + x == b + "-" + y
    ensures a == b
  {
    var s := a + "-" + x;
    assert s[|a|] == '-' && s[|b|] == '-';
    assert forall i :: 0 <= i < |a| ==> s[i] == a[i];
    assert forall i :: 0 <= i < |b| ==> s[i] == b[i];
    assert a == s[..|a|] && b == s[..|b|];
  }

  lemma SameId(p: string, a: string, x: string, b: string, y: string)
    requires AllDigits(a) && AllDigits(b) && p + a + "-" + x == p + b + "-" + y
    ensures a == b
  {
    hide AllDigits;
    var u, v := a + "-" + x, b + "-" + y;
    assert p + u == p + a + "-" + x && p + v == p + b + "-" + y;
    assert u == (p + u)[|p|..] && v == (p + v)[|p|..];
    DigitsEnd(a, x, b, y);
  }

  /** Ordinals alone keep the ids apart, whatever the digests. */
  lemma IdsDistinct(sourceId: string, groups: seq<Group>, sha: string -> string)
    ensures DistinctIds(ChunksOf(sourceId, groups, sha))
  {
    hide Padded, First10;
    var chunks := ChunksOf(sourceId, groups, sha);
    forall i, j | 0 <= i < j < |chunks|
      ensures chunks[i].id != chunks[j].id
    {
      if chunks[i].id == chunks[j].id {
        SameId(IdPrefix(sourceId), Padded(i + 1), First10(sha(groups[i].text)), Padded(j + 1), First10(sha(groups[j].text)));
        PaddedInjective(i + 1, j + 1);
      }
    }
  }

  predicate AllBlank(units: seq<Unit>) { forall i :: 0 <= i < |units| ==> Blank(units[i].text) }

  lemma {:induction false} NoWordsAtAll(parts: seq<string>)
    ensures AllWords(parts) == [] <==> forall i :: 0 <= i < |parts| ==> Blank(parts[i])
  {
    hide Words;
    if parts != [] {
      NoWordsAtAll(parts[1..]);
      assert forall i :: 0 < i < |parts| ==> parts[i] == parts[1..][i - 1];
    }
  }

  lemma GroupBlank(units: seq<Unit>, sep: string)
    requires IsSeparator(sep)
    ensures Blank(GroupOf(units, sep).text) <==> AllBlank(units)
  {
    hide Words, Join;
    WordsOfJoin(sep, Texts(units));
    NoWordsAtAll(Texts(units));
    assert AllBlank(units) <==> forall i :: 0 <= i < |units| ==> Blank(Texts(units)[i]);
  }

  /** The g-th group has blank units only. */
  predicate BlankGroup(units: seq<Unit>, target: nat, g: nat) {
    var cuts := Cuts(WeightsOf(units), target, 0);
    && g < |cuts| && GroupStart(WeightsOf(units), target, 0, g) <= cuts[g] <= |units|
    && AllBlank(units[GroupStart(WeightsOf(units), target, 0, g)..cuts[g]])
  }

  /** That check accepts what the chunker makes exactly when no group holds blank units only. */
  lemma AcceptedIff(sourceId: string, expanded: seq<Unit>, sep: string, target: nat, sha: string -> string)
    requires IsSeparator(sep)
    ensures Accepted(sourceId, ChunksOf(sourceId, GroupsFrom(expanded, sep, target, 0), sha), sha) <==>
            !exists g: nat :: BlankGroup(expanded, target, g)
  {
    hide Blank, GroupsFrom, Padded, First10, AllBlank, Cuts, GroupStart, TokenEstimate, GroupOf, IsSeparator;
    var groups := GroupsFrom(expanded, sep, target, 0);
    var ws := WeightsOf(expanded);
    var chunks := ChunksOf(sourceId, groups, sha);
    IdsDistinct(sourceId, groups, sha);
    GroupCount(expanded, sep, target, 0);
    forall g | 0 <= g < |chunks|
      ensures var a, b := GroupStart(ws, target, 0, g), Cuts(ws, target, 0)[g];
              a < b <= |expanded| && (ChunkOk(sourceId, chunks[g], sha) <==> !AllBlank(expanded[a..b]))
      ensures ChunkOk(sourceId, chunks[g], sha) <==> !BlankGroup(expanded, target, g)
    {
      GroupAt(expanded, sep, target, 0, g);
      GroupBlank(expanded[GroupStart(ws, target, 0, g)..Cuts(ws, target, 0)[g]], sep);
      var rest := Padded(g + 1) + "-" + First10(sha(groups[g].text));
      assert chunks[g].id == IdPrefix(sourceId) + rest;
    }
  }

  lemma PiecesNotBlank(u: Unit, target: nat, overlap: nat)
    requires target > 0 && !Blank(u.text)
    ensures forall i :: 0 <= i < |ExpandUnit(u, target, overlap)| ==> !Blank(ExpandUnit(u, target, overlap)[i].text)
  {
    hide Words, Windows, Pieces, Join, Limit;
    if Oversized(u, target) {
      var words := Words(u.text);
      var spans := Windows(|words|, target, overlap, 0);
      WordsAreWords(u.text);
      WindowsCover(|words|, target, overlap, 0);
      forall i | 0 <= i < |spans|
        ensures !Blank(WindowText(words, spans[i]))
      {
        WindowWords(words, spans[i]);
      }
    }
  }

  lemma {:induction false} ExpandNotBlank(units: seq<Unit>, target: nat, overlap: nat)
    requires target > 0 && forall i :: 0 <= i < |units| ==> !Blank(units[i].text)
    ensures forall i :: 0 <= i < |Expand(units, target, overlap)| ==> !Blank(Expand(units, target, overlap)[i].text)
  {
    hide Blank, ExpandUnit;
    if units != [] {
      PiecesNotBlank(units[0], target, overlap);
      ExpandNotBlank(units[1..], target, overlap);
    }
  }

  /** Whatever the text, the chunks of plain text and of preserved lines pass that check. */
  lemma TextChunksAccepted(sourceId: string, text: string, target: nat, overlap: nat, preserveLines: bool,
                           sha: string -> string, chunks: seq<Chunk>)
    requires target > 0 && Chunked(sourceId, text, target, overlap, preserveLines, None, sha) == Ok(chunks)
    ensures Accepted(sourceId, chunks, sha)
  {
    hide Blank, Expand, GroupsFrom, SplitUnits, ChunkOk, DistinctIds, RowsAccepted, Cuts, GroupStart, Lines,
         IsSeparator;
    var (units, sep) := UnitsOf(text, preserveLines, None).value;
    SplitKeepsWords(text);
    assert IsSeparator(sep) by { NewlineSeparates(); }
    ExpandNotBlank(units, target, overlap);
    var expanded := Expand(units, target, overlap);
    AcceptedIff(sourceId, expanded, sep, target, sha);
    forall g: nat | g < |Cuts(WeightsOf(expanded), target, 0)|
      ensures !BlankGroup(expanded, target, g)
    {
      GroupAt(expanded, sep, target, 0, g);
      var a, b := GroupStart(WeightsOf(expanded), target, 0, g), Cuts(WeightsOf(expanded), target, 0)[g];
      assert expanded[a..b][0] == expanded[a];
    }
  }

  lemma NewlineSeparates()
    ensures IsSeparator("\n")
  {
  }

  /**
   Document units are not so: an empty paragraph before a long one becomes a blank chunk of its own,
   which that check refuses.
   */
  lemma EmptyParagraphRefused(sourceId: string, p: string, target: nat, overlap: nat, sha: string -> string)
    requires target > 0 && target < |Words(p)| <= Limit(target)
    ensures var r := Chunked(sourceId, "\n" + p, target, overlap, false, Some([Paragraph(""), Paragraph(p)]), sha);
            r.Ok? && |r.value| == 2 && r.value[0].text == "" && !ChunkOk(sourceId, r.value[0], sha)
  {
    hide Words, Limit, GroupsOf, Join, Padded, First10, TokenEstimate, IdPrefix, Weight;
    var source := [Paragraph(""), Paragraph(p)];
    EmptyThenLong(p, target, overlap);
    JoinEmptyFirst(p);
    assert SourceTexts(source) == ["", p];
    assert forall i :: 0 <= i < 2 ==> !OfSource(source)[i].atomic;
  }

  lemma JoinEmptyFirst(p: string)
    ensures Join("\n", ["", p]) == "\n" + p
  {
    JoinOfCons("\n", "", [p]);
    JoinOne("\n", p);
    assert [""] + [p] == ["", p];
  }

  lemma EmptyThenLong(p: string, target: nat, overlap: nat)
    requires target > 0 && target < |Words(p)| <= Limit(target)
    ensures var groups := GroupsOf(OfSource([Paragraph(""), Paragraph(p)]), "\n", target, overlap);
            |groups| == 2 && groups[0].text == "" && Words("") == []
  {
    assert Words("") == [] by { NoWordsInSpace(""); }
    hide Words, Limit, GroupsFrom, Expand;
    var units := OfSource([Paragraph(""), Paragraph(p)]);
    ExpandNothing(units, target, overlap);
    EmptyFirst(units, "\n", target);
  }

  /** Nothing joins an empty unit that comes before one heavier than the target. */
  lemma EmptyFirst(units: seq<Unit>, sep: string, target: nat)
    requires |units| == 2 && units[0].text == "" && Weight(units[0]) == 0 && Weight(units[1]) > target
    ensures |GroupsFrom(units, sep, target, 0)| == 2 && GroupsFrom(units, sep, target, 0)[0].text == ""
  {
    hide Weight, AnyAtomic;
    var ws := WeightsOf(units);
    assert GroupEnd(ws, target, 0) == 1 && GroupEnd(ws, target, 1) == 2;
    GroupsByHead(units, sep, target, 0);
    GroupsByHead(units, sep, target, 1);
    SomeGroupsLeft(units, sep, target, 2);
    assert Texts(units[0..1]) == [""];
  }

  // ----- the same over the units ------------------------------------------------------------

  lemma {:induction false} CutIsEnd(ws: Weights, target: nat, i: nat, g: nat)
    requires i <= |ws| && g < |Cuts(ws, target, i)|
    ensures GroupStart(ws, target, i, g) < |ws|
    ensures Cuts(ws, target, i)[g] == GroupEnd(ws, target, GroupStart(ws, target, i, g))
    decreases g
  {
    hide GroupEnd;
    if g > 0 {
      CutIsEnd(ws, target, GroupEnd(ws, target, i), g - 1);
    }
  }

  lemma {:induction false} SumAtLeast(ws: Weights, a: nat, k: nat, b: nat)
    requires a <= k < b <= |ws|
    ensures Sum(ws, a, b) >= ws[k]
  {
    if k < b - 1 { SumAtLeast(ws, a, k, b - 1); }
  }

  lemma {:induction false} NoSum(ws: Weights, a: nat, b: nat)
    requires a <= b <= |ws| && forall j :: a <= j < b ==> ws[j] == 0
    ensures Sum(ws, a, b) == 0
  {
    if a < b { NoSum(ws, a, b - 1); }
  }

  /** Weightless units between the start, or a unit over the target, and the end, or a unit over the target. */
  predicate LightRun(ws: Weights, target: nat, a: nat, b: nat) {
    && a < b <= |ws| && (forall j :: a <= j < b ==> ws[j] == 0)
    && (a > 0 ==> ws[a - 1] > target)
    && (b < |ws| ==> ws[b] > target)
  }

  /** Such a run is a group of its own. */
  lemma LightRunIsGroup(ws: Weights, target: nat, a: nat, b: nat) returns (g: nat)
    requires LightRun(ws, target, a, b)
    ensures g < |Cuts(ws, target, 0)| && GroupStart(ws, target, 0, g) == a && Cuts(ws, target, 0)[g] == b
  {
    hide Cuts, GroupEnd, Sum;
    var prev, from, to;
    g, prev, from, to := Locate(ws, target, 0, a);
    GroupRespectsTarget(ws, target, 0, g);
    if from < a {
      SumAtLeast(ws, from, a - 1, to);
    }
    CutIsEnd(ws, target, 0, g);
    NoSum(ws, a, b);
    EndsIff(ws, target, a, b);
  }

  /** And a group of weightless units is such a run. */
  lemma LightGroupIsRun(ws: Weights, target: nat, g: nat)
    requires g < |Cuts(ws, target, 0)| && Cuts(ws, target, 0)[g] <= |ws|
    requires forall j :: GroupStart(ws, target, 0, g) <= j < Cuts(ws, target, 0)[g] ==> ws[j] == 0
    ensures LightRun(ws, target, GroupStart(ws, target, 0, g), Cuts(ws, target, 0)[g])
  {
    hide Cuts, GroupEnd, Sum;
    var a, b := GroupStart(ws, target, 0, g), Cuts(ws, target, 0)[g];
    GroupRespectsTarget(ws, target, 0, g);
    CutIsEnd(ws, target, 0, g);
    NoSum(ws, a, b);
    EndsIff(ws, target, a, b);
    if g > 0 {
      var p := GroupStart(ws, target, 0, g - 1);
      GroupRespectsTarget(ws, target, 0, g - 1);
      CutIsEnd(ws, target, 0, g - 1);
      EndsIff(ws, target, p, a);
      OneSum(ws, a - 1);
    }
  }

  lemma OneSum(ws: Weights, k: nat)
    requires k < |ws|
    ensures Sum(ws, k, k + 1) == ws[k]
  {
    assert Sum(ws, k, k) == 0;
  }

  /** Blank units weigh nothing: so for every paragraph, and for every row without bytes. */
  predicate BlanksWeighNothing(units: seq<Unit>) {
    forall i :: 0 <= i < |units| && Blank(units[i].text) ==> Weight(units[i]) == 0
  }

  predicate BlankRun(units: seq<Unit>, target: nat, a: nat, b: nat) {
    a < b <= |units| && AllBlank(units[a..b]) && LightRun(WeightsOf(units), target, a, b)
  }

  /**
   The chunks pass exactly when no run of blank units lies between the start, or a unit heavier than the target,
   and the end, or a unit heavier than the target.
   */
  lemma AcceptedIffNoBlankRun(sourceId: string, units: seq<Unit>, sep: string, target: nat, sha: string -> string)
    requires IsSeparator(sep) && BlanksWeighNothing(units)
    ensures Accepted(sourceId, ChunksOf(sourceId, GroupsFrom(units, sep, target, 0), sha), sha) <==>
            !exists a: nat, b: nat :: BlankRun(units, target, a, b)
  {
    hide Blank, GroupsFrom, Cuts, GroupStart, Weight, IsSeparator, ChunksOf, Accepted;
    var ws := WeightsOf(units);
    AcceptedIff(sourceId, units, sep, target, sha);
    forall a: nat, b: nat | BlankRun(units, target, a, b)
      ensures exists g: nat :: BlankGroup(units, target, g)
    {
      var g := LightRunIsGroup(ws, target, a, b);
      assert BlankGroup(units, target, g);
    }
    forall g: nat | BlankGroup(units, target, g)
      ensures exists a: nat, b: nat :: BlankRun(units, target, a, b)
    {
      var a, b := GroupStart(ws, target, 0, g), Cuts(ws, target, 0)[g];
      BlankIsLight(units, a, b);
      LightGroupIsRun(ws, target, g);
      assert BlankRun(units, target, a, b);
    }
  }

  lemma BlankIsLight(units: seq<Unit>, a: nat, b: nat)
    requires a <= b <= |units| && AllBlank(units[a..b]) && BlanksWeighNothing(units)
    ensures forall j :: a <= j < b ==> WeightsOf(units)[j] == 0
  {
    hide Blank, Weight;
    assert forall j :: a <= j < b ==> units[j] == units[a..b][j - a];
  }
}
