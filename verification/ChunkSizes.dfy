/**
 The sizes of chunking in the caller's own terms: tokens at 27 to every 20 words, bytes of UTF-8, and how few
 chunks there are.
 */
module ChunkSizes {
  import opened Outcomes
  import opened Text
  import opened Chunking
  import opened SourceChunks

  /** The most words whose tokens at 1.35 a word do not exceed the target, or 80 where that is fewer. */
  lemma TargetInTokens(tokens: int, words: nat)
    ensures words <= TargetWords(tokens) <==> words <= 80 || 27 * words <= 20 * tokens
  {
  }

  lemma OverlapInTokens(tokens: int, words: nat)
    ensures words <= OverlapWords(tokens) <==> words == 0 || 27 * words <= 20 * tokens
  {
  }

  /** A unit is cut exactly when it is no row and has more than one and a half times the target words. */
  lemma OversizedIff(u: Unit, target: nat, overlap: nat)
    requires target > 0
    ensures Oversized(u, target) <==> !u.atomic && 2 * |Words(u.text)| > 3 * target
    ensures !Oversized(u, target) ==> ExpandUnit(u, target, overlap) == [u]
  {
  }

  /** A text is estimated at 1.35 tokens a word, rounded down, and at one token at least. */
  lemma EstimateInWords(text: string)
    ensures var n := |Words(text)|;
            var e := EstimateTokens(text);
            e >= 1 && 20 * (e - 1) < 27 * n + 20 && 27 * n < 20 * (e + 1) && (e == 1 || 20 * e <= 27 * n)
  {
  }

  ghost predicate LeastBoth(e: nat, a: nat, b: nat, per: nat) {
    e >= a && per * e >= b && forall n: nat :: n >= a && per * n >= b ==> e <= n
  }

  /** A paragraph weighs its words; a row weighs at least its words and a fifth of its bytes, and no more. */
  lemma WeightIs(u: Unit)
    ensures !u.atomic ==> Weight(u) == |Words(u.text)|
    ensures u.atomic ==> LeastBoth(Weight(u), |Words(u.text)|, |Utf8(u.text)|, 5)
  {
    BytesAreUtf8(u.text);
  }

  /** Rows are refused over 32000 bytes, or over one and a half times the target words. */
  lemma RowRefusedIff(u: Unit, target: nat)
    requires u.atomic
    ensures RowAccepted(u, target) <==>
              && |Utf8(u.text)| <= 32000
              && 2 * |Words(u.text)| <= 3 * target
              && (exists n: nat :: 5 * n >= |Utf8(u.text)| && 2 * n <= 3 * target)
  {
    BytesAreUtf8(u.text);
    var n := Weight(u);
    assert 5 * n >= |Utf8(u.text)|;
  }

  /** The chunk's estimate: by words, and for a chunk with a row also a quarter of its bytes. */
  lemma EstimateIs(g: Group)
    ensures !g.hasAtomic ==> TokenEstimate(g) == EstimateTokens(g.text)
    ensures g.hasAtomic ==> LeastBoth(TokenEstimate(g), EstimateTokens(g.text), |Utf8(g.text)|, 4)
  {
    BytesAreUtf8(g.text);
  }

  /** Each window but the last is a full target long, and shares the overlap with the next, or all but one word. */
  lemma {:induction false} WindowsOverlap(n: nat, target: nat, overlap: nat, start: nat, i: nat)
    requires start < n && target > 0 && i + 1 < |Windows(n, target, overlap, start)|
    ensures var spans := Windows(n, target, overlap, start);
            && spans[i].to == spans[i].from + target
            && spans[i].to - spans[i + 1].from == if overlap < target then overlap else target - 1
    decreases n - start
  {
    var end := WindowEnd(n, target, start);
    var next := NextStart(end, overlap, start);
    WindowsCover(n, target, overlap, next);
    if i > 0 {
      WindowsOverlap(n, target, overlap, next, i - 1);
    }
  }

  /** An id is the source's, the ordinal in at least four digits, and the first ten of the digest's. */
  lemma IdIs(sourceId: string, ordinal: nat, g: Group, sha: string -> string)
    ensures var c := ChunkOf(sourceId, ordinal, g, sha);
            && c.text == g.text && c.hash == sha(g.text) && c.ordinal == ordinal
            && exists digits, short ::
                 && c.id == sourceId + "-chunk-" + digits + "-" + short
                 && |digits| >= 4 && AllDigits(digits) && ParseDecimal(digits) == ordinal
                 && (|digits| > 4 ==> digits[0] != '0')
                 && short <= c.hash && |short| == if |c.hash| < 10 then |c.hash| else 10
  {
    var c := ChunkOf(sourceId, ordinal, g, sha);
    var digits, short := Padded(ordinal), First10(c.hash);
    PaddedIs(ordinal);
    assert c.id == sourceId + "-chunk-" + digits + "-" + short;
  }

  lemma PaddedIs(n: nat)
    ensures |Padded(n)| >= 4 && ParseDecimal(Padded(n)) == n && (|Padded(n)| > 4 ==> Padded(n)[0] != '0')
  {
    PadKeepsValue(Decimal(n), 4);
    ParseOfDecimal(n);
    PadWidth(Decimal(n), 4);
    NoLeadingZero(n);
  }

  lemma {:induction false} PadWidth(s: string, width: nat)
    requires AllDigits(s)
    ensures |s| >= width ==> PadTo(s, width) == s
    ensures |s| < width ==> |PadTo(s, width)| == width
    decreases width - |s|
  {
    if |s| < width {
      PadWidth("0" + s, width);
    }
  }

  lemma {:induction false} NoLeadingZero(n: nat)
    ensures n > 0 ==> Decimal(n)[0] != '0'
    ensures n == 0 ==> Decimal(n) == "0"
  {
    if n >= 10 {
      NoLeadingZero(n / 10);
      assert Decimal(n)[0] == Decimal(n / 10)[0];
    }
  }

  lemma {:induction false} SmallerTarget(ws: Weights, w: nat, target: nat, i: nat, cuts: seq<nat>)
    requires w <= target && i <= |ws| && Grouping(ws, w, i, cuts)
    ensures Grouping(ws, target, i, cuts)
    decreases |cuts|
  {
    if cuts != [] {
      SmallerTarget(ws, w, target, cuts[0], cuts[1..]);
    }
  }

  /**
   No way of joining neighbouring units, with groups of several units held to the tokens asked for, has fewer groups
   than the text has chunks.
   */
  lemma FewestChunks(sourceId: string, text: string, targetTokens: int, overlap: nat, preserveLines: bool,
                     sourceUnits: Option<seq<SourceUnit>>, sha: string -> string, words: nat, cuts: seq<nat>)
    requires words <= 80 || 27 * words <= 20 * targetTokens
    requires Chunked(sourceId, text, TargetWords(targetTokens), overlap, preserveLines, sourceUnits, sha).Ok?
    requires var units := UnitsOf(text, preserveLines, sourceUnits).value.0;
             Grouping(WeightsOf(Expand(units, TargetWords(targetTokens), overlap)), words, 0, cuts)
    ensures |Chunked(sourceId, text, TargetWords(targetTokens), overlap, preserveLines, sourceUnits, sha).value| <= |cuts|
  {
    hide UnitsOf, Expand, Grouping, Cuts, GroupsFrom, RowsAccepted, TargetWords;
    var target := TargetWords(targetTokens);
    var (units, sep) := UnitsOf(text, preserveLines, sourceUnits).value;
    var expanded := Expand(units, target, overlap);
    TargetInTokens(targetTokens, words);
    SmallerTarget(WeightsOf(expanded), words, target, 0, cuts);
    GreedyOptimal(WeightsOf(expanded), target, 0, cuts);
    GroupCount(expanded, sep, target, 0);
  }
}
