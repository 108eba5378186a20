/**
 Content-based chunking: oversized units are cut into overlapping word windows, and units are
 grouped greedily up to a target weight. Token factors of 1.35 and 1.5 are read as 27/20 and 3/2.
 */
module Chunking {
  import opened Outcomes
  import opened Text

  // ----- sizes ------------------------------------------------------------------------------

  function TargetWords(targetTokens: int): (t: nat)
    ensures t >= 80
  {
    var t := targetTokens * 20 / 27;
    if t < 80 then 80 else t
  }

  function OverlapWords(overlapTokens: int): nat {
    var o := overlapTokens * 20 / 27;
    if o < 0 then 0 else o
  }

  function Limit(target: nat): nat { target * 3 / 2 }

  function EstimateTokens(text: string): nat {
    var n := |Words(text)| * 27 / 20;
    if n < 1 then 1 else n
  }

  datatype Unit = Unit(text: string, atomic: bool)

  function CeilDiv(n: nat, d: nat): nat
    requires d > 0
  {
    (n + d - 1) / d
  }

  function Weight(u: Unit): nat {
    var words := |Words(u.text)|;
    var bytes := CeilDiv(Bytes(u.text), 5);
    if u.atomic && words < bytes then bytes else words
  }

  // ----- windows over an oversized unit -----------------------------------------------------

  datatype Span = Span(from: nat, to: nat)

  function WindowEnd(n: nat, target: nat, start: nat): nat {
    if n < start + target then n else start + target
  }

  function NextStart(end: nat, overlap: nat, start: nat): nat {
    if end < overlap + start + 1 then start + 1 else end - overlap
  }

  /** The windows from `start` on, as the loop takes them. */
  function Windows(n: nat, target: nat, overlap: nat, start: nat): seq<Span>
    requires start < n && target > 0
    decreases n - start
  {
    var end := WindowEnd(n, target, start);
    [Span(start, end)] + if end >= n then [] else Windows(n, target, overlap, NextStart(end, overlap, start))
  }

  /** From the first word to the last, in order, with no gap, and no window longer than the target. */
  ghost predicate Covers(spans: seq<Span>, n: nat, target: nat, start: nat) {
    && spans != []
    && spans[0].from == start
    && spans[|spans| - 1].to == n
    && (forall i :: 0 <= i < |spans| ==> spans[i].from < spans[i].to <= n && spans[i].to <= spans[i].from + target)
    && (forall i :: 0 < i < |spans| ==> spans[i - 1].from < spans[i].from <= spans[i - 1].to < spans[i].to)
  }

  lemma OneMoreWindow(first: Span, rest: seq<Span>, n: nat, target: nat)
    requires rest != [] && Covers(rest, n, target, rest[0].from)
    requires first.from < first.to <= n && first.to <= first.from + target
    requires first.from < rest[0].from <= first.to < rest[0].to
    ensures Covers([first] + rest, n, target, first.from)
  {
    var spans := [first] + rest;
    forall i | 0 < i < |spans|
      ensures spans[i - 1].from < spans[i].from <= spans[i - 1].to < spans[i].to
    {
      assert spans[i] == rest[i - 1];
      if i > 1 { assert spans[i - 1] == rest[i - 2]; }
    }
  }

  /** Whatever the overlap, even one at or above the target, the windows cover the unit. */
  lemma {:induction false} WindowsCover(n: nat, target: nat, overlap: nat, start: nat)
    requires start < n && target > 0
    ensures Covers(Windows(n, target, overlap, start), n, target, start)
    ensures Windows(n, target, overlap, start)[0] == Span(start, WindowEnd(n, target, start))
    decreases n - start
  {
    var end := WindowEnd(n, target, start);
    if end < n {
      var next := NextStart(end, overlap, start);
      WindowsCover(n, target, overlap, next);
      OneMoreWindow(Span(start, end), Windows(n, target, overlap, next), n, target);
    }
  }

  /** So every word is in some window. */
  lemma {:induction false} EveryWordCovered(spans: seq<Span>, n: nat, target: nat, start: nat, w: nat)
    requires Covers(spans, n, target, start) && start <= w < n
    ensures exists i :: 0 <= i < |spans| && spans[i].from <= w < spans[i].to
  {
    var i := 0;
    while spans[i].to <= w
      invariant 0 <= i < |spans| && spans[i].from <= w
      decreases |spans| - i
    {
      assert i != |spans| - 1;
      assert spans[i + 1 - 1].from < spans[i + 1].from <= spans[i + 1 - 1].to;
      i := i + 1;
    }
  }

  /** The text of one window: its words, joined by single spaces. */
  function WindowText(words: seq<string>, s: Span): string {
    if s.from <= s.to <= |words| then Join(" ", words[s.from..s.to]) else ""
  }

  function Pieces(words: seq<string>, spans: seq<Span>): (r: seq<Unit>)
    ensures |r| == |spans|
    ensures forall i :: 0 <= i < |spans| ==> r[i] == Unit(WindowText(words, spans[i]), false)
  {
    if spans == [] then [] else [Unit(WindowText(words, spans[0]), false)] + Pieces(words, spans[1..])
  }

  // ----- expanding units --------------------------------------------------------------------

  datatype ChunkError = ConflictingModes | UnitsDifferFromText | RowTooLarge

  /** An atomic row over the byte or word limit is refused, never cut. */
  predicate RowAccepted(u: Unit, target: nat) {
    Bytes(u.text) <= 32000 && Weight(u) <= Limit(target)
  }

  predicate Oversized(u: Unit, target: nat) { !u.atomic && |Words(u.text)| > Limit(target) }

  function ExpandUnit(u: Unit, target: nat, overlap: nat): (r: seq<Unit>)
    requires target > 0
  {
    if Oversized(u, target) then
      Pieces(Words(u.text), Windows(|Words(u.text)|, target, overlap, 0))
    else [u]
  }

  function Expand(units: seq<Unit>, target: nat, overlap: nat): seq<Unit>
    requires target > 0
  {
    if units == [] then [] else ExpandUnit(units[0], target, overlap) + Expand(units[1..], target, overlap)
  }

  predicate RowsAccepted(units: seq<Unit>, target: nat) {
    forall i :: 0 <= i < |units| && units[i].atomic ==> RowAccepted(units[i], target)
  }

  lemma ExpandOfCons(u: Unit, rest: seq<Unit>, target: nat, overlap: nat)
    requires target > 0
    ensures Expand([u] + rest, target, overlap) == ExpandUnit(u, target, overlap) + Expand(rest, target, overlap)
  {
    hide ExpandUnit;
    assert ([u] + rest)[1..] == rest;
  }

  lemma {:induction false} ExpandAppend(a: seq<Unit>, b: seq<Unit>, target: nat, overlap: nat)
    requires target > 0
    ensures Expand(a + b, target, overlap) == Expand(a, target, overlap) + Expand(b, target, overlap)
  {
    hide ExpandUnit, Expand;
    if a == [] {
      assert a + b == b;
      NothingToExpand(target, overlap);
    } else {
      HeadAndTail(a, b);
      ExpandAppend(a[1..], b, target, overlap);
      ExpandOfCons(a[0], a[1..], target, overlap);
      ExpandOfCons(a[0], a[1..] + b, target, overlap);
      Associative(ExpandUnit(a[0], target, overlap), Expand(a[1..], target, overlap), Expand(b, target, overlap));
    }
  }

  lemma NothingToExpand(target: nat, overlap: nat)
    requires target > 0
    ensures Expand([], target, overlap) == []
  {
  }

  lemma ExpandOne(u: Unit, target: nat, overlap: nat)
    requires target > 0
    ensures Expand([u], target, overlap) == ExpandUnit(u, target, overlap)
  {
  }

  /** The pieces from `start` on: the first window's text, then the rest, if any. */
  lemma NextPiece(words: seq<string>, target: nat, overlap: nat, start: nat)
    requires start < |words| && target > 0
    ensures var n, end := |words|, WindowEnd(|words|, target, start);
            Pieces(words, Windows(n, target, overlap, start)) ==
            [Unit(Join(" ", words[start..end]), false)]
            + if end >= n then [] else Pieces(words, Windows(n, target, overlap, NextStart(end, overlap, start)))
  {
  }

  /** The window loop over one oversized unit. */
  method CutWindows(words: seq<string>, target: nat, overlap: nat) returns (pieces: seq<Unit>)
    requires words != [] && target > 0
    ensures pieces == Pieces(words, Windows(|words|, target, overlap, 0))
  {
    hide Join, Windows, Pieces;
    pieces := [];
    var start := 0;
    while true
      invariant start < |words|
      invariant Pieces(words, Windows(|words|, target, overlap, 0))
             == pieces + Pieces(words, Windows(|words|, target, overlap, start))
      decreases |words| - start
    {
      var end := if |words| < start + target then |words| else start + target;
      NextPiece(words, target, overlap, start);
      pieces := pieces + [Unit(Join(" ", words[start..end]), false)];
      if end >= |words| {
        break;
      }
      start := NextStart(end, overlap, start);
    }
  }

  /** The expansion loop: rows are checked and kept, oversized units are cut, others kept. */
  method ExpandUnits(units: seq<Unit>, target: nat, overlap: nat) returns (r: Result<seq<Unit>, ChunkError>)
    requires target > 0
    ensures r == if RowsAccepted(units, target) then Ok(Expand(units, target, overlap)) else Err(RowTooLarge)
  {
    hide Weight, Limit, Expand, Bytes, Windows, Pieces;
    var expanded: seq<Unit> := [];
    ExpandNothing([], target, overlap);
    for i := 0 to |units|
      invariant RowsAccepted(units[..i], target)
      invariant expanded == Expand(units[..i], target, overlap)
    {
      var u := units[i];
      assert units[..i + 1] == units[..i] + [u];
      ExpandAppend(units[..i], [u], target, overlap);
      ExpandOne(u, target, overlap);
      var words := Words(u.text);
      if u.atomic {
        if Bytes(u.text) > 32000 || Weight(u) > Limit(target) {
          return Err(RowTooLarge);
        }
        expanded := expanded + [u];
      } else if |words| > Limit(target) {
        var pieces := CutWindows(words, target, overlap);
        expanded := expanded + pieces;
      } else {
        expanded := expanded + [u];
      }
    }
    assert units[..|units|] == units;
    return Ok(expanded);
  }

  // ----- greedy grouping --------------------------------------------------------------------

  type Weights = seq<nat>

  function Sum(ws: Weights, a: nat, b: nat): nat
    requires a <= b <= |ws|
  {
    if a == b then 0 else Sum(ws, a, b - 1) + ws[b - 1]
  }

  lemma {:induction false} SumSplit(ws: Weights, a: nat, m: nat, b: nat)
    requires a <= m <= b <= |ws|
    ensures Sum(ws, a, b) == Sum(ws, a, m) + Sum(ws, m, b)
  {
    if m < b { SumSplit(ws, a, m, b - 1); }
  }

  /** How far a group that holds [i, k) with the given weight extends. */
  function Extend(ws: Weights, target: nat, k: nat, weight: nat): (e: nat)
    requires k <= |ws|
    ensures k <= e <= |ws|
    decreases |ws| - k
  {
    if k == |ws| || weight + ws[k] > target then k else Extend(ws, target, k + 1, weight + ws[k])
  }

  function GroupEnd(ws: Weights, target: nat, i: nat): (e: nat)
    requires i < |ws|
    ensures i < e <= |ws|
  {
    Extend(ws, target, i + 1, ws[i])
  }

  /** The boundaries of the groups from `i` on. */
  function Cuts(ws: Weights, target: nat, i: nat): seq<nat>
    requires i <= |ws|
    decreases |ws| - i
  {
    if i == |ws| then [] else [GroupEnd(ws, target, i)] + Cuts(ws, target, GroupEnd(ws, target, i))
  }

  /** A group of two or more units weighs at most the target. */
  predicate GroupOk(ws: Weights, target: nat, a: nat, b: nat)
    requires a <= b <= |ws|
  {
    b - a >= 2 ==> Sum(ws, a, b) <= target
  }

  /** Boundaries of any contiguous grouping of the units from `i` on that respects the target. */
  predicate Grouping(ws: Weights, target: nat, i: nat, cuts: seq<nat>)
    requires i <= |ws|
    decreases |cuts|
  {
    if cuts == [] then i == |ws|
    else i < cuts[0] <= |ws| && GroupOk(ws, target, i, cuts[0]) && Grouping(ws, target, cuts[0], cuts[1..])
  }

  /** Greedy extension stops at the furthest admissible boundary. */
  lemma {:induction false} ExtendFurthest(ws: Weights, target: nat, i: nat, k: nat, c: nat)
    requires i < k <= |ws| && GroupOk(ws, target, i, k)
    ensures var e := Extend(ws, target, k, Sum(ws, i, k)); GroupOk(ws, target, i, e)
    ensures i < c <= |ws| && GroupOk(ws, target, i, c) ==> c <= Extend(ws, target, k, Sum(ws, i, k)) || c < k
    decreases |ws| - k
  {
    if k < |ws| {
      if Sum(ws, i, k) + ws[k] <= target {
        ExtendFurthest(ws, target, i, k + 1, c);
      } else if k < c <= |ws| {
        SumSplit(ws, i, k + 1, c);
      }
    }
  }

  lemma GroupEndFurthest(ws: Weights, target: nat, i: nat, c: nat)
    requires i < c <= |ws| && GroupOk(ws, target, i, c)
    ensures GroupOk(ws, target, i, GroupEnd(ws, target, i))
    ensures c <= GroupEnd(ws, target, i)
  {
    assert Sum(ws, i, i + 1) == Sum(ws, i, i) + ws[i];
    ExtendFurthest(ws, target, i, i + 1, c);
  }

  /** Greedy grouping is itself a grouping. */
  lemma {:induction false} CutsAreGrouping(ws: Weights, target: nat, i: nat)
    requires i <= |ws|
    ensures Grouping(ws, target, i, Cuts(ws, target, i))
    decreases |ws| - i
  {
    if i < |ws| {
      GroupEndFurthest(ws, target, i, i + 1);
      CutsAreGrouping(ws, target, GroupEnd(ws, target, i));
    }
  }

  /** Starting later never takes more groups. */
  lemma {:induction false} FewerFromLater(ws: Weights, target: nat, i: nat, j: nat)
    requires i <= j <= |ws|
    ensures |Cuts(ws, target, j)| <= |Cuts(ws, target, i)|
    decreases |ws| - i
  {
    if i < j < |ws| {
      var e := GroupEnd(ws, target, i);
      if j < e {
        GroupEndFurthest(ws, target, i, i + 1);
        if e - j >= 2 { SumSplit(ws, i, j, e); }
        GroupEndFurthest(ws, target, j, e);
        FewerFromLater(ws, target, e, GroupEnd(ws, target, j));
      } else {
        FewerFromLater(ws, target, e, j);
      }
    }
  }

  /** No admissible contiguous grouping has fewer groups than the greedy one. */
  lemma {:induction false} GreedyOptimal(ws: Weights, target: nat, i: nat, cuts: seq<nat>)
    requires i <= |ws| && Grouping(ws, target, i, cuts)
    ensures |Cuts(ws, target, i)| <= |cuts|
    decreases |cuts|
  {
    if cuts != [] {
      GroupEndFurthest(ws, target, i, cuts[0]);
      FewerFromLater(ws, target, cuts[0], GroupEnd(ws, target, i));
      GreedyOptimal(ws, target, cuts[0], cuts[1..]);
    }
  }

  // ----- groups as text ---------------------------------------------------------------------

  datatype Group = Group(text: string, hasAtomic: bool)

  function Texts(units: seq<Unit>): (r: seq<string>)
    ensures |r| == |units| && forall i :: 0 <= i < |units| ==> r[i] == units[i].text
  {
    seq(|units|, i requires 0 <= i < |units| => units[i].text)
  }

  function WeightsOf(units: seq<Unit>): (ws: Weights)
    ensures |ws| == |units| && forall i :: 0 <= i < |units| ==> ws[i] == Weight(units[i])
  {
    seq(|units|, i requires 0 <= i < |units| => Weight(units[i]))
  }

  predicate AnyAtomic(units: seq<Unit>) { exists i :: 0 <= i < |units| && units[i].atomic }

  function GroupOf(units: seq<Unit>, sep: string): Group { Group(Join(sep, Texts(units)), AnyAtomic(units)) }

  function GroupsFrom(units: seq<Unit>, sep: string, target: nat, i: nat): seq<Group>
    requires i <= |units|
    decreases |units| - i
  {
    if i == |units| then []
    else
      var e := GroupEnd(WeightsOf(units), target, i);
      [GroupOf(units[i..e], sep)] + GroupsFrom(units, sep, target, e)
  }

  /** Where the k-th group from `i` begins. */
  function GroupStart(ws: Weights, target: nat, i: nat, k: nat): (s: nat)
    requires i <= |ws| && k < |Cuts(ws, target, i)|
  {
    if k == 0 then i else Cuts(ws, target, i)[k - 1]
  }

  /** The groups are the texts between consecutive greedy boundaries. */
  lemma {:induction false} GroupAt(units: seq<Unit>, sep: string, target: nat, i: nat, k: nat)
    requires i <= |units| && k < |Cuts(WeightsOf(units), target, i)|
    ensures |GroupsFrom(units, sep, target, i)| == |Cuts(WeightsOf(units), target, i)|
    ensures var ws := WeightsOf(units);
            var a, b := GroupStart(ws, target, i, k), Cuts(ws, target, i)[k];
            i <= a < b <= |units| && GroupsFrom(units, sep, target, i)[k] == GroupOf(units[a..b], sep)
    decreases |units| - i
  {
    var ws := WeightsOf(units);
    var e := GroupEnd(ws, target, i);
    GroupCount(units, sep, target, e);
    if k > 0 {
      GroupAt(units, sep, target, e, k - 1);
    }
  }

  lemma {:induction false} GroupCount(units: seq<Unit>, sep: string, target: nat, i: nat)
    requires i <= |units|
    ensures |GroupsFrom(units, sep, target, i)| == |Cuts(WeightsOf(units), target, i)|
    decreases |units| - i
  {
    if i < |units| {
      GroupCount(units, sep, target, GroupEnd(WeightsOf(units), target, i));
    }
  }

  /** The units of a group while it is open. */
  ghost predicate OpenGroup(units: seq<Unit>, target: nat, start: nat, i: nat, current: seq<string>, words: nat,
                            hasAtomic: bool)
  {
    && start <= i <= |units|
    && current == Texts(units[start..i])
    && hasAtomic == AnyAtomic(units[start..i])
    && (start == i ==> words == 0)
    && (start < i ==> GroupEnd(WeightsOf(units), target, start) == Extend(WeightsOf(units), target, i, words))
  }

  lemma OpenMore(units: seq<Unit>, target: nat, start: nat, i: nat, current: seq<string>, words: nat, hasAtomic: bool)
    requires OpenGroup(units, target, start, i, current, words, hasAtomic) && i < |units|
    requires start == i || words + Weight(units[i]) <= target
    ensures OpenGroup(units, target, start, i + 1, current + [units[i].text], words + Weight(units[i]),
                      hasAtomic || units[i].atomic)
  {
    hide Weight;
    var more := units[start..i + 1];
    assert more == units[start..i] + [units[i]];
    assert more[i - start] == units[i];
    assert forall k :: 0 <= k < i - start ==> more[k] == units[start..i][k];
  }

  lemma CloseGroup(units: seq<Unit>, sep: string, target: nat, start: nat, i: nat, current: seq<string>, words: nat,
                   hasAtomic: bool)
    requires OpenGroup(units, target, start, i, current, words, hasAtomic) && start < i
    requires i == |units| || words + Weight(units[i]) > target
    ensures GroupsFrom(units, sep, target, start)
         == [Group(Join(sep, current), hasAtomic)] + GroupsFrom(units, sep, target, i)
  {
  }

  lemma OpenIsEmpty(units: seq<Unit>, target: nat, start: nat, i: nat, current: seq<string>, words: nat, hasAtomic: bool)
    requires OpenGroup(units, target, start, i, current, words, hasAtomic)
    ensures start <= i <= |units| && (current == [] <==> start == i)
  {
    hide Weight, AnyAtomic;
  }

  lemma OpenNothing(units: seq<Unit>, target: nat, i: nat)
    requires i <= |units|
    ensures OpenGroup(units, target, i, i, [], 0, false)
  {
    hide Weight;
  }

  /** The grouping loop, with its open group and running weight. */
  method GroupUnits(units: seq<Unit>, sep: string, target: nat) returns (grouped: seq<Group>)
    ensures grouped == GroupsFrom(units, sep, target, 0)
  {
    hide Weight, Join, GroupsFrom, OpenGroup;
    grouped := [];
    OpenNothing(units, target, 0);
    var current: seq<string> := [];
    var currentWords: nat := 0;
    var currentHasAtomic := false;
    ghost var start := 0;
    for i := 0 to |units|
      invariant OpenGroup(units, target, start, i, current, currentWords, currentHasAtomic)
      invariant start <= i && (start == i ==> i == 0)
      invariant GroupsFrom(units, sep, target, 0) == grouped + GroupsFrom(units, sep, target, start)
    {
      var u := units[i];
      var weight := Weight(u);
      OpenIsEmpty(units, target, start, i, current, currentWords, currentHasAtomic);
      if current != [] && currentWords + weight > target {
        CloseGroup(units, sep, target, start, i, current, currentWords, currentHasAtomic);
        grouped := grouped + [Group(Join(sep, current), currentHasAtomic)];
        current, currentWords, currentHasAtomic := [], 0, false;
        start := i;
        OpenNothing(units, target, i);
      }
      OpenMore(units, target, start, i, current, currentWords, currentHasAtomic);
      current := current + [u.text];
      currentWords := currentWords + weight;
      currentHasAtomic := currentHasAtomic || u.atomic;
    }
    OpenIsEmpty(units, target, start, |units|, current, currentWords, currentHasAtomic);
    if current != [] {
      CloseGroup(units, sep, target, start, |units|, current, currentWords, currentHasAtomic);
      grouped := grouped + [Group(Join(sep, current), currentHasAtomic)];
    }
    NoGroupsAtEnd(units, sep, target);
  }

  lemma NoGroupsAtEnd(units: seq<Unit>, sep: string, target: nat)
    ensures GroupsFrom(units, sep, target, |units|) == []
  {
  }

  // ----- what follows a boundary ------------------------------------------------------------

  /** From a boundary on, the groups depend only on the units that follow it. */
  lemma {:induction false} SuffixDetermines(u: seq<Unit>, i: nat, v: seq<Unit>, j: nat, sep: string, target: nat)
    requires i <= |u| && j <= |v| && u[i..] == v[j..]
    ensures GroupsFrom(u, sep, target, i) == GroupsFrom(v, sep, target, j)
    decreases |u| - i
  {
    assert |u| - i == |u[i..]| == |v[j..]| == |v| - j;
    if i < |u| {
      SameGroup(u, i, v, j, target);
      GroupsByHead(u, sep, target, i);
      GroupsByHead(v, sep, target, j);
      SuffixDetermines(u, GroupEnd(WeightsOf(u), target, i), v, GroupEnd(WeightsOf(v), target, j), sep, target);
    }
  }

  /** The next group of equal suffixes. */
  lemma SameGroup(u: seq<Unit>, i: nat, v: seq<Unit>, j: nat, target: nat)
    requires i < |u| && j < |v| && u[i..] == v[j..]
    ensures var e, f := GroupEnd(WeightsOf(u), target, i), GroupEnd(WeightsOf(v), target, j);
            u[i..e] == v[j..f] && u[e..] == v[f..]
  {
    hide Weight;
    assert |u| - i == |u[i..]| == |v[j..]| == |v| - j;
    SameWeights(u, i, v, j);
    SameExtent(WeightsOf(u), i, WeightsOf(v), j, target, i + 1, WeightsOf(u)[i]);
    hide GroupEnd;
    var n := GroupEnd(WeightsOf(u), target, i) - i;
    SameSlices(u, i, v, j, n);
  }

  lemma SameWeights(u: seq<Unit>, i: nat, v: seq<Unit>, j: nat)
    requires i < |u| && j < |v| && u[i..] == v[j..]
    ensures WeightsOf(u)[i..] == WeightsOf(v)[j..] && WeightsOf(u)[i] == WeightsOf(v)[j]
  {
    hide Weight;
    assert |u| - i == |u[i..]| == |v[j..]| == |v| - j;
    assert forall k :: 0 <= k < |u| - i ==> u[i + k] == u[i..][k] == v[j..][k] == v[j + k];
  }

  lemma SameSlices<T>(u: seq<T>, i: nat, v: seq<T>, j: nat, n: nat)
    requires i + n <= |u| && j + n <= |v| && u[i..] == v[j..]
    ensures u[i..i + n] == v[j..j + n] && u[i + n..] == v[j + n..]
  {
    assert u[i..i + n] == u[i..][..n] && v[j..j + n] == v[j..][..n];
    assert u[i + n..] == u[i..][n..] && v[j + n..] == v[j..][n..];
  }

  lemma {:induction false} SameExtent(x: Weights, i: nat, y: Weights, j: nat, target: nat, k: nat, weight: nat)
    requires i <= k <= |x| && j <= |y| && x[i..] == y[j..]
    ensures Extend(x, target, k, weight) - i == Extend(y, target, j + (k - i), weight) - j
    decreases |x| - k
  {
    assert |x| - i == |x[i..]| == |y[j..]| == |y| - j;
    if k < |x| {
      assert x[k] == x[i..][k - i] == y[j..][k - i] == y[j + (k - i)];
      SameExtent(x, i, y, j, target, k + 1, weight + x[k]);
    }
  }

  // ----- sizes of groups --------------------------------------------------------------------

  predicate IsSeparator(sep: string) { sep == "\n" || sep == "\n\n" }

  lemma {:induction false} AllWordsCount(units: seq<Unit>)
    requires !AnyAtomic(units)
    ensures |AllWords(Texts(units))| == Sum(WeightsOf(units), 0, |units|)
  {
    if units != [] {
      var rest := units[1..];
      assert !AnyAtomic(rest) by {
        assert forall i :: 0 <= i < |rest| ==> rest[i] == units[i + 1];
      }
      AllWordsCount(rest);
      assert Texts(units)[1..] == Texts(rest);
      SumSplit(WeightsOf(units), 0, 1, |units|);
      ShiftedSum(WeightsOf(units), WeightsOf(rest), |rest|);
      assert Sum(WeightsOf(units), 0, 1) == Sum(WeightsOf(units), 0, 0) + Weight(units[0]);
      assert !units[0].atomic;
    }
  }

  lemma {:induction false} ShiftedSum(ws: Weights, rest: Weights, n: nat)
    requires |ws| == |rest| + 1 && n <= |rest| && forall i :: 0 <= i < |rest| ==> rest[i] == ws[i + 1]
    ensures Sum(ws, 1, n + 1) == Sum(rest, 0, n)
  {
    if n > 0 { ShiftedSum(ws, rest, n - 1); }
  }

  lemma {:induction false} SliceSum(ws: Weights, a: nat, b: nat, n: nat)
    requires a <= b <= |ws| && n <= b - a
    ensures Sum(ws[a..b], 0, n) == Sum(ws, a, a + n)
  {
    if n > 0 { SliceSum(ws, a, b, n - 1); }
  }

  /** The words of a group without rows are the words of its units. */
  lemma GroupWords(units: seq<Unit>, sep: string)
    requires !AnyAtomic(units) && IsSeparator(sep)
    ensures |Words(GroupOf(units, sep).text)| == Sum(WeightsOf(units), 0, |units|)
  {
    WordsOfJoin(sep, Texts(units));
    AllWordsCount(units);
  }

  predicate Expanded(units: seq<Unit>, target: nat) {
    forall i :: 0 <= i < |units| && !units[i].atomic ==> |Words(units[i].text)| <= Limit(target)
  }

  lemma WindowWords(words: seq<string>, s: Span)
    requires s.from <= s.to <= |words| && forall i :: 0 <= i < |words| ==> IsWord(words[i])
    ensures Words(WindowText(words, s)) == words[s.from..s.to]
  {
    WordsOfJoinedWords(words[s.from..s.to]);
  }

  lemma ExpandUnitBounded(u: Unit, target: nat, overlap: nat)
    requires target > 0
    ensures Expanded(ExpandUnit(u, target, overlap), target)
  {
    hide Words, Join, Windows, WindowText;
    if Oversized(u, target) {
      var words := Words(u.text);
      var spans := Windows(|words|, target, overlap, 0);
      WordsAreWords(u.text);
      WindowsCover(|words|, target, overlap, 0);
      forall i | 0 <= i < |spans|
        ensures |Words(WindowText(words, spans[i]))| <= target
      {
        WindowWords(words, spans[i]);
      }
    }
  }

  /** After expansion no unit that is not a row exceeds one and a half times the target. */
  lemma {:induction false} ExpandBounded(units: seq<Unit>, target: nat, overlap: nat)
    requires target > 0
    ensures Expanded(Expand(units, target, overlap), target)
  {
    hide ExpandUnit;
    if units != [] {
      ExpandUnitBounded(units[0], target, overlap);
      ExpandBounded(units[1..], target, overlap);
    }
  }

  /** The words of a group, as a slice of all the units. */
  lemma SliceWords(units: seq<Unit>, sep: string, a: nat, b: nat)
    requires IsSeparator(sep) && a < b <= |units| && !AnyAtomic(units[a..b])
    ensures |Words(GroupOf(units[a..b], sep).text)| == Sum(WeightsOf(units), a, b)
  {
    hide Weight, GroupOf;
    GroupWords(units[a..b], sep);
    assert WeightsOf(units[a..b]) == WeightsOf(units)[a..b];
    SliceSum(WeightsOf(units), a, b, b - a);
  }

  lemma SingleUnit(units: seq<Unit>, target: nat, a: nat)
    requires a < |units| && !AnyAtomic(units[a..a + 1]) && Expanded(units, target)
    ensures Sum(WeightsOf(units), a, a + 1) <= Limit(target)
  {
  }

  lemma EstimateWithinTarget(words: nat, targetTokens: int)
    requires words <= TargetWords(targetTokens) && targetTokens >= 108
    ensures words * 27 / 20 <= targetTokens
  {
  }

  /**
   A chunk without rows holds at most one and a half times the target words; one of two or more
   units holds at most the target, and so estimates at most the target tokens from 108 up.
   */
  lemma ChunkSize(units: seq<Unit>, sep: string, targetTokens: int, g: nat)
    requires IsSeparator(sep) && Expanded(units, TargetWords(targetTokens))
    requires g < |Cuts(WeightsOf(units), TargetWords(targetTokens), 0)|
    ensures var target := TargetWords(targetTokens);
            var a, b := GroupStart(WeightsOf(units), target, 0, g), Cuts(WeightsOf(units), target, 0)[g];
            a < b <= |units| && (!AnyAtomic(units[a..b]) ==>
              var text := GroupOf(units[a..b], sep).text;
              && |Words(text)| <= Limit(target)
              && (b - a >= 2 ==> |Words(text)| <= target)
              && (b - a >= 2 && targetTokens >= 108 ==> EstimateTokens(text) <= targetTokens))
  {
    hide Weight, GroupOf, AnyAtomic, Expanded;
    var target, ws := TargetWords(targetTokens), WeightsOf(units);
    GroupRespectsTarget(ws, target, 0, g);
    var a, b := GroupStart(ws, target, 0, g), Cuts(ws, target, 0)[g];
    if !AnyAtomic(units[a..b]) {
      SliceWords(units, sep, a, b);
      if b - a == 1 {
        SingleUnit(units, target, a);
      } else if targetTokens >= 108 {
        EstimateWithinTarget(Sum(ws, a, b), targetTokens);
      }
    }
  }

  lemma {:induction false} GroupRespectsTarget(ws: Weights, target: nat, i: nat, g: nat)
    requires i <= |ws| && g < |Cuts(ws, target, i)|
    ensures i <= GroupStart(ws, target, i, g) < Cuts(ws, target, i)[g] <= |ws|
    ensures GroupOk(ws, target, GroupStart(ws, target, i, g), Cuts(ws, target, i)[g])
    decreases |ws| - i
  {
    GroupEndFurthest(ws, target, i, i + 1);
    if g > 0 {
      GroupRespectsTarget(ws, target, GroupEnd(ws, target, i), g - 1);
    }
  }

  // ----- joining the chunks again -----------------------------------------------------------

  function GroupTexts(groups: seq<Group>): (r: seq<string>)
    ensures |r| == |groups| && forall i :: 0 <= i < |groups| ==> r[i] == groups[i].text
  {
    seq(|groups|, i requires 0 <= i < |groups| => groups[i].text)
  }

  lemma GroupsByHead(units: seq<Unit>, sep: string, target: nat, i: nat)
    requires i < |units|
    ensures var e := GroupEnd(WeightsOf(units), target, i);
            GroupsFrom(units, sep, target, i) == [GroupOf(units[i..e], sep)] + GroupsFrom(units, sep, target, e)
  {
  }


  lemma RejoinStep(sep: string, first: seq<string>, later: seq<string>, rest: seq<string>)
    requires first != [] && later != [] && rest != [] && Join(sep, rest) == Join(sep, later)
    ensures Join(sep, [Join(sep, first)] + rest) == Join(sep, first + later)
  {
    JoinAppend(sep, first, later);
    JoinAppend(sep, [Join(sep, first)], rest);
  }

  /** Joining the groups with the separator gives back the join of all the units. */
  lemma {:induction false} GroupsRejoin(units: seq<Unit>, sep: string, target: nat, i: nat)
    requires i <= |units|
    ensures Join(sep, GroupTexts(GroupsFrom(units, sep, target, i))) == Join(sep, Texts(units[i..]))
    decreases |units| - i
  {
    hide Weight, Join, GroupsFrom, AnyAtomic, GroupEnd;
    SomeGroupsLeft(units, sep, target, i);
    if i == |units| {
      assert Texts(units[i..]) == [] == GroupTexts(GroupsFrom(units, sep, target, i));
    } else {
      var e := GroupEnd(WeightsOf(units), target, i);
      GroupsRejoin(units, sep, target, e);
      GroupTextsByHead(units, sep, target, i);
      SomeGroupsLeft(units, sep, target, e);
      if e < |units| {
        RejoinStep(sep, Texts(units[i..e]), Texts(units[e..]), GroupTexts(GroupsFrom(units, sep, target, e)));
      } else {
        JoinOne(sep, Join(sep, Texts(units[i..e])));
        assert units[i..e] == units[i..];
      }
    }
  }

  lemma GroupTextsByHead(units: seq<Unit>, sep: string, target: nat, i: nat)
    requires i < |units|
    ensures var e := GroupEnd(WeightsOf(units), target, i);
            && GroupTexts(GroupsFrom(units, sep, target, i)) ==
               [Join(sep, Texts(units[i..e]))] + GroupTexts(GroupsFrom(units, sep, target, e))
            && Texts(units[i..]) == Texts(units[i..e]) + Texts(units[e..])
            && (e == |units| ==> GroupTexts(GroupsFrom(units, sep, target, i)) == [Join(sep, Texts(units[i..e]))])
  {
    hide Weight, Join, GroupsFrom, AnyAtomic, GroupEnd;
    GroupsByHead(units, sep, target, i);
    SomeGroupsLeft(units, sep, target, GroupEnd(WeightsOf(units), target, i));
  }

  lemma JoinOne(sep: string, x: string)
    ensures Join(sep, [x]) == x
  {
  }

  lemma SomeGroupsLeft(units: seq<Unit>, sep: string, target: nat, i: nat)
    requires i <= |units|
    ensures GroupsFrom(units, sep, target, i) == [] <==> i == |units|
  {
    hide Weight, GroupOf;
  }

  lemma {:induction false} ExpandNothing(units: seq<Unit>, target: nat, overlap: nat)
    requires target > 0 && forall i :: 0 <= i < |units| ==> !Oversized(units[i], target)
    ensures Expand(units, target, overlap) == units
  {
    if units != [] {
      ExpandNothing(units[1..], target, overlap);
    }
  }
}
