/**
 Where a source's text is divided into units: at blank lines if that leaves several, else at line ends if that
 does, else nowhere.
 */
module SourceSplits {
  import opened Outcomes
  import opened Text
  import opened Chunking
  import opened SourceChunks

  /** What may divide a text: a blank line, that is two newlines with nothing but whitespace between, or a line end. */
  datatype Divider = BlankLine | LineEnd

  /** The characters at which `str.splitlines` divides. */
  const LINE_ENDS: string := "\n\U{0B}\U{0C}\r\U{1C}\U{1D}\U{1E}\U{85}\U{2028}\U{2029}"

  lemma LineBreakIff(c: char)
    ensures IsLineBreak(c) <==> c in LINE_ENDS
    ensures c in LINE_ENDS ==> IsSpace(c)
  {
  }

  predicate Divides(d: Divider, s: string) {
    match d
    case BlankLine => |s| >= 2 && s[0] == '\n' && s[|s| - 1] == '\n' && AllSpace(s)
    case LineEnd => |s| == 1 && s[0] in LINE_ENDS
  }

  predicate DividedAt(d: Divider, s: string, i: nat, j: nat) { i <= j <= |s| && Divides(d, s[i..j]) }

  ghost predicate HasDivider(d: Divider, s: string) { exists i: nat, j: nat :: DividedAt(d, s, i, j) }

  lemma DividerWithin(d: Divider, a: string, b: string, c: string)
    requires HasDivider(d, b)
    ensures HasDivider(d, a + b + c)
  {
    var i: nat, j: nat :| DividedAt(d, b, i, j);
    assert (a + b + c)[|a| + i..|a| + j] == b[i..j];
    assert DividedAt(d, a + b + c, |a| + i, |a| + j);
  }

  // ----- cutting at every divider -----------------------------------------------------------

  /** The parts, with a divider between each and the next, make up the text. */
  ghost predicate Woven(d: Divider, s: string, parts: seq<string>)
    decreases |parts|
  {
    if |parts| <= 1 then parts == [s]
    else exists gap, rest :: s == parts[0] + gap + rest && Divides(d, gap) && Woven(d, rest, parts[1..])
  }

  lemma {:induction false} LastNewlineIsLast(s: string, n: nat, k: nat)
    requires n <= |s| && k < n && s[k] == '\n'
    ensures k < LastNewline(s, n)
  {
    if s[n - 1] != '\n' {
      LastNewlineIsLast(s, n - 1, k);
    }
  }

  lemma {:induction false} SpaceRunReaches(s: string, n: nat)
    requires n <= |s| && AllSpace(s[..n])
    ensures n <= SpaceRun(s)
  {
    if n > 0 {
      assert IsSpace(s[..n][0]);
      assert s[1..][..n - 1] == s[..n][1..];
      SpaceRunReaches(s[1..], n - 1);
    }
  }

  /** The run taken for a break is one, and there is one whenever a blank line starts here. */
  lemma BreakFound(s: string)
    ensures BreakLength(s) > 0 ==> Divides(BlankLine, s[..BreakLength(s)])
    ensures forall j: nat :: DividedAt(BlankLine, s, 0, j) ==> BreakLength(s) > 0
  {
    forall j: nat | DividedAt(BlankLine, s, 0, j)
      ensures BreakLength(s) > 0
    {
      assert s[..j][j - 1] == s[1..][j - 2] == '\n';
      assert s[1..][..j - 1] == s[..j][1..];
      SpaceRunReaches(s[1..], j - 1);
      LastNewlineIsLast(s[1..], SpaceRun(s[1..]), j - 2);
    }
    var m := BreakLength(s);
    if m > 0 {
      assert s[1..][m - 2] == s[m - 1] == '\n';
    }
  }

  lemma SliceOfTail(s: string, i: nat, j: nat)
    requires 0 < i <= j <= |s|
    ensures s[1..][i - 1..j - 1] == s[i..j]
  {
    forall k | 0 <= k < j - i
      ensures s[1..][i - 1..j - 1][k] == s[i..j][k]
    {
      assert s[1..][i - 1 + k] == s[i + k];
    }
  }

  lemma {:induction false} RunHasNoBreak(s: string, i: nat, j: nat)
    requires i <= j <= ParagraphRun(s)
    ensures !Divides(BlankLine, s[i..j])
  {
    hide BreakLength;
    if i < j {
      if i > 0 {
        SliceOfTail(s, i, j);
        RunHasNoBreak(s[1..], i - 1, j - 1);
      } else {
        BreakFound(s);
        assert BreakLength(s) == 0;
        assert !DividedAt(BlankLine, s, 0, j);
      }
    }
  }

  lemma RunIsUndivided(s: string)
    ensures !HasDivider(BlankLine, s[..ParagraphRun(s)])
  {
    hide ParagraphRun, Divides;
    var first := s[..ParagraphRun(s)];
    if i: nat, j: nat :| DividedAt(BlankLine, first, i, j) {
      assert first[i..j] == s[i..j];
      RunHasNoBreak(s, i, j);
      assert false;
    }
  }

  lemma WovenByHead(d: Divider, first: string, gap: string, rest: string, parts: seq<string>)
    requires parts != [] && Divides(d, gap) && Woven(d, rest, parts)
    ensures Woven(d, first + gap + rest, [first] + parts)
  {
    assert ([first] + parts)[1..] == parts;
  }

  lemma OneWoven(d: Divider, s: string)
    ensures Woven(d, s, [s])
  {
  }

  lemma {:induction false} ParagraphsWoven(s: string)
    ensures Paragraphs(s) != [] && Woven(BlankLine, s, Paragraphs(s))
    decreases |s|
  {
    hide BreakLength, ParagraphRun, HasDivider, Divides, Woven;
    var n := ParagraphRun(s);
    OneWoven(BlankLine, s);
    if n < |s| {
      var b := BreakLength(s[n..]);
      BreakFound(s[n..]);
      ParagraphsWoven(s[n + b..]);
      WovenByHead(BlankLine, s[..n], s[n..][..b], s[n + b..], Paragraphs(s[n + b..]));
      assert s == s[..n] + s[n..][..b] + s[n + b..];
    }
  }

  lemma {:induction false} ParagraphsUndivided(s: string, k: nat)
    requires k < |Paragraphs(s)|
    ensures !HasDivider(BlankLine, Paragraphs(s)[k])
    decreases |s|
  {
    hide BreakLength, ParagraphRun, HasDivider, Divides;
    var n := ParagraphRun(s);
    RunIsUndivided(s);
    assert n == |s| ==> s[..n] == s;
    if n < |s| && k > 0 {
      ParagraphsUndivided(s[n + BreakLength(s[n..])..], k - 1);
    }
  }

  lemma {:induction false} RunHasNoLineEnd(s: string, i: nat)
    requires i < PhysicalRun(s)
    ensures !IsLineBreak(s[i])
  {
    if i > 0 {
      RunHasNoLineEnd(s[1..], i - 1);
    }
  }

  lemma LineIsUndivided(s: string)
    ensures !HasDivider(LineEnd, s[..PhysicalRun(s)])
  {
    hide PhysicalRun;
    var first := s[..PhysicalRun(s)];
    if i: nat, j: nat :| DividedAt(LineEnd, first, i, j) {
      assert first[i..j][0] == s[i];
      RunHasNoLineEnd(s, i);
      assert false;
    }
  }

  lemma {:induction false} LinesWoven(s: string)
    ensures PhysicalLines(s) != [] && Woven(LineEnd, s, PhysicalLines(s))
    ensures forall k :: 0 <= k < |PhysicalLines(s)| ==> !HasDivider(LineEnd, PhysicalLines(s)[k])
    decreases |s|
  {
    hide PhysicalRun, HasDivider;
    var n := PhysicalRun(s);
    LineIsUndivided(s);
    assert n == |s| ==> s[..n] == s;
    if n < |s| {
      LinesWoven(s[n + 1..]);
      WovenByHead(LineEnd, s[..n], [s[n]], s[n + 1..], PhysicalLines(s[n + 1..]));
      assert s == s[..n] + [s[n]] + s[n + 1..];
    }
  }

  // ----- the units that are kept ------------------------------------------------------------

  ghost predicate LaidFirst(d: Divider, s: string, gap: string, unit: string, rest: string, inside: bool) {
    s == gap + unit + rest && AllSpace(gap) && (inside ==> HasDivider(d, gap))
  }

  /**
   The units lie in the text in order, with nothing but whitespace between and around them, and between one and the
   next there is a divider. `inside` says that something has come before.
   */
  ghost predicate Laid(d: Divider, s: string, units: seq<string>, inside: bool)
    decreases |units|
  {
    if units == [] then AllSpace(s)
    else exists gap, rest :: LaidFirst(d, s, gap, units[0], rest, inside) && Laid(d, rest, units[1..], true)
  }

  lemma DividersAreSpace(d: Divider, gap: string)
    requires Divides(d, gap)
    ensures AllSpace(gap) && HasDivider(d, gap)
  {
    assert gap[0..|gap|] == gap;
    assert DividedAt(d, gap, 0, |gap|);
  }

  /** A longer lead is one as well. */
  lemma LeadGrows(d: Divider, lead: string, more: string, inside: bool)
    requires AllSpace(lead) && AllSpace(more) && (inside ==> HasDivider(d, lead))
    ensures AllSpace(lead + more) && (inside ==> HasDivider(d, lead + more))
  {
    SpaceOnly(lead, more);
    assert "" + lead + more == lead + more;
    if inside { DividerWithin(d, "", lead, more); }
  }

  lemma LaidByHead(d: Divider, gap: string, unit: string, rest: string, units: seq<string>, inside: bool)
    requires AllSpace(gap) && (inside ==> HasDivider(d, gap)) && Laid(d, rest, units, true)
    ensures Laid(d, gap + unit + rest, [unit] + units, inside)
  {
    hide AllSpace, HasDivider;
    var all := [unit] + units;
    assert all[0] == unit && all[1..] == units;
    assert LaidFirst(d, gap + unit + rest, gap, all[0], rest, inside);
  }

  /** After a part: the next lead is all that follows the last unit, or everything so far if there is none yet. */
  lemma NextLead(d: Divider, lead: string, p: string, after: string, gap: string, inside: bool)
    requires AllSpace(lead) && AllSpace(after) && Divides(d, gap) && (inside ==> HasDivider(d, lead))
    ensures AllSpace(after + gap) && HasDivider(d, after + gap)
    ensures AllSpace(p) ==> AllSpace(lead + p + gap) && (inside ==> HasDivider(d, lead + p + gap))
  {
    hide Divides, AllSpace;
    DividersAreSpace(d, gap);
    SpaceOnly(after, gap);
    assert after + gap + "" == after + gap;
    DividerWithin(d, after, gap, "");
    if AllSpace(p) {
      LeadGrows(d, lead, p, inside);
      LeadGrows(d, lead + p, gap, inside);
    }
  }

  lemma KeptByHead(p: string, parts: seq<string>)
    ensures Kept([p] + parts) == (if Strip(p) == "" then [] else [Strip(p)]) + Kept(parts)
  {
    assert ([p] + parts)[1..] == parts;
  }

  lemma LastPart(d: Divider, lead: string, p: string, inside: bool)
    requires AllSpace(lead) && (inside ==> HasDivider(d, lead))
    ensures Laid(d, lead + p, Kept([p]), inside)
  {
    hide HasDivider, AllSpace, Strip, Kept, Trimmed;
    KeptByHead(p, []);
    KeptNone(d);
    assert [p] + [] == [p];
    var before, after := StripShape(p);
    if Strip(p) == "" {
      SpaceOnly(lead, p);
    } else {
      LeadGrows(d, lead, before, inside);
      LaidByHead(d, lead + before, Strip(p), after, [], inside);
      assert lead + p == lead + before + Strip(p) + after;
    }
  }

  lemma PartLaid(d: Divider, lead: string, before: string, core: string, after: string, gap: string, rest: string,
                 units: seq<string>, inside: bool)
    requires AllSpace(lead) && AllSpace(before) && (inside ==> HasDivider(d, lead))
    requires Laid(d, after + gap + rest, units, true)
    ensures Laid(d, lead + (before + core + after + gap + rest), [core] + units, inside)
  {
    hide AllSpace, HasDivider, Laid;
    LeadGrows(d, lead, before, inside);
    LaidByHead(d, lead + before, core, after + gap + rest, units, inside);
    assert lead + before + core + (after + gap + rest) == lead + (before + core + after + gap + rest);
  }

  lemma {:induction false} KeptLaid(d: Divider, lead: string, s: string, parts: seq<string>, inside: bool)
    requires parts != [] && Woven(d, s, parts) && AllSpace(lead) && (inside ==> HasDivider(d, lead))
    ensures Laid(d, lead + s, Kept(parts), inside)
    decreases |parts|
  {
    hide Divides, HasDivider, AllSpace, Strip, Kept, Laid, Trimmed;
    var p := parts[0];
    if |parts| == 1 {
      LastPart(d, lead, p, inside);
    } else {
      var gap, rest :| s == p + gap + rest && Divides(d, gap) && Woven(d, rest, parts[1..]);
      var before, after := StripShape(p);
      NextLead(d, lead, p, after, gap, inside);
      KeptByHead(p, parts[1..]);
      assert parts == [p] + parts[1..];
      if Strip(p) == "" {
        KeptLaid(d, lead + p + gap, rest, parts[1..], inside);
        assert lead + p + gap + rest == lead + s && [] + Kept(parts[1..]) == Kept(parts[1..]);
      } else {
        KeptLaid(d, after + gap, rest, parts[1..], true);
        PartLaid(d, lead, before, Strip(p), after, gap, rest, Kept(parts[1..]), inside);
        assert before + Strip(p) + after + gap + rest == s;
      }
    }
  }

  lemma KeptNone(d: Divider)
    ensures Kept([]) == []
    ensures forall s: string, inside :: Laid(d, s, [], inside) <==> AllSpace(s)
  {
  }

  /** Each unit starts and ends with a character that is no whitespace, and holds no divider. */
  ghost predicate Whole(d: Divider, units: seq<string>) {
    forall k :: 0 <= k < |units| ==> Trimmed(units[k]) && !HasDivider(d, units[k])
  }

  lemma {:induction false} KeptWhole(d: Divider, parts: seq<string>)
    requires forall k :: 0 <= k < |parts| ==> !HasDivider(d, parts[k])
    ensures Whole(d, Kept(parts))
  {
    hide HasDivider, Strip, Trimmed;
    if parts != [] {
      KeptWhole(d, parts[1..]);
      var before, after := StripShape(parts[0]);
      if HasDivider(d, Strip(parts[0])) {
        DividerWithin(d, before, Strip(parts[0]), after);
        assert false;
      }
    }
  }

  // ----- there is one way to lay units, and when there are several --------------------------

  lemma GapIsSpaceRun(gap: string, more: string)
    requires AllSpace(gap) && more != "" && !IsSpace(more[0])
    ensures SpaceRun(gap + more) == |gap|
  {
    var s := gap + more;
    assert s[..|gap|] == gap;
    SpaceRunReaches(s, |gap|);
    assert s[|gap|] == more[0];
    assert forall i :: 0 <= i < SpaceRun(s) ==> s[i] == s[..SpaceRun(s)][i];
  }

  lemma FirstGap(a: string, u: string, x: string, b: string, v: string, y: string)
    requires a + u + x == b + v + y && AllSpace(a) && AllSpace(b) && Trimmed(u) && Trimmed(v)
    ensures a == b && u + x == v + y
  {
    hide AllSpace, SpaceRun;
    var s := a + u + x;
    assert s == a + (u + x) && s == b + (v + y);
    GapIsSpaceRun(a, u + x);
    GapIsSpaceRun(b, v + y);
    assert s[..|a|] == a && s[..|b|] == b && s[|a|..] == u + x && s[|b|..] == v + y;
  }

  /** Before any text that follows there is a divider. */
  lemma GapEnds(d: Divider, x: string, units: seq<string>, k: nat)
    requires Laid(d, x, units, true) && k < |x| && !IsSpace(x[k])
    ensures HasDivider(d, x[..k])
  {
    hide HasDivider;
    if units != [] {
      var gap, rest :| LaidFirst(d, x, gap, units[0], rest, true) && Laid(d, rest, units[1..], true);
      assert forall i :: 0 <= i < |gap| ==> x[i] == gap[i];
      assert "" + gap + x[|gap|..k] == x[..k];
      DividerWithin(d, "", gap, x[|gap|..k]);
    }
  }

  /** A longer unit would have to hold the gap after a shorter one. */
  lemma NotLonger(d: Divider, u: string, x: string, v: string, y: string, units: seq<string>)
    requires u + x == v + y && Trimmed(v) && !HasDivider(d, v) && Laid(d, x, units, true)
    ensures |v| <= |u|
  {
    hide HasDivider, Laid;
    if |u| < |v| {
      var s, k := u + x, |v| - |u| - 1;
      assert v == s[..|v|] && x == s[|u|..];
      assert x[k] == v[|v| - 1];
      assert u + x[..k] + [x[k]] == v;
      GapEnds(d, x, units, k);
      DividerWithin(d, u, x[..k], [x[k]]);
      assert false;
    }
  }

  lemma SameFirst(u: string, x: string, v: string, y: string)
    requires u + x == v + y && |u| == |v|
    ensures u == v && x == y
  {
    assert u == (u + x)[..|u|] && v == (v + y)[..|v|];
    assert x == (u + x)[|u|..] && y == (v + y)[|v|..];
  }

  lemma WholeTail(d: Divider, units: seq<string>)
    requires units != [] && Whole(d, units)
    ensures Whole(d, units[1..]) && Trimmed(units[0]) && !HasDivider(d, units[0])
  {
    hide HasDivider, Trimmed;
  }

  /** However units are laid so that each is whole, they are the same units. */
  lemma {:induction false} LaidOneWay(d: Divider, s: string, us: seq<string>, vs: seq<string>, inside: bool)
    requires Laid(d, s, us, inside) && Laid(d, s, vs, inside) && Whole(d, us) && Whole(d, vs)
    ensures us == vs
    decreases |us|
  {
    hide HasDivider, AllSpace, Trimmed, Whole;
    OnlySpaceIsEmpty(d, s, us, inside);
    OnlySpaceIsEmpty(d, s, vs, inside);
    if us != [] {
      WholeTail(d, us);
      WholeTail(d, vs);
      var a, x :| LaidFirst(d, s, a, us[0], x, inside) && Laid(d, x, us[1..], true);
      var b, y :| LaidFirst(d, s, b, vs[0], y, inside) && Laid(d, y, vs[1..], true);
      FirstGap(a, us[0], x, b, vs[0], y);
      NotLonger(d, us[0], x, vs[0], y, us[1..]);
      NotLonger(d, vs[0], y, us[0], x, vs[1..]);
      SameFirst(us[0], x, vs[0], y);
      LaidOneWay(d, x, us[1..], vs[1..], true);
      assert us == [us[0]] + us[1..] && vs == [vs[0]] + vs[1..];
    }
  }

  lemma OnlySpaceIsEmpty(d: Divider, s: string, us: seq<string>, inside: bool)
    requires Laid(d, s, us, inside) && Whole(d, us)
    ensures us == [] <==> AllSpace(s)
  {
    hide HasDivider;
    if us != [] {
      var a, x :| LaidFirst(d, s, a, us[0], x, inside) && Laid(d, x, us[1..], true);
      assert s[|a|] == us[0][0];
    }
  }

  /** Text on both sides of a divider. */
  predicate SeparatedAt(d: Divider, s: string, i: nat, j: nat) {
    DividedAt(d, s, i, j) && !AllSpace(s[..i]) && !AllSpace(s[j..])
  }

  ghost predicate Separated(d: Divider, s: string) { exists i: nat, j: nat :: SeparatedAt(d, s, i, j) }

  lemma DividerBetween(d: Divider, left: string, gap: string, right: string)
    requires HasDivider(d, gap) && !AllSpace(left) && !AllSpace(right)
    ensures Separated(d, left + gap + right)
  {
    hide Divides;
    var s := left + gap + right;
    var i: nat, j: nat :| DividedAt(d, gap, i, j);
    assert s[|left| + i..|left| + j] == gap[i..j];
    SpaceOnly(left, gap[..i]);
    SpaceOnly(gap[j..], right);
    assert s[..|left| + i] == left + gap[..i] && s[|left| + j..] == gap[j..] + right;
    assert SeparatedAt(d, s, |left| + i, |left| + j);
  }

  lemma SeveralAreSeparated(d: Divider, s: string, units: seq<string>)
    requires Laid(d, s, units, false) && Whole(d, units) && |units| > 1
    ensures Separated(d, s)
  {
    hide HasDivider, Separated, Trimmed, AllSpace;
    var u, v := units[0], units[1..][0];
    WholeTail(d, units);
    WholeTail(d, units[1..]);
    var a, x :| LaidFirst(d, s, a, u, x, false) && Laid(d, x, units[1..], true);
    var gap, rest :| LaidFirst(d, x, gap, v, rest, true) && Laid(d, rest, units[1..][1..], true);
    TwoUnits(d, a, u, gap, v, rest);
    assert s == a + u + (gap + v + rest);
  }

  lemma TwoUnits(d: Divider, a: string, u: string, gap: string, v: string, rest: string)
    requires Trimmed(u) && Trimmed(v) && HasDivider(d, gap)
    ensures Separated(d, a + u + (gap + v + rest))
  {
    hide HasDivider, Separated, Trimmed, AllSpace;
    SomethingThere(a, u, "");
    SomethingThere("", v, rest);
    DividerBetween(d, a + u + "", gap, "" + v + rest);
    assert a + u + "" + gap + ("" + v + rest) == a + u + (gap + v + rest);
  }

  lemma SomethingThere(a: string, u: string, x: string)
    requires Trimmed(u)
    ensures !AllSpace(a + u + x)
  {
    assert (a + u + x)[|a|] == u[0];
  }

  lemma Undivided(d: Divider, u: string, i: nat, j: nat)
    requires !HasDivider(d, u) && i <= j <= |u|
    ensures !Divides(d, u[i..j])
  {
    assert !DividedAt(d, u, i, j);
  }

  /** Whatever separates a text with one whole unit would lie inside that unit. */
  lemma OneIsNotSeparated(d: Divider, a: string, u: string, x: string)
    requires AllSpace(a) && AllSpace(x) && !HasDivider(d, u)
    ensures !Separated(d, a + u + x)
  {
    hide Divides;
    var s := a + u + x;
    forall i: nat, j: nat
      ensures !SeparatedAt(d, s, i, j)
    {
      if SeparatedAt(d, s, i, j) {
        InsideOnly(a, u, x, i, j);
        assert s[i..j] == u[i - |a|..j - |a|];
        Undivided(d, u, i - |a|, j - |a|);
        assert false;
      }
    }
  }

  lemma InsideOnly(a: string, u: string, x: string, i: nat, j: nat)
    requires AllSpace(a) && AllSpace(x) && i <= j <= |a + u + x|
    requires !AllSpace((a + u + x)[..i]) && !AllSpace((a + u + x)[j..])
    ensures |a| < i <= j < |a| + |u|
  {
    var s := a + u + x;
    assert forall k :: 0 <= k < |a| ==> s[k] == a[k];
    assert forall k :: |a| + |u| <= k < |s| ==> s[k] == x[k - |a| - |u|];
    assert forall k :: 0 <= k < i ==> s[..i][k] == s[k];
    assert forall k :: 0 <= k < |s| - j ==> s[j..][k] == s[j + k];
  }

  lemma SeparatedAreSeveral(d: Divider, s: string, units: seq<string>)
    requires Laid(d, s, units, false) && Whole(d, units) && |units| <= 1
    ensures !Separated(d, s)
  {
    hide HasDivider, Separated, Trimmed;
    if units == [] {
      OneIsNotSeparatedAtAll(d, s);
    } else {
      var a, x :| LaidFirst(d, s, a, units[0], x, false) && Laid(d, x, units[1..], true);
      OneIsNotSeparated(d, a, units[0], x);
    }
  }

  lemma OneIsNotSeparatedAtAll(d: Divider, s: string)
    requires AllSpace(s)
    ensures !Separated(d, s)
  {
    forall i: nat, j: nat
      ensures !SeparatedAt(d, s, i, j)
    {
    }
  }

  /** The units that a divider makes of a text: laid in it, and each of them whole. */
  ghost predicate UnitsBy(d: Divider, text: string, units: seq<string>) {
    Laid(d, text, units, false) && Whole(d, units)
  }

  /** There is one such list, and it has several units exactly when the divider separates the text. */
  lemma UnitsByIff(d: Divider, text: string, us: seq<string>, vs: seq<string>)
    requires UnitsBy(d, text, us)
    ensures UnitsBy(d, text, vs) <==> us == vs
    ensures |us| > 1 <==> Separated(d, text)
  {
    hide Laid, Whole, Separated;
    if UnitsBy(d, text, vs) { LaidOneWay(d, text, us, vs, false); }
    if |us| > 1 { SeveralAreSeparated(d, text, us); } else { SeparatedAreSeveral(d, text, us); }
  }

  lemma KeptUnits(text: string)
    ensures UnitsBy(BlankLine, text, Kept(Paragraphs(text)))
    ensures UnitsBy(LineEnd, text, Kept(PhysicalLines(text)))
  {
    hide Woven, Divides, HasDivider, Kept, Paragraphs, PhysicalLines;
    ParagraphsWoven(text);
    LinesWoven(text);
    forall k | 0 <= k < |Paragraphs(text)| { ParagraphsUndivided(text, k); }
    assert "" + text == text;
    KeptLaid(BlankLine, "", text, Paragraphs(text), false);
    KeptLaid(LineEnd, "", text, PhysicalLines(text), false);
    KeptWhole(BlankLine, Paragraphs(text));
    KeptWhole(LineEnd, PhysicalLines(text));
  }

  /**
   Plain text: blank lines divide it if they separate anything, else line ends if they do, else it is one unit
   without its outer whitespace, or none.
   */
  lemma SplitUnitsIff(text: string)
    ensures var (units, sep) := SplitUnits(text);
            if Separated(BlankLine, text) then UnitsBy(BlankLine, text, units) && sep == "\n\n"
            else if Separated(LineEnd, text) then UnitsBy(LineEnd, text, units) && sep == "\n"
            else UnitsBy(LineEnd, text, units) && sep == "\n\n"
  {
    hide UnitsBy, Separated, Kept, Paragraphs, PhysicalLines;
    KeptUnits(text);
    var paragraphs, lines := Kept(Paragraphs(text)), Kept(PhysicalLines(text));
    UnitsByIff(BlankLine, text, paragraphs, []);
    UnitsByIff(LineEnd, text, lines, []);
    if |lines| <= 1 {
      OneUnit(text, lines);
    }
  }

  lemma OneUnit(text: string, lines: seq<string>)
    requires UnitsBy(LineEnd, text, lines) && |lines| <= 1
    ensures Kept([text]) == lines
  {
    hide HasDivider, AllSpace, Strip, Trimmed;
    KeptByHead(text, []);
    KeptNone(LineEnd);
    var before, after := StripShape(text);
    OnlySpaceIsEmpty(LineEnd, text, lines, false);
    assert [text] + [] == [text];
    if lines != [] {
      var a, x :| LaidFirst(LineEnd, text, a, lines[0], x, false) && Laid(LineEnd, x, lines[1..], true);
      FirstGap(a, lines[0], x, before, Strip(text), after);
      OnlySpaceAfter(lines[0], x, Strip(text), after);
      OnlySpaceAfter(Strip(text), after, lines[0], x);
      SameFirst(lines[0], x, Strip(text), after);
    }
  }

  lemma OnlySpaceAfter(u: string, x: string, v: string, y: string)
    requires u + x == v + y && AllSpace(x) && Trimmed(v)
    ensures |v| <= |u|
  {
    assert (u + x)[|v| - 1] == v[|v| - 1];
    assert forall k :: |u| <= k < |u + x| ==> (u + x)[k] == x[k - |u|];
  }

  // ----- preserved lines --------------------------------------------------------------------

  lemma {:induction false} LinesHoldNoNewline(c: char, s: string, k: nat)
    requires k < |Split(c, s)|
    ensures c !in Split(c, s)[k]
    decreases |s|
  {
    hide RunBefore;
    var n := RunBefore(c, s);
    if n < |s| && k > 0 {
      LinesHoldNoNewline(c, s[n + 1..], k - 1);
    }
  }

  /** `kept` is what stands at the positions `at`, in order, which are those of the lines that are not blank. */
  predicate KeptAt(lines: seq<string>, kept: seq<string>, at: seq<nat>) {
    && |at| == |kept|
    && (forall k :: 0 <= k < |at| ==> at[k] < |lines| && kept[k] == lines[at[k]])
    && (forall j, k :: 0 <= j < k < |at| ==> at[j] < at[k])
    && (forall i :: 0 <= i < |lines| ==> (!Blank(lines[i]) <==> i in at))
  }

  function Shifted(at: seq<nat>): (r: seq<nat>)
    ensures |r| == |at| && forall k :: 0 <= k < |at| ==> r[k] == at[k] + 1
  {
    seq(|at|, k requires 0 <= k < |at| => at[k] + 1)
  }

  lemma ShiftedIn(at: seq<nat>, i: nat)
    ensures i in Shifted(at) <==> i > 0 && i - 1 in at
  {
    if i > 0 && i - 1 in at {
      var k :| 0 <= k < |at| && at[k] == i - 1;
      assert Shifted(at)[k] == i;
    }
  }

  lemma PositionsMore(x: string, lines: seq<string>, at: seq<nat>, i: nat)
    requires forall j :: 0 <= j < |lines| ==> (!Blank(lines[j]) <==> j in at)
    requires i <= |lines|
    ensures i in Shifted(at) <==> i > 0 && !Blank(([x] + lines)[i])
    ensures i in [0] + Shifted(at) <==> i == 0 || !Blank(([x] + lines)[i])
  {
    hide Blank, Shifted;
    ShiftedIn(at, i);
  }

  lemma BlankDropped(x: string, lines: seq<string>, kept: seq<string>, at: seq<nat>)
    requires KeptAt(lines, kept, at) && Blank(x)
    ensures KeptAt([x] + lines, kept, Shifted(at))
  {
    hide Blank;
    var all := [x] + lines;
    assert forall k :: 0 <= k < |at| ==> all[Shifted(at)[k]] == lines[at[k]];
    forall i | 0 <= i < |all| { PositionsMore(x, lines, at, i); }
  }

  lemma LineKept(x: string, lines: seq<string>, kept: seq<string>, at: seq<nat>)
    requires KeptAt(lines, kept, at) && !Blank(x)
    ensures KeptAt([x] + lines, [x] + kept, [0] + Shifted(at))
  {
    hide Blank, Shifted;
    var all, longer, moved := [x] + lines, [x] + kept, [0] + Shifted(at);
    forall k | 0 <= k < |moved|
      ensures moved[k] < |all| && longer[k] == all[moved[k]]
    {
      assert k > 0 ==> moved[k] == at[k - 1] + 1 && longer[k] == kept[k - 1];
    }
    forall j, k | 0 <= j < k < |moved|
      ensures moved[j] < moved[k]
    {
      assert moved[k] == at[k - 1] + 1;
      assert j > 0 ==> moved[j] == at[j - 1] + 1;
    }
    forall i | 0 <= i < |all| { PositionsMore(x, lines, at, i); }
  }

  /** The lines kept are exactly those that are not blank, as they are and in their order. */
  lemma {:induction false} PreservedLines(lines: seq<string>) returns (at: seq<nat>)
    ensures KeptAt(lines, NonBlank(lines), at)
  {
    hide Blank, KeptAt;
    if lines == [] {
      at := [];
      NoLines();
    } else {
      var later := PreservedLines(lines[1..]);
      assert [lines[0]] + lines[1..] == lines;
      if Blank(lines[0]) {
        BlankDropped(lines[0], lines[1..], NonBlank(lines[1..]), later);
      } else {
        LineKept(lines[0], lines[1..], NonBlank(lines[1..]), later);
      }
      at := (if Blank(lines[0]) then [] else [0]) + Shifted(later);
      assert Blank(lines[0]) ==> at == Shifted(later) && NonBlank(lines) == NonBlank(lines[1..]);
    }
  }

  lemma NoLines()
    ensures KeptAt([], [], [])
  {
  }

  predicate OnlyMarked(units: seq<Unit>, texts: seq<string>, atomic: bool) {
    Texts(units) == texts && forall i :: 0 <= i < |units| ==> units[i].atomic == atomic
  }

  lemma MarkedOnly(texts: seq<string>, atomic: bool)
    ensures OnlyMarked(Marked(texts, atomic), texts, atomic)
  {
  }

  /** The two ways in which a call is refused before its units are looked at. */
  lemma ModesRefused(text: string, preserveLines: bool, sourceUnits: Option<seq<SourceUnit>>)
    ensures var r := UnitsOf(text, preserveLines, sourceUnits);
            && (r == Err(ConflictingModes) <==> preserveLines && sourceUnits.Some?)
            && (r == Err(UnitsDifferFromText) <==>
                  !preserveLines && sourceUnits.Some? && Join("\n", SourceTexts(sourceUnits.value)) != text)
            && r != Err(RowTooLarge)
  {
    hide NonBlank, SplitUnits, Join;
  }

  /** The three modes: rows and paragraphs as given, lines as rows, or a text split into paragraphs. */
  lemma ModesOfUnits(text: string, preserveLines: bool, sourceUnits: Option<seq<SourceUnit>>)
    requires UnitsOf(text, preserveLines, sourceUnits).Ok?
    ensures var (units, sep) := UnitsOf(text, preserveLines, sourceUnits).value;
            if sourceUnits.Some? then
              && sep == "\n" && |units| == |sourceUnits.value|
              && forall i :: 0 <= i < |units| ==>
                   units[i] == Unit(sourceUnits.value[i].text, sourceUnits.value[i].TableRow?)
            else if preserveLines then sep == "\n" && OnlyMarked(units, NonBlank(Split('\n', text)), true)
            else OnlyMarked(units, SplitUnits(text).0, false) && sep == SplitUnits(text).1
  {
    hide NonBlank, SplitUnits, Join, OnlyMarked;
    MarkedOnly(NonBlank(Split('\n', text)), true);
    MarkedOnly(SplitUnits(text).0, false);
  }

  /** Rows are never cut: their chunks, joined again, are the lines that are not blank. */
  lemma PreservedLinesRejoin(sourceId: string, text: string, target: nat, overlap: nat, sha: string -> string)
    requires target > 0 && Chunked(sourceId, text, target, overlap, true, None, sha).Ok?
    ensures var r := Chunked(sourceId, text, target, overlap, true, None, sha);
            Join("\n", ChunkTexts(r.value)) == Join("\n", NonBlank(Split('\n', text)))
  {
    hide NonBlank, Join, Expand, RowsAccepted, GroupsFrom;
    ModesOfUnits(text, true, None);
    var units := UnitsOf(text, true, None).value.0;
    ExpandNothing(units, target, overlap);
    ChunksRejoin(sourceId, units, "\n", target, overlap, sha);
  }
}
