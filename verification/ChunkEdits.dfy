/**
 What an edit of one unit does to the chunks of a document: exactly when it stays in its own chunk.
 */
module ChunkEdits {
  import opened Outcomes
  import opened Text
  import opened Chunking
  import opened SourceChunks

  // ----- where the boundaries stay ----------------------------------------------------------

  /** Weights that agree everywhere but at one unit. */
  predicate AgreeBut(x: Weights, y: Weights, k: nat) {
    k < |x| == |y| && forall j :: 0 <= j < |x| && j != k ==> x[j] == y[j]
  }

  /** The g-th group from `i` is [a, b), and the one before it starts at `prev`; `prev == a` when there is none. */
  predicate GroupIs(ws: Weights, target: nat, i: nat, g: nat, prev: nat, a: nat, b: nat) {
    && i <= prev <= a < b <= |ws| && g < |Cuts(ws, target, i)|
    && a == GroupStart(ws, target, i, g) && b == Cuts(ws, target, i)[g]
    && prev == if g == 0 then a else GroupStart(ws, target, i, g - 1)
  }

  /**
   The slack a new weight must respect: the group of two or more units still fits its target, the next
   unit still does not fit in, and a unit that starts its group still does not fit in the one before.
   */
  predicate Slack(ws: Weights, target: nat, prev: nat, a: nat, b: nat, k: nat, weight: nat)
    requires prev <= a <= k < b <= |ws|
  {
    var sum := Sum(ws, a, b) - ws[k] + weight;
    && (b - a >= 2 ==> sum <= target)
    && (b < |ws| ==> sum + ws[b] > target)
    && (k == a && prev < a ==> Sum(ws, prev, a) + weight > target)
  }

  /** A greedy group ends where it fits and the next unit does not. */
  lemma {:induction false} ExtendEnds(ws: Weights, target: nat, i: nat, k: nat, b: nat)
    requires i < k <= b <= |ws| && GroupOk(ws, target, i, k)
    ensures Extend(ws, target, k, Sum(ws, i, k)) == b <==>
            GroupOk(ws, target, i, b) && (b < |ws| ==> Sum(ws, i, b) + ws[b] > target)
    decreases |ws| - k
  {
    if k < |ws| {
      SumSplit(ws, i, k, b);
      if k < b { SumSplit(ws, i, k + 1, b); }
      if Sum(ws, i, k) + ws[k] <= target && k < b {
        ExtendEnds(ws, target, i, k + 1, b);
      }
    }
  }

  lemma EndsIff(ws: Weights, target: nat, a: nat, b: nat)
    requires a < b <= |ws|
    ensures GroupEnd(ws, target, a) == b <==> GroupOk(ws, target, a, b) && (b < |ws| ==> Sum(ws, a, b) + ws[b] > target)
  {
    assert Sum(ws, a, a + 1) == Sum(ws, a, a) + ws[a];
    ExtendEnds(ws, target, a, a + 1, b);
  }

  lemma {:induction false} SumButOne(x: Weights, y: Weights, k: nat, a: nat, b: nat)
    requires AgreeBut(x, y, k) && a <= b <= |x|
    ensures Sum(y, a, b) == if a <= k < b then Sum(x, a, b) - x[k] + y[k] else Sum(x, a, b)
  {
    if a < b { SumButOne(x, y, k, a, b - 1); }
  }

  /** Past the edited unit nothing differs. */
  lemma CutsAfter(x: Weights, y: Weights, target: nat, k: nat, i: nat)
    requires AgreeBut(x, y, k) && k < i <= |x|
    ensures Cuts(x, target, i) == Cuts(y, target, i)
    decreases |x| - i
  {
    if i < |x| {
      var e := GroupEnd(x, target, i);
      EndsIff(x, target, i, e);
      EndsIff(y, target, i, e);
      SumButOne(x, y, k, i, e);
      CutsAfter(x, y, target, k, e);
    }
  }

  /** The first group from `i`, when the edited unit lies in a later one. */
  lemma FirstEndKept(x: Weights, y: Weights, target: nat, i: nat, k: nat)
    requires AgreeBut(x, y, k) && i < |x| && GroupEnd(x, target, i) <= k
    ensures var e := GroupEnd(x, target, i);
            GroupEnd(y, target, i) == e <==> (k == e ==> Sum(x, i, e) + y[k] > target)
  {
    hide GroupEnd;
    var e := GroupEnd(x, target, i);
    EndsIff(x, target, i, e);
    EndsIff(y, target, i, e);
    SumButOne(x, y, k, i, e);
  }

  lemma OwnEndKept(x: Weights, y: Weights, target: nat, a: nat, k: nat)
    requires AgreeBut(x, y, k) && a <= k < GroupEnd(x, target, a)
    ensures var b := GroupEnd(x, target, a);
            GroupEnd(y, target, a) == b <==> Slack(x, target, a, a, b, k, y[k])
  {
    hide GroupEnd;
    var b := GroupEnd(x, target, a);
    EndsIff(y, target, a, b);
    SumButOne(x, y, k, a, b);
  }

  lemma NextGroup(ws: Weights, target: nat, i: nat, g: nat, prev: nat, a: nat, b: nat)
    requires GroupIs(ws, target, i, g, prev, a, b) && g > 0
    ensures var e := GroupEnd(ws, target, i);
            e <= a && GroupIs(ws, target, e, g - 1, if g == 1 then a else prev, a, b)
    ensures g == 1 ==> prev == i && a == GroupEnd(ws, target, i)
    ensures g > 1 ==> GroupEnd(ws, target, i) <= prev < a
  {
    var e := GroupEnd(ws, target, i);
    if g > 1 {
      GroupRespectsTarget(ws, target, e, g - 2);
      GroupRespectsTarget(ws, target, e, g - 1);
    }
  }

  /** Two lists of boundaries are equal when their first ones and their rests are. */
  lemma CutsByHead(x: Weights, y: Weights, target: nat, i: nat)
    requires |x| == |y| && i < |x|
    ensures Cuts(x, target, i) == Cuts(y, target, i) <==>
            GroupEnd(x, target, i) == GroupEnd(y, target, i)
            && Cuts(x, target, GroupEnd(x, target, i)) == Cuts(y, target, GroupEnd(x, target, i))
  {
    hide GroupEnd;
    var c, d := Cuts(x, target, i), Cuts(y, target, i);
    assert c[0] == GroupEnd(x, target, i) && c[1..] == Cuts(x, target, c[0]);
    assert d[0] == GroupEnd(y, target, i) && d[1..] == Cuts(y, target, d[0]);
    if c[0] == d[0] && c[1..] == d[1..] {
      assert c == [c[0]] + c[1..] && d == [d[0]] + d[1..];
    }
  }

  lemma GroupIsOrdered(ws: Weights, target: nat, i: nat, g: nat, prev: nat, a: nat, b: nat)
    requires GroupIs(ws, target, i, g, prev, a, b)
    ensures i <= prev <= a < b <= |ws|
    ensures g == 0 ==> i == prev == a && b == GroupEnd(ws, target, i)
  {
  }

  /** All boundaries stay exactly when the new weight respects the slack of its own group and the one before. */
  lemma {:induction false} CutsKeptIff(x: Weights, y: Weights, target: nat, i: nat, k: nat,
                                       g: nat, prev: nat, a: nat, b: nat)
    requires AgreeBut(x, y, k) && GroupIs(x, target, i, g, prev, a, b) && a <= k < b
    ensures Cuts(x, target, i) == Cuts(y, target, i) <==> Slack(x, target, prev, a, b, k, y[k])
    decreases g
  {
    hide GroupEnd, Sum, Cuts, GroupIs;
    GroupIsOrdered(x, target, i, g, prev, a, b);
    CutsByHead(x, y, target, i);
    var e := GroupEnd(x, target, i);
    if g == 0 {
      OwnEndKept(x, y, target, a, k);
      CutsAfter(x, y, target, k, e);
    } else {
      NextGroup(x, target, i, g, prev, a, b);
      FirstEndKept(x, y, target, i, k);
      CutsKeptIff(x, y, target, e, k, g - 1, if g == 1 then a else prev, a, b);
    }
  }

  /** The group that holds a unit. */
  lemma {:induction false} Locate(ws: Weights, target: nat, i: nat, k: nat) returns (g: nat, prev: nat, a: nat, b: nat)
    requires i <= k < |ws|
    ensures GroupIs(ws, target, i, g, prev, a, b) && a <= k < b
    decreases |ws| - i
  {
    var e := GroupEnd(ws, target, i);
    if k < e {
      g, prev, a, b := 0, i, i, e;
    } else {
      g, prev, a, b := Locate(ws, target, e, k);
      if g == 0 { prev := i; }
      g := g + 1;
    }
  }

  /** An expanded document with one unit replaced. */
  lemma ExpandReplaced(u: seq<Unit>, v: seq<Unit>, k: nat, target: nat, overlap: nat)
    requires target > 0 && k < |u| == |v| && !Oversized(u[k], target) && !Oversized(v[k], target)
    requires u[..k] == v[..k] && u[k + 1..] == v[k + 1..]
    ensures var a, b := Expand(u[..k], target, overlap), Expand(u[k + 1..], target, overlap);
            Expand(u, target, overlap) == a + [u[k]] + b && Expand(v, target, overlap) == a + [v[k]] + b
  {
    hide Oversized;
    ExpandAround(u, k, target, overlap);
    ExpandAround(v, k, target, overlap);
  }

  lemma ExpandAround(u: seq<Unit>, k: nat, target: nat, overlap: nat)
    requires target > 0 && k < |u| && !Oversized(u[k], target)
    ensures Expand(u, target, overlap) == Expand(u[..k], target, overlap) + [u[k]] + Expand(u[k + 1..], target, overlap)
  {
    hide Oversized;
    assert u == u[..k] + [u[k]] + u[k + 1..];
    ExpandAppend(u[..k] + [u[k]], u[k + 1..], target, overlap);
    ExpandAppend(u[..k], [u[k]], target, overlap);
    ExpandOne(u[k], target, overlap);
  }

  lemma {:induction false} CutsAscend(ws: Weights, target: nat, i: nat, g: nat, h: nat)
    requires i <= |ws| && g < h < |Cuts(ws, target, i)|
    ensures Cuts(ws, target, i)[g] < Cuts(ws, target, i)[h]
    decreases |ws| - i
  {
    hide GroupEnd;
    var e := GroupEnd(ws, target, i);
    if g > 0 {
      CutsAscend(ws, target, e, g - 1, h - 1);
    } else {
      GroupRespectsTarget(ws, target, e, h - 1);
      if h > 1 { CutsAscend(ws, target, e, 0, h - 1); GroupRespectsTarget(ws, target, e, 0); }
    }
  }

  lemma OneGroupHolds(ws: Weights, target: nat, g: nat, h: nat, p: nat)
    requires g < |Cuts(ws, target, 0)| && h < |Cuts(ws, target, 0)| && g != h
    requires GroupStart(ws, target, 0, g) <= p < Cuts(ws, target, 0)[g]
    ensures !(GroupStart(ws, target, 0, h) <= p < Cuts(ws, target, 0)[h])
  {
    hide Cuts;
    if g < h {
      if g < h - 1 { CutsAscend(ws, target, 0, g, h - 1); }
    } else if h < g - 1 {
      CutsAscend(ws, target, 0, h, g - 1);
    }
  }

  // ----- where the chunks stay --------------------------------------------------------------

  /** Units that agree everywhere but at one place. */
  predicate Replaced(x: seq<Unit>, y: seq<Unit>, k: nat) {
    k < |x| == |y| && x[..k] == y[..k] && x[k + 1..] == y[k + 1..]
  }

  lemma OtherSame(x: seq<Unit>, y: seq<Unit>, k: nat, j: nat)
    requires Replaced(x, y, k) && j < |x| && j != k
    ensures x[j] == y[j]
  {
    if j < k {
      assert x[j] == x[..k][j] == y[..k][j] == y[j];
    } else {
      assert x[j] == x[k + 1..][j - k - 1] == y[k + 1..][j - k - 1] == y[j];
    }
  }

  lemma OthersSame(x: seq<Unit>, y: seq<Unit>, k: nat, a: nat, b: nat)
    requires Replaced(x, y, k) && a <= b <= |x| && !(a <= k < b)
    ensures x[a..b] == y[a..b]
  {
    hide Replaced;
    assert |x| == |y| by { SameLength(x, y, k); }
    forall i | 0 <= i < b - a
      ensures x[a..b][i] == y[a..b][i]
    {
      OtherSame(x, y, k, a + i);
    }
  }

  lemma SameLength(x: seq<Unit>, y: seq<Unit>, k: nat)
    requires Replaced(x, y, k)
    ensures k < |x| == |y|
  {
  }

  lemma WeightsAgree(x: seq<Unit>, y: seq<Unit>, k: nat)
    requires Replaced(x, y, k)
    ensures AgreeBut(WeightsOf(x), WeightsOf(y), k)
  {
    hide Weight, Replaced;
    SameLength(x, y, k);
    forall j | 0 <= j < |x| && j != k
      ensures x[j] == y[j]
    {
      OtherSame(x, y, k, j);
    }
  }

  /** As many texts, and the same in every place but the g-th. */
  predicate OthersKept(before: seq<string>, after: seq<string>, g: nat) {
    |before| == |after| && forall h :: 0 <= h < |before| && h != g ==> before[h] == after[h]
  }

  /** The texts before the g-th in their places, and those after it at the end: whatever became of the g-th itself. */
  predicate KeptAround(before: seq<string>, after: seq<string>, g: nat) {
    && g < |before| <= |after| + 1
    && (forall h :: 0 <= h < g ==> before[h] == after[h])
    && (forall h :: g < h < |before| ==> before[h] == after[|after| - |before| + h])
  }

  lemma JoinLonger(sep: string, a: seq<string>, b: seq<string>)
    requires sep != "" && a != [] && b != []
    ensures |Join(sep, a + b)| > |Join(sep, a)| && |Join(sep, a + b)| > |Join(sep, b)|
  {
    JoinAppend(sep, a, b);
  }

  lemma LongerRun(units: seq<Unit>, sep: string, a: nat, m: nat, b: nat)
    requires sep != "" && a < m < b <= |units|
    ensures |Join(sep, Texts(units[a..m]))| < |Join(sep, Texts(units[a..b]))|
    ensures |Join(sep, Texts(units[m..b]))| < |Join(sep, Texts(units[a..b]))|
  {
    hide Join;
    assert Texts(units[a..b]) == Texts(units[a..m]) + Texts(units[m..b]);
    JoinLonger(sep, Texts(units[a..m]), Texts(units[m..b]));
  }

  /** Groups with equal texts come from runs of equal length of text. */
  lemma SameGroupTexts(x: seq<Unit>, y: seq<Unit>, sep: string, target: nat, e: nat, f: nat)
    requires e <= |x| && f <= |y|
    requires GroupTexts(GroupsFrom(x, sep, target, e)) == GroupTexts(GroupsFrom(y, sep, target, f))
    ensures Join(sep, Texts(x[e..])) == Join(sep, Texts(y[f..]))
    ensures e < |x| <==> f < |y|
  {
    hide Weight, Join, GroupOf, GroupsFrom;
    GroupsRejoin(x, sep, target, e);
    GroupsRejoin(y, sep, target, f);
    SomeGroupsLeft(x, sep, target, e);
    SomeGroupsLeft(y, sep, target, f);
    assert |GroupTexts(GroupsFrom(x, sep, target, e))| == |GroupTexts(GroupsFrom(y, sep, target, f))|;
  }

  /** If everything after the edited group reads the same, that group still ends where it did. */
  lemma OwnEndForced(x: seq<Unit>, y: seq<Unit>, k: nat, sep: string, target: nat, e: nat, f: nat)
    requires Replaced(x, y, k) && sep != "" && k < e <= |x| && f <= |y|
    requires GroupTexts(GroupsFrom(x, sep, target, e)) == GroupTexts(GroupsFrom(y, sep, target, f))
    ensures e == f
  {
    hide Join, GroupsFrom, Weight;
    SameGroupTexts(x, y, sep, target, e, f);
    if e != f {
      OthersSame(x, y, k, e, |x|);
      assert x[e..|x|] == x[e..] && y[e..|y|] == y[e..] && y[f..|y|] == y[f..];
      if f < e {
        LongerRun(y, sep, f, e, |y|);
      } else {
        OthersSame(x, y, k, f, |x|);
        assert x[f..|x|] == x[f..];
        LongerRun(x, sep, e, f, |x|);
      }
      assert false;
    }
  }

  /** If a group before the edited unit reads the same, it still ends where it did. */
  lemma EarlierEndForced(x: seq<Unit>, y: seq<Unit>, k: nat, sep: string, i: nat, e: nat, f: nat)
    requires Replaced(x, y, k) && sep != "" && i < e <= k && i < f <= |y|
    requires Join(sep, Texts(x[i..e])) == Join(sep, Texts(y[i..f]))
    ensures e == f
  {
    hide Join, Weight;
    OthersSame(x, y, k, i, e);
    if f < e { LongerRun(y, sep, i, f, e); }
    if e < f { LongerRun(y, sep, i, e, f); }
  }

  lemma {:induction false} KeptMeansSameCuts(x: seq<Unit>, y: seq<Unit>, k: nat, sep: string, target: nat, i: nat,
                                             g: nat, prev: nat, a: nat, b: nat)
    requires Replaced(x, y, k) && sep != "" && a <= k < b && GroupIs(WeightsOf(x), target, i, g, prev, a, b)
    requires OthersKept(GroupTexts(GroupsFrom(x, sep, target, i)), GroupTexts(GroupsFrom(y, sep, target, i)), g)
    ensures Cuts(WeightsOf(x), target, i) == Cuts(WeightsOf(y), target, i)
    decreases g
  {
    hide Weight, Join, GroupsFrom, GroupIs, Cuts, AnyAtomic, Replaced, GroupEnd, OthersKept, GroupTexts;
    var wx, wy := WeightsOf(x), WeightsOf(y);
    SameLength(x, y, k);
    WeightsAgree(x, y, k);
    GroupIsOrdered(wx, target, i, g, prev, a, b);
    var e, f := GroupEnd(wx, target, i), GroupEnd(wy, target, i);
    CutsByHead(wx, wy, target, i);
    TextsByHead(x, sep, target, i);
    TextsByHead(y, sep, target, i);
    KeptByHead(Join(sep, Texts(x[i..e])), GroupTexts(GroupsFrom(x, sep, target, e)),
               Join(sep, Texts(y[i..f])), GroupTexts(GroupsFrom(y, sep, target, f)), g);
    if g == 0 {
      OwnEndForced(x, y, k, sep, target, e, f);
      CutsAfter(wx, wy, target, k, e);
    } else {
      NextGroup(wx, target, i, g, prev, a, b);
      EarlierEndForced(x, y, k, sep, i, e, f);
      KeptMeansSameCuts(x, y, k, sep, target, e, g - 1, if g == 1 then a else prev, a, b);
    }
  }

  lemma TextsByHead(units: seq<Unit>, sep: string, target: nat, i: nat)
    requires i < |units|
    ensures var e := GroupEnd(WeightsOf(units), target, i);
            GroupTexts(GroupsFrom(units, sep, target, i)) ==
            [Join(sep, Texts(units[i..e]))] + GroupTexts(GroupsFrom(units, sep, target, e))
  {
    hide Weight, Join, GroupsFrom, AnyAtomic, GroupEnd;
    GroupsByHead(units, sep, target, i);
  }

  lemma KeptByHead(x: string, restX: seq<string>, y: string, restY: seq<string>, g: nat)
    ensures OthersKept([x] + restX, [y] + restY, g) <==>
            if g == 0 then restX == restY else x == y && OthersKept(restX, restY, g - 1)
  {
    var before, after := [x] + restX, [y] + restY;
    assert before[0] == x && after[0] == y;
    assert forall h :: 0 <= h < |restX| ==> before[h + 1] == restX[h];
    assert forall h :: 0 <= h < |restY| ==> after[h + 1] == restY[h];
    if OthersKept(before, after, g) {
      forall h | 0 <= h < |restX|
        ensures g == 0 || h != g - 1 ==> restX[h] == restY[h]
      {
        assert h + 1 != g ==> before[h + 1] == after[h + 1];
      }
    }
  }

  /** Equal boundaries leave every group alone but the one that holds the unit. */
  lemma SameCutsKeep(x: seq<Unit>, y: seq<Unit>, k: nat, sep: string, target: nat, g: nat, h: nat)
    requires Replaced(x, y, k) && Cuts(WeightsOf(x), target, 0) == Cuts(WeightsOf(y), target, 0)
    requires g < |Cuts(WeightsOf(x), target, 0)|
    requires GroupStart(WeightsOf(x), target, 0, g) <= k < Cuts(WeightsOf(x), target, 0)[g]
    ensures |GroupsFrom(x, sep, target, 0)| == |GroupsFrom(y, sep, target, 0)| == |Cuts(WeightsOf(x), target, 0)|
    ensures h < |GroupsFrom(x, sep, target, 0)| && h != g ==>
              GroupsFrom(x, sep, target, 0)[h] == GroupsFrom(y, sep, target, 0)[h]
  {
    hide Weight, GroupOf, GroupsFrom, Cuts, Replaced;
    GroupCount(x, sep, target, 0);
    GroupCount(y, sep, target, 0);
    if h < |GroupsFrom(x, sep, target, 0)| && h != g {
      GroupAt(x, sep, target, 0, h);
      GroupAt(y, sep, target, 0, h);
      OneGroupHolds(WeightsOf(x), target, g, h, k);
      OthersSame(x, y, k, GroupStart(WeightsOf(x), target, 0, h), Cuts(WeightsOf(x), target, 0)[h]);
    }
  }

  /** One unit replaced: the other groups keep their texts exactly when its new weight respects the slack. */
  lemma GroupsKeptIff(x: seq<Unit>, y: seq<Unit>, k: nat, sep: string, target: nat, g: nat, prev: nat, a: nat, b: nat)
    requires Replaced(x, y, k) && sep != "" && GroupIs(WeightsOf(x), target, 0, g, prev, a, b) && a <= k < b
    ensures var before, after := GroupsFrom(x, sep, target, 0), GroupsFrom(y, sep, target, 0);
            var slack := Slack(WeightsOf(x), target, prev, a, b, k, Weight(y[k]));
            && (OthersKept(GroupTexts(before), GroupTexts(after), g) <==> slack)
            && (slack ==> |before| == |after| && forall h :: 0 <= h < |before| && h != g ==> before[h] == after[h])
  {
    hide Weight, GroupsFrom, Slack, Replaced, Cuts, Sum;
    WeightsAgree(x, y, k);
    CutsKeptIff(WeightsOf(x), WeightsOf(y), target, 0, k, g, prev, a, b);
    var before, after := GroupsFrom(x, sep, target, 0), GroupsFrom(y, sep, target, 0);
    if Cuts(WeightsOf(x), target, 0) == Cuts(WeightsOf(y), target, 0) {
      SameCutsKeep(x, y, k, sep, target, g, g);
      forall h | 0 <= h < |before| && h != g
        ensures before[h] == after[h]
      {
        SameCutsKeep(x, y, k, sep, target, g, h);
      }
    } else if OthersKept(GroupTexts(before), GroupTexts(after), g) {
      KeptMeansSameCuts(x, y, k, sep, target, 0, g, prev, a, b);
    }
  }

  // ----- where the other texts stay, wherever they are --------------------------------------

  /**
   The room a new weight must leave: a unit that starts its group still does not fit in the one before, and the end
   of its group is still a boundary, whatever new ones come before it.
   */
  predicate Room(ws: Weights, target: nat, prev: nat, a: nat, b: nat, k: nat, weight: nat)
    requires prev <= a <= k < b <= |ws|
  {
    && (k == a && prev < a ==> Sum(ws, prev, a) + weight > target)
    && b in Cuts(ws[k := weight], target, a)
  }

  lemma AroundTail(before: seq<string>, after: seq<string>, g: nat)
    requires 0 < g && after != [] && KeptAround(before, after, g)
    ensures before[0] == after[0] && KeptAround(before[1..], after[1..], g - 1)
  {
    forall h | 0 <= h < g - 1
      ensures before[1..][h] == after[1..][h]
    {
      assert before[h + 1] == after[h + 1];
    }
    var d := |after| - |before|;
    forall h | g - 1 < h < |before| - 1
      ensures before[1..][h] == after[1..][d + h]
    {
      assert before[h + 1] == after[d + (h + 1)];
    }
  }

  lemma AroundCons(before: seq<string>, after: seq<string>, g: nat)
    requires 0 < g && before != [] && after != [] && before[0] == after[0] && KeptAround(before[1..], after[1..], g - 1)
    ensures KeptAround(before, after, g)
  {
    forall h | 0 < h < g
      ensures before[h] == after[h]
    {
      assert before[1..][h - 1] == after[1..][h - 1];
    }
    var d := |after| - |before|;
    forall h | g < h < |before|
      ensures before[h] == after[d + h]
    {
      assert before[1..][h - 1] == after[1..][d + (h - 1)];
    }
  }

  lemma AroundByHead(x: string, restX: seq<string>, y: string, restY: seq<string>, g: nat)
    requires g > 0
    ensures KeptAround([x] + restX, [y] + restY, g) <==> x == y && KeptAround(restX, restY, g - 1)
  {
    hide KeptAround;
    var before, after := [x] + restX, [y] + restY;
    assert before[0] == x && after[0] == y && before[1..] == restX && after[1..] == restY;
    if KeptAround(before, after, g) {
      AroundTail(before, after, g);
    }
    if x == y && KeptAround(restX, restY, g - 1) {
      AroundCons(before, after, g);
    }
  }

  /** When the first text may change, the others are the end of what comes after. */
  lemma AroundFirst(x: string, rest: seq<string>, after: seq<string>)
    ensures KeptAround([x] + rest, after, 0) <==> |rest| <= |after| && after[|after| - |rest|..] == rest
  {
    var before := [x] + rest;
    if |rest| <= |after| {
      var d := |after| - |rest|;
      var end := after[d..];
      assert |end| == |rest| && |after| - |before| == d - 1;
      if KeptAround(before, after, 0) {
        forall h | 0 <= h < |rest|
          ensures end[h] == rest[h]
        {
          assert before[h + 1] == after[d - 1 + (h + 1)];
        }
      } else {
        assert exists h :: 0 < h < |before| && before[h] != after[d - 1 + h];
        var h :| 0 < h < |before| && before[h] != after[d - 1 + h];
        assert rest[h - 1] != end[h - 1];
      }
    }
  }

  /** Where the groups start again after the first `t`. */
  function Resume(ws: Weights, target: nat, i: nat, t: nat): (j: nat)
    requires i <= |ws| && t <= |Cuts(ws, target, i)|
  {
    if t == 0 then i else Cuts(ws, target, i)[t - 1]
  }

  lemma {:induction false} TextsTail(units: seq<Unit>, sep: string, target: nat, i: nat, t: nat)
    requires i <= |units| && t <= |Cuts(WeightsOf(units), target, i)|
    ensures var j := Resume(WeightsOf(units), target, i, t);
            var all := GroupTexts(GroupsFrom(units, sep, target, i));
            && i <= j <= |units| && (t > 0 ==> i < j)
            && |all| == |Cuts(WeightsOf(units), target, i)|
            && all[t..] == GroupTexts(GroupsFrom(units, sep, target, j))
    decreases t
  {
    hide Weight, Join, GroupsFrom, GroupEnd, GroupTexts;
    GroupCount(units, sep, target, i);
    TextsLength(units, sep, target, i);
    var all := GroupTexts(GroupsFrom(units, sep, target, i));
    if t == 0 {
      assert all[0..] == all;
    } else {
      var ws, e := WeightsOf(units), GroupEnd(WeightsOf(units), target, i);
      TextsByHead(units, sep, target, i);
      TextsTail(units, sep, target, e, t - 1);
      assert all[t..] == all[1..][t - 1..] && all[1..] == GroupTexts(GroupsFrom(units, sep, target, e));
    }
  }

  lemma TextsLength(units: seq<Unit>, sep: string, target: nat, i: nat)
    requires i <= |units|
    ensures |GroupTexts(GroupsFrom(units, sep, target, i))| == |GroupsFrom(units, sep, target, i)|
  {
  }

  /** The group that holds the unit: the later texts stay exactly when its end is still a boundary. */
  lemma OwnAroundIff(x: seq<Unit>, y: seq<Unit>, k: nat, sep: string, target: nat, a: nat)
    requires Replaced(x, y, k) && sep != "" && k < |x| == |y| && a <= k < GroupEnd(WeightsOf(x), target, a)
    ensures KeptAround(GroupTexts(GroupsFrom(x, sep, target, a)), GroupTexts(GroupsFrom(y, sep, target, a)), 0) <==>
            GroupEnd(WeightsOf(x), target, a) in Cuts(WeightsOf(y), target, a)
  {
    hide Weight, Join, GroupsFrom, GroupEnd, GroupTexts, Replaced, Cuts, KeptAround;
    var b, cuts := GroupEnd(WeightsOf(x), target, a), Cuts(WeightsOf(y), target, a);
    var rest, after := GroupTexts(GroupsFrom(x, sep, target, b)), GroupTexts(GroupsFrom(y, sep, target, a));
    TextsByHead(x, sep, target, a);
    AroundFirst(Join(sep, Texts(x[a..b])), rest, after);
    TextsTail(y, sep, target, a, 0);
    if |rest| <= |after| && after[|after| - |rest|..] == rest {
      var t := |after| - |rest|;
      TextsTail(y, sep, target, a, t);
      OwnEndForced(x, y, k, sep, target, b, Resume(WeightsOf(y), target, a, t));
    }
    if b in cuts {
      var h :| 0 <= h < |cuts| && cuts[h] == b;
      TextsTail(y, sep, target, a, h + 1);
      OthersSame(x, y, k, b, |x|);
      assert x[b..|x|] == x[b..] && y[b..|y|] == y[b..];
      SuffixDetermines(x, b, y, b, sep, target);
      assert |after[h + 1..]| == |after| - (h + 1) == |rest|;
    }
  }

  /** The texts before the edited unit's group in their places, and those after it at the end, exactly when there is room. */
  lemma {:induction false} AroundIff(x: seq<Unit>, y: seq<Unit>, k: nat, sep: string, target: nat, i: nat,
                                     g: nat, prev: nat, a: nat, b: nat)
    requires Replaced(x, y, k) && sep != "" && a <= k < b && GroupIs(WeightsOf(x), target, i, g, prev, a, b)
    ensures KeptAround(GroupTexts(GroupsFrom(x, sep, target, i)), GroupTexts(GroupsFrom(y, sep, target, i)), g) <==>
            Room(WeightsOf(x), target, prev, a, b, k, Weight(y[k]))
    decreases g
  {
    hide Weight, Join, GroupsFrom, GroupIs, Cuts, AnyAtomic, Replaced, GroupEnd, KeptAround, GroupTexts, Sum;
    var wx, wy := WeightsOf(x), WeightsOf(y);
    SameLength(x, y, k);
    WeightsAgree(x, y, k);
    assert wx[k := Weight(y[k])] == wy;
    GroupIsOrdered(wx, target, i, g, prev, a, b);
    if g == 0 {
      OwnAroundIff(x, y, k, sep, target, a);
    } else {
      var e, f := GroupEnd(wx, target, i), GroupEnd(wy, target, i);
      NextGroup(wx, target, i, g, prev, a, b);
      FirstEndKept(wx, wy, target, i, k);
      TextsByHead(x, sep, target, i);
      TextsByHead(y, sep, target, i);
      AroundByHead(Join(sep, Texts(x[i..e])), GroupTexts(GroupsFrom(x, sep, target, e)),
                   Join(sep, Texts(y[i..f])), GroupTexts(GroupsFrom(y, sep, target, f)), g);
      if e == f {
        OthersSame(x, y, k, i, e);
        AroundIff(x, y, k, sep, target, e, g - 1, if g == 1 then a else prev, a, b);
      } else if Join(sep, Texts(x[i..e])) == Join(sep, Texts(y[i..f])) {
        EarlierEndForced(x, y, k, sep, i, e, f);
      }
    }
  }

  // ----- whole documents --------------------------------------------------------------------

  lemma ReplacedAt(front: seq<Unit>, x: Unit, y: Unit, back: seq<Unit>)
    ensures Replaced(front + [x] + back, front + [y] + back, |front|)
    ensures (front + [x] + back)[|front|] == x && (front + [y] + back)[|front|] == y
  {
    var u, v := front + [x] + back, front + [y] + back;
    assert u[..|front|] == front == v[..|front|];
    assert u[|front| + 1..] == back == v[|front| + 1..];
  }

  /** As many chunks, and every one but the g-th the same in id, ordinal, text, estimate and digest. */
  predicate OtherChunksKept(before: seq<Chunk>, after: seq<Chunk>, g: nat) {
    |before| == |after| && forall h :: 0 <= h < |before| && h != g ==> before[h] == after[h]
  }

  /**
   The locality of an edit, exactly. One unit of a document is replaced, neither the old nor the new oversized:
   [a, b) is its group among the expanded units, the g-th, and the group before it starts at `prev`. Every other
   chunk keeps its text if and only if the new weight leaves room; every other chunk keeps its number, id and ordinal
   as well if and only if it respects the slack.
   */
  lemma EditIsLocalIff(sourceId: string, u: seq<Unit>, v: seq<Unit>, k: nat, sep: string, target: nat, overlap: nat,
                       sha: string -> string)
    returns (p: nat, g: nat, prev: nat, a: nat, b: nat)
    requires target > 0 && sep != "" && Replaced(u, v, k)
    requires !Oversized(u[k], target) && !Oversized(v[k], target)
    ensures var units := Expand(u, target, overlap);
            && p == |Expand(u[..k], target, overlap)| && p < |units| && units[p] == u[k]
            && GroupIs(WeightsOf(units), target, 0, g, prev, a, b) && a <= p < b
    ensures var ws := WeightsOf(Expand(u, target, overlap));
            var before := ChunksOf(sourceId, GroupsOf(u, sep, target, overlap), sha);
            var after := ChunksOf(sourceId, GroupsOf(v, sep, target, overlap), sha);
            && prev <= a && b <= |ws|
            && (KeptAround(ChunkTexts(before), ChunkTexts(after), g) <==> Room(ws, target, prev, a, b, p, Weight(v[k])))
            && (OtherChunksKept(before, after, g) <==> Slack(ws, target, prev, a, b, p, Weight(v[k])))
  {
    hide Expand, Weight, Oversized, GroupsFrom, Cuts, GroupIs, Slack, Room, KeptAround, ChunkOf, OtherChunksKept;
    ExpandReplaced(u, v, k, target, overlap);
    var x, y := Expand(u, target, overlap), Expand(v, target, overlap);
    p := |Expand(u[..k], target, overlap)|;
    ReplacedAt(Expand(u[..k], target, overlap), u[k], v[k], Expand(u[k + 1..], target, overlap));
    g, prev, a, b := Locate(WeightsOf(x), target, 0, p);
    GroupIsOrdered(WeightsOf(x), target, 0, g, prev, a, b);
    GroupsKeptIff(x, y, p, sep, target, g, prev, a, b);
    AroundIff(x, y, p, sep, target, 0, g, prev, a, b);
    ChunksLikeGroups(sourceId, GroupsFrom(x, sep, target, 0), GroupsFrom(y, sep, target, 0), sha, g);
  }

  lemma ChunksLikeGroups(sourceId: string, before: seq<Group>, after: seq<Group>, sha: string -> string, g: nat)
    ensures ChunkTexts(ChunksOf(sourceId, before, sha)) == GroupTexts(before)
    ensures ChunkTexts(ChunksOf(sourceId, after, sha)) == GroupTexts(after)
    ensures OtherChunksKept(ChunksOf(sourceId, before, sha), ChunksOf(sourceId, after, sha), g) ==>
              OthersKept(GroupTexts(before), GroupTexts(after), g)
    ensures |before| == |after| && (forall h :: 0 <= h < |before| && h != g ==> before[h] == after[h]) ==>
              OtherChunksKept(ChunksOf(sourceId, before, sha), ChunksOf(sourceId, after, sha), g)
  {
    hide TokenEstimate, IdPrefix, Padded, First10;
    var x, y := ChunksOf(sourceId, before, sha), ChunksOf(sourceId, after, sha);
    assert forall h :: 0 <= h < |before| ==> x[h].text == before[h].text;
    assert forall h :: 0 <= h < |after| ==> y[h].text == after[h].text;
  }

  /** Equal weight is enough, whatever the slack. */
  lemma EqualWeightHasSlack(ws: Weights, target: nat, i: nat, g: nat, prev: nat, a: nat, b: nat, k: nat)
    requires GroupIs(ws, target, i, g, prev, a, b) && a <= k < b
    ensures i <= prev <= a && b <= |ws| && Slack(ws, target, prev, a, b, k, ws[k])
  {
    hide Slack, Cuts, GroupIs;
    GroupIsOrdered(ws, target, i, g, prev, a, b);
    assert AgreeBut(ws, ws, k);
    CutsKeptIff(ws, ws, target, i, k, g, prev, a, b);
  }

  /** So a unit replaced by one of equal weight changes its own chunk at most. */
  lemma EditStaysLocal(sourceId: string, u: seq<Unit>, v: seq<Unit>, k: nat, sep: string, target: nat, overlap: nat,
                       sha: string -> string)
    returns (changed: nat)
    requires target > 0 && sep != "" && Replaced(u, v, k)
    requires !Oversized(u[k], target) && !Oversized(v[k], target) && Weight(u[k]) == Weight(v[k])
    ensures OtherChunksKept(ChunksOf(sourceId, GroupsOf(u, sep, target, overlap), sha),
                            ChunksOf(sourceId, GroupsOf(v, sep, target, overlap), sha), changed)
  {
    hide Expand, Weight, Oversized, GroupsOf, Slack, GroupIs, ChunksOf, OtherChunksKept;
    var p, g, prev, a, b := EditIsLocalIff(sourceId, u, v, k, sep, target, overlap, sha);
    EqualWeightHasSlack(WeightsOf(Expand(u, target, overlap)), target, 0, g, prev, a, b, p);
    changed := g;
  }

  // ----- an edit that spreads, and one that does not ----------------------------------------

  /** A word of one letter, another for each paragraph. */
  function Letter(i: nat): (w: string)
    ensures IsWord(w) && |w| == 1 && w[0] as int == 'a' as int + i % 26
  {
    [('a' as int + i % 26) as char]
  }

  function Repeated(n: nat, word: string): (words: seq<string>)
    ensures |words| == n && forall i :: 0 <= i < n ==> words[i] == word
  {
    seq(n, _ => word)
  }

  /** A document whose paragraphs have these numbers of words, each paragraph a word of its own. */
  function Document(counts: seq<nat>): (r: seq<SourceUnit>)
    ensures |r| == |counts|
    ensures forall i :: 0 <= i < |counts| ==> r[i] == Paragraph(Join(" ", Repeated(counts[i], Letter(i))))
  {
    seq(|counts|, i requires 0 <= i < |counts| => Paragraph(Join(" ", Repeated(counts[i], Letter(i)))))
  }

  /** What chunking such a document gives, under a target of 80 words. */
  function DocumentChunks(sourceId: string, counts: seq<nat>, overlap: nat, sha: string -> string)
    : Result<seq<Chunk>, ChunkError>
  {
    var doc := Document(counts);
    Chunked(sourceId, Join("\n", SourceTexts(doc)), 80, overlap, false, Some(doc), sha)
  }

  lemma DocumentWeights(counts: seq<nat>, overlap: nat)
    requires |counts| <= 26 && forall i :: 0 <= i < |counts| ==> counts[i] <= Limit(80)
    ensures var units := OfSource(Document(counts));
            Expand(units, 80, overlap) == units && WeightsOf(units) == counts && RowsAccepted(units, 80)
  {
    hide Words, Join, Limit;
    var units := OfSource(Document(counts));
    forall i | 0 <= i < |units|
      ensures Words(units[i].text) == Repeated(counts[i], Letter(i))
    {
      WordsOfRepeated(counts[i], Letter(i));
    }
    ExpandNothing(units, 80, overlap);
  }

  lemma WordsOfRepeated(n: nat, word: string)
    requires IsWord(word)
    ensures Words(Join(" ", Repeated(n, word))) == Repeated(n, word)
  {
    hide Words, Join;
    WordsOfJoinedWords(Repeated(n, word));
  }

  lemma DocumentCount(sourceId: string, counts: seq<nat>, overlap: nat, sha: string -> string)
    requires |counts| <= 26 && forall i :: 0 <= i < |counts| ==> counts[i] <= Limit(80)
    ensures DocumentChunks(sourceId, counts, overlap, sha).Ok?
    ensures |DocumentChunks(sourceId, counts, overlap, sha).value| == |Cuts(counts, 80, 0)|
  {
    hide Words, Join, Limit, Expand, GroupsFrom, Cuts, RowsAccepted, ChunkOf;
    DocumentWeights(counts, overlap);
    GroupCount(OfSource(Document(counts)), "\n", 80, 0);
  }

  /** A run of paragraphs begins with the word of its first. */
  lemma RunBegins(counts: seq<nat>, a: nat, b: nat)
    requires a < b <= |counts| <= 26 && counts[a] > 0
    ensures var words := Words(GroupOf(OfSource(Document(counts))[a..b], "\n").text);
            words != [] && words[0] == Letter(a)
  {
    hide Words, Join, AllWords, Letter;
    var texts := Texts(OfSource(Document(counts))[a..b]);
    assert texts == [texts[0]] + texts[1..];
    WordsOfJoin("\n", texts);
    AllWordsOfCons(texts[0], texts[1..]);
    WordsOfRepeated(counts[a], Letter(a));
  }

  /** And so does a chunk, with the word of the paragraph it starts at. */
  lemma ChunkBegins(sourceId: string, counts: seq<nat>, overlap: nat, sha: string -> string, h: nat)
    requires |counts| <= 26 && forall i :: 0 <= i < |counts| ==> 0 < counts[i] <= Limit(80)
    requires h < |Cuts(counts, 80, 0)|
    ensures var r := DocumentChunks(sourceId, counts, overlap, sha);
            r.Ok? && |r.value| == |Cuts(counts, 80, 0)|
            && Words(r.value[h].text) != [] && Words(r.value[h].text)[0] == Letter(GroupStart(counts, 80, 0, h))
  {
    hide Words, Join, Limit, Expand, GroupsFrom, Cuts, RowsAccepted, TokenEstimate, IdPrefix, Padded, First10, GroupOf, Letter;
    DocumentCount(sourceId, counts, overlap, sha);
    DocumentWeights(counts, overlap);
    GroupAt(OfSource(Document(counts)), "\n", 80, 0, h);
    RunBegins(counts, GroupStart(counts, 80, 0, h), Cuts(counts, 80, 0)[h]);
  }

  /**
   One word more in the first of six paragraphs: three chunks become four, and the text of the second, which holds
   only paragraphs that were not edited, is in none of them.
   */
  lemma OneWordSpreads(sourceId: string, overlap: nat, sha: string -> string)
    ensures var before := DocumentChunks(sourceId, [40, 40, 40, 40, 40, 40], overlap, sha);
            var after := DocumentChunks(sourceId, [41, 40, 40, 40, 40, 40], overlap, sha);
            && before.Ok? && after.Ok? && |before.value| == 3 && |after.value| == 4
            && forall h :: 0 <= h < 4 ==> after.value[h].text != before.value[1].text
  {
    hide DocumentChunks, Cuts, Letter, Words;
    var x, y: Weights := [40, 40, 40, 40, 40, 40], [41, 40, 40, 40, 40, 40];
    CutsBefore();
    CutsAfterwards();
    ChunkBegins(sourceId, x, overlap, sha, 1);
    ChunkBegins(sourceId, y, overlap, sha, 0);
    var before, after := DocumentChunks(sourceId, x, overlap, sha).value, DocumentChunks(sourceId, y, overlap, sha).value;
    assert GroupStart(x, 80, 0, 1) == 2;
    forall h | 0 <= h < 4
      ensures after[h].text != before[1].text
    {
      ChunkBegins(sourceId, y, overlap, sha, h);
      assert GroupStart(y, 80, 0, h) == [0, 1, 3, 5][h];
      LettersDiffer(GroupStart(y, 80, 0, h));
    }
  }

  lemma LettersDiffer(s: nat)
    requires s < 26 && s != 2
    ensures Letter(s) != Letter(2)
  {
  }

  lemma CutsBefore()
    ensures Cuts([40, 40, 40, 40, 40, 40], 80, 0) == [2, 4, 6]
  {
    var x: Weights := [40, 40, 40, 40, 40, 40];
    assert GroupEnd(x, 80, 0) == 2 && GroupEnd(x, 80, 2) == 4 && GroupEnd(x, 80, 4) == 6;
    assert Cuts(x, 80, 6) == [] && Cuts(x, 80, 4) == [6] && Cuts(x, 80, 2) == [4, 6];
  }

  lemma CutsAfterwards()
    ensures Cuts([41, 40, 40, 40, 40, 40], 80, 0) == [1, 3, 5, 6]
  {
    var y: Weights := [41, 40, 40, 40, 40, 40];
    assert GroupEnd(y, 80, 0) == 1 && GroupEnd(y, 80, 1) == 3 && GroupEnd(y, 80, 3) == 5 && GroupEnd(y, 80, 5) == 6;
    assert Cuts(y, 80, 6) == [] && Cuts(y, 80, 5) == [6] && Cuts(y, 80, 3) == [5, 6] && Cuts(y, 80, 1) == [3, 5, 6];
  }

  /** Five words more in the second of four paragraphs stay within the slack of its group. */
  lemma FiveWordsStay()
    ensures GroupIs([40, 30, 40, 40], 80, 0, 0, 0, 0, 2) && Slack([40, 30, 40, 40], 80, 0, 0, 2, 1, 35)
  {
    var x: Weights := [40, 30, 40, 40];
    assert Sum(x, 0, 1) == Sum(x, 0, 0) + 40 && Sum(x, 0, 2) == Sum(x, 0, 1) + 30;
    assert GroupEnd(x, 80, 0) == 2;
    assert Cuts(x, 80, 0)[0] == 2;
  }

  /** One word more in the first of four paragraphs only splits its own chunk: there is room, and no slack. */
  lemma OwnChunkSplits()
    ensures GroupIs([40, 40, 80, 80], 80, 0, 0, 0, 0, 2)
    ensures Room([40, 40, 80, 80], 80, 0, 0, 2, 0, 41) && !Slack([40, 40, 80, 80], 80, 0, 0, 2, 0, 41)
  {
    var x, y: Weights := [40, 40, 80, 80], [41, 40, 80, 80];
    assert x[0 := 41] == y;
    assert Sum(x, 0, 1) == Sum(x, 0, 0) + 40 && Sum(x, 0, 2) == Sum(x, 0, 1) + 40;
    assert GroupEnd(x, 80, 0) == 2 && Cuts(x, 80, 0)[0] == 2;
    assert GroupEnd(y, 80, 0) == 1 && GroupEnd(y, 80, 1) == 2;
    assert Cuts(y, 80, 1)[0] == 2 && Cuts(y, 80, 0)[1] == 2;
  }
}
