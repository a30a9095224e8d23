/**
 * Classification of a request count: `pd.cut` into six right-closed bins, the 'zero'
 * override of `mark_zeros`, the `fillna('zero')` default, and the colour of each category.
 */
module Classify {
  import opened Wrappers
  import opened Records

  /** The finite bin edges. The script's last edge is `np.inf`: the top bin has no upper bound. */
  const Edges: seq<int> := [0, 20, 100, 1000, 10000, 100000]

  /** One label per bin, lowest first. */
  const Labels: seq<string> := ["1-20", "21-100", "101-1000", "1001-10000", "10001-100000", "100001+"]

  /** The reserved category for no requests, and for a count the bins do not cover. */
  const Zero: string := "zero"

  /** Every category a row can end up in. */
  const Categories: seq<string> := Labels + [Zero]

  /** Bin edges in strictly increasing order, as `pd.cut` demands of explicit bins. */
  ghost predicate Increasing(edges: seq<int>)
  {
    forall i, j :: 0 <= i < j < |edges| ==> edges[i] < edges[j]
  }

  /**
   * `m` lies in bin `i`: the bin is right-closed, `(edges[i], edges[i+1]]`; `include_lowest`
   * closes bin 0 at its floor as well; the last bin has no upper edge.
   */
  predicate InBin(edges: seq<int>, m: int, i: nat)
    requires i < |edges|
  {
    (if i == 0 then edges[0] <= m else edges[i] < m) && (i + 1 < |edges| ==> m <= edges[i + 1])
  }

  /** The bin of `m`, searching upwards from bin `i`, when `m` is known to be above bin `i`'s floor. */
  function BinFrom(edges: seq<int>, m: int, i: nat): (r: nat)
    requires Increasing(edges) && i < |edges|
    requires if i == 0 then edges[0] <= m else edges[i] < m
    ensures i <= r < |edges| && InBin(edges, m, r)
    decreases |edges| - i
  {
    if i + 1 == |edges| || m <= edges[i + 1] then i else BinFrom(edges, m, i + 1)
  }

  /** The bin `pd.cut(..., right=True, include_lowest=True)` gives `m`; `None` (NaN) below the floor. */
  function BinIndex(edges: seq<int>, m: int): (r: Option<nat>)
    requires |edges| > 0 && Increasing(edges)
    ensures r.None? <==> m < edges[0]
    ensures r.Some? ==> r.value < |edges| && InBin(edges, m, r.value)
  {
    if m < edges[0] then None else Some(BinFrom(edges, m, 0))
  }

  /** Bins do not overlap: a count lies in at most one of them. */
  lemma BinUnique(edges: seq<int>, m: int, i: nat, j: nat)
    requires Increasing(edges) && i < |edges| && j < |edges|
    requires InBin(edges, m, i) && InBin(edges, m, j)
    ensures i == j
  {
  }

  /** Binning is monotone: a larger count never falls in a lower bin. */
  lemma BinMonotone(edges: seq<int>, m1: int, m2: int)
    requires |edges| > 0 && Increasing(edges)
    requires edges[0] <= m1 <= m2
    ensures BinIndex(edges, m1).Some? && BinIndex(edges, m2).Some?
    ensures BinIndex(edges, m1).value <= BinIndex(edges, m2).value
  {
  }

  /** A count equal to a bin's upper edge falls in that bin, not the next one. */
  lemma UpperEdgeInclusive(edges: seq<int>, i: nat)
    requires Increasing(edges) && i + 1 < |edges|
    ensures BinIndex(edges, edges[i + 1]) == Some(i)
  {
    assert InBin(edges, edges[i + 1], i);
    BinUnique(edges, edges[i + 1], i, BinIndex(edges, edges[i + 1]).value);
  }

  /** `include_lowest`: a count equal to the lowest edge falls in the lowest bin. */
  lemma LowestEdgeIncluded(edges: seq<int>)
    requires |edges| > 0 && Increasing(edges)
    ensures BinIndex(edges, edges[0]) == Some(0)
  {
    assert InBin(edges, edges[0], 0);
    BinUnique(edges, edges[0], 0, BinIndex(edges, edges[0]).value);
  }

  /** The script's edges are strictly increasing, with one label per bin. */
  lemma EdgesIncreasing()
    ensures Increasing(Edges) && |Edges| == |Labels|
  {
  }

  /** The labels are distinct, and 'zero' is none of them. */
  lemma LabelsDistinct()
    ensures forall i, j :: 0 <= i < j < |Labels| ==> Labels[i] != Labels[j]
    ensures Zero !in Labels
  {
  }

  /** The bin of a non-negative count under the script's edges. */
  function BinOf(m: nat): (i: nat)
    ensures i < |Labels| && InBin(Edges, m, i)
    ensures forall j :: 0 <= j < |Labels| && InBin(Edges, m, j) ==> j == i
  {
    EdgesIncreasing();
    var i := BinIndex(Edges, m).value;
    assert forall j :: 0 <= j < |Labels| && InBin(Edges, m, j) ==> j == i by {
      forall j | 0 <= j < |Labels| && InBin(Edges, m, j) ensures j == i {
        BinUnique(Edges, m, i, j);
      }
    }
    i
  }

  /** `pd.cut` on one cell of `total_requests` with the script's edges and labels. */
  function Cut(total: Option<int>): (r: Option<string>)
    ensures r.Some? <==> total.Some? && total.value >= 0
    ensures r.Some? ==> r.value in Labels
    ensures forall i :: 0 <= i < |Labels| ==>
      (r == Some(Labels[i]) <==> total.Some? && total.value >= 0 && InBin(Edges, total.value, i))
  {
    LabelsDistinct();
    if total.Some? && total.value >= 0 then Some(Labels[BinOf(total.value)]) else None
  }

  /** `mark_zeros`: a count of exactly 0 is 'zero'; any other row keeps its bin (NaN stays NaN). */
  function MarkZeros(total: Option<int>, bin: Option<string>): (r: Option<string>)
    ensures total == Some(0) ==> r == Some(Zero)
    ensures total != Some(0) ==> r == bin
  {
    if total == Some(0) then Some(Zero) else bin
  }

  /** `fillna('zero')`. */
  function FillZero(c: Option<string>): (r: string)
    ensures c.Some? ==> r == c.value
    ensures c.None? ==> r == Zero
  {
    match c
    case Some(v) => v
    case None => Zero
  }

  /** The final `plot_category` of a row with request count `total`. */
  function PlotCategory(total: Option<int>): (r: string)
    ensures r == Zero || r in Labels
    ensures total == Some(0) || total.None? ==> r == Zero
  {
    FillZero(MarkZeros(total, Cut(total)))
  }

  /**
   * Category coverage: every row gets a category among the six labels and 'zero'; it is
   * 'zero' exactly when the count is missing or not positive, and otherwise it is the label
   * of the one bin holding the count.
   */
  lemma PlotCategoryCases(total: Option<int>)
    ensures PlotCategory(total) in Categories
    ensures PlotCategory(total) == Zero <==> total.None? || total.value <= 0
    ensures forall i :: 0 <= i < |Labels| ==>
      (PlotCategory(total) == Labels[i] <==> total.Some? && total.value > 0 && InBin(Edges, total.value, i))
  {
    EdgesIncreasing();
    LabelsDistinct();
    if total.Some? && total.value > 0 {
      var m := total.value;
      var k := BinOf(m);
      assert PlotCategory(total) == Labels[k];
      forall i | 0 <= i < |Labels|
        ensures PlotCategory(total) == Labels[i] <==> InBin(Edges, m, i)
      {
        if InBin(Edges, m, i) {
          BinUnique(Edges, m, i, k);
        }
      }
    } else {
      assert PlotCategory(total) == Zero;
    }
  }

  /** `bin_to_color`: label i gets palette colour i, and 'zero' gets light grey. */
  const BinToColor: map<string, Color> := PaletteColors[Zero := LightGrey]

  const PaletteColors: map<string, Color> := Palette(Labels)

  /**
   * `{label: cmap(i) for i, label in enumerate(labels)}`: each label is entered with its
   * position, in order, so that a later duplicate would overwrite an earlier one.
   */
  function Palette(labels: seq<string>): (r: map<string, Color>)
    ensures forall c :: c in r <==> c in labels
    ensures labels != [] ==> r[labels[|labels| - 1]] == Shade(|labels| - 1)
    decreases |labels|
  {
    if labels == [] then map[]
    else Palette(labels[..|labels| - 1])[labels[|labels| - 1] := Shade(|labels| - 1)]
  }

  /** For distinct labels, the palette has exactly the labels as keys and gives label i colour i. */
  lemma {:induction false} PaletteLookup(labels: seq<string>)
    requires forall i, j :: 0 <= i < j < |labels| ==> labels[i] != labels[j]
    ensures forall c :: c in Palette(labels) <==> c in labels
    ensures forall i :: 0 <= i < |labels| ==> Palette(labels)[labels[i]] == Shade(i)
    decreases |labels|
  {
    if labels != [] {
      var n := |labels| - 1;
      var init := labels[..n];
      PaletteLookup(init);
      assert labels == init + [labels[n]];
      forall i | 0 <= i < n ensures Palette(labels)[labels[i]] == Shade(i) {
        assert labels[i] == init[i] && labels[i] != labels[n];
      }
    }
  }

  /** `Series.map(bin_to_color)` on one category: a category with no entry maps to NaN. */
  function ColorOf(c: string): (r: Option<Color>)
    ensures r.Some? <==> c in Categories
    ensures c == Zero ==> r == Some(LightGrey)
  {
    if c in BinToColor then Some(BinToColor[c]) else None
  }

  /**
   * The colour table covers exactly the categories: label i has colour i, 'zero' has light
   * grey, and any other string has no colour.
   */
  lemma ColorTable()
    ensures forall i :: 0 <= i < |Labels| ==> ColorOf(Labels[i]) == Some(Shade(i))
    ensures ColorOf(Zero) == Some(LightGrey)
    ensures forall c :: ColorOf(c).Some? <==> c in Categories
  {
    LabelsDistinct();
    PaletteLookup(Labels);
  }

  /** After classification every row has a colour, and a 'zero' row is light grey. */
  lemma EveryCategoryColored(total: Option<int>)
    ensures ColorOf(PlotCategory(total)).Some?
    ensures total == Some(0) || total.None? ==> ColorOf(PlotCategory(total)) == Some(LightGrey)
  {
    PlotCategoryCases(total);
    ColorTable();
  }

  /** The bin boundaries the script's legend shows, at their edges. */
  lemma BinBoundaryExamples()
    ensures PlotCategory(Some(0)) == Zero && Cut(Some(0)) == Some("1-20")
    ensures PlotCategory(Some(20)) == "1-20" && PlotCategory(Some(21)) == "21-100"
    ensures PlotCategory(Some(100000)) == "10001-100000" && PlotCategory(Some(100001)) == "100001+"
    ensures PlotCategory(None) == Zero && PlotCategory(Some(-1)) == Zero
  {
    EdgesIncreasing();
    LowestEdgeIncluded(Edges);
    UpperEdgeInclusive(Edges, 0);
    UpperEdgeInclusive(Edges, 4);
    PlotCategoryCases(Some(21));
    PlotCategoryCases(Some(100001));
    assert InBin(Edges, 21, 1) && InBin(Edges, 100001, 5);
  }
}
