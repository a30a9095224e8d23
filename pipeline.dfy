/**
 * The two tables the map script edits in place: the boundary table `world` and the merged
 * table `df_mrg`, and the script's sequence of steps over them.
 */
module Pipeline {
  import opened Wrappers
  import opened Seqs
  import opened Records
  import opened Names
  import opened Join
  import opened Pruning
  import opened Classify

  /**
   * Why the colour override stops: `iloc[0]` on an empty selection of parent rows, or
   * `index[0]` on an empty selection of dependent rows, raises.
   */
  datatype LookupError = NoParentRow | NoDependentRow

  /** `df_mrg.loc[df_mrg['NAME'] == name, 'geometry']`: the geometries of the rows so named. */
  function GeometriesNamed(rows: seq<JoinedRow>, name: string): (r: seq<Geometry>)
    ensures forall g :: g in r <==> exists x :: x in rows && x.name == name && x.geometry == g
    decreases |rows|
  {
    if rows == [] then []
    else
      var r := (if rows[0].name == name then [rows[0].geometry] else []) + GeometriesNamed(rows[1..], name);
      assert forall x :: x in rows <==> x == rows[0] || x in rows[1..];
      r
  }

  /**
   * The geometry the script gives every row named `name` after pruning: the parts of all
   * those rows' geometries with area above `minArea`, collected into one geometry.
   */
  function PrunedGeometry(rows: seq<JoinedRow>, name: string, minArea: real): (g: Geometry)
    ensures forall p :: p in g.parts ==> p.area > minArea
    ensures forall p :: p in g.parts <==>
      p.area > minArea && exists x :: x in rows && x.name == name && p in x.geometry.parts
  {
    var parts := Explode(GeometriesNamed(rows, name));
    assert forall p :: p in parts <==> exists x :: x in rows && x.name == name && p in x.geometry.parts by {
      forall p ensures p in parts <==> exists x :: x in rows && x.name == name && p in x.geometry.parts {
        if p in parts {
          var gs := GeometriesNamed(rows, name);
          var i :| 0 <= i < |gs| && p in gs[i].parts;
          assert gs[i] in gs;
        }
        if exists x :: x in rows && x.name == name && p in x.geometry.parts {
          var x :| x in rows && x.name == name && p in x.geometry.parts;
          var gs := GeometriesNamed(rows, name);
          assert x.geometry in gs;
          var i :| 0 <= i < |gs| && gs[i] == x.geometry;
        }
      }
    }
    Geometry(LargeParts(parts, minArea))
  }

  /** `world.loc[world['NAME'] == name, 'geometry'] = g` on the rows of a boundary table. */
  function SetGeometry(rows: seq<BoundaryRow>, name: string, g: Geometry): seq<BoundaryRow>
  {
    seq(|rows|, i requires 0 <= i < |rows| => if rows[i].name == name then rows[i].(geometry := g) else rows[i])
  }

  /** `df_mrg.loc[mask, 'geometry'] = mask_rows.apply(f)` on the rows of the merged table. */
  function MapGeometry(rows: seq<JoinedRow>, name: string, f: Geometry -> Geometry): seq<JoinedRow>
  {
    seq(|rows|, i requires 0 <= i < |rows| =>
      if rows[i].name == name then rows[i].(geometry := f(rows[i].geometry)) else rows[i])
  }

  /** Lines 150-155 on the rows of the merged table: every row named `name` gets the pruned geometry. */
  function PruneNamed(rows: seq<JoinedRow>, name: string, minArea: real): seq<JoinedRow>
  {
    var g := PrunedGeometry(rows, name, minArea);
    seq(|rows|, i requires 0 <= i < |rows| => if rows[i].name == name then rows[i].(geometry := g) else rows[i])
  }

  /** The boundary table `world` (only `NAME` and `geometry` are modelled). */
  class World {
    var rows: seq<BoundaryRow>

    /** The table as read from the Natural Earth countries layer. */
    constructor (boundaries: seq<BoundaryRow>)
      ensures rows == boundaries
    {
      rows := boundaries;
    }

    /** `world.loc[world['NAME'] == name, 'geometry'] = g`. */
    method ReplaceGeometry(name: string, g: Geometry)
      modifies this
      ensures rows == SetGeometry(old(rows), name, g)
      ensures |rows| == |old(rows)|
      ensures forall i :: 0 <= i < |rows| ==>
        rows[i] == if old(rows)[i].name == name then old(rows)[i].(geometry := g) else old(rows)[i]
    {
      rows := SetGeometry(rows, name, g);
    }

    /** `world = world[world['NAME'] != name]`. */
    method DropName(name: string)
      modifies this
      ensures rows == DropBoundary(old(rows), name)
    {
      rows := DropBoundary(rows, name);
    }
  }

  /** The merged table `df_mrg`. */
  class MergedTable {
    var rows: seq<JoinedRow>

    /** The right merge of the request rows onto the boundary rows. */
    constructor (requests: seq<MetricRow>, boundaries: seq<BoundaryRow>)
      ensures rows == RightMerge(requests, boundaries)
    {
      rows := RightMerge(requests, boundaries);
    }

    /** `df_mrg = df_mrg[df_mrg['NAME'] != name]`. */
    method DropName(name: string)
      modifies this
      ensures rows == DropJoined(old(rows), name)
    {
      rows := DropJoined(rows, name);
    }

    /** `df_mrg.loc[mask, 'geometry'] = mask_rows.apply(f)` for the rows named `name`. */
    method UpdateGeometry(name: string, f: Geometry -> Geometry)
      modifies this
      ensures rows == MapGeometry(old(rows), name, f)
      ensures |rows| == |old(rows)|
      ensures forall i :: 0 <= i < |rows| ==>
        rows[i] == if old(rows)[i].name == name then old(rows)[i].(geometry := f(old(rows)[i].geometry)) else old(rows)[i]
    {
      rows := MapGeometry(rows, name, f);
    }

    /**
     * Explode the geometries of the rows named `name`, keep the parts with area above
     * `minArea`, and give every such row the collected result.
     */
    method PruneSmallParts(name: string, minArea: real)
      modifies this
      ensures rows == PruneNamed(old(rows), name, minArea)
      ensures |rows| == |old(rows)|
      ensures forall i :: 0 <= i < |rows| ==>
        rows[i] == if old(rows)[i].name == name
                   then old(rows)[i].(geometry := PrunedGeometry(old(rows), name, minArea))
                   else old(rows)[i]
    {
      rows := PruneNamed(rows, name, minArea);
    }

    /** `df_mrg['requests_bin'] = pd.cut(df_mrg['total_requests'], ...)`. */
    method AssignBins()
      modifies this
      ensures |rows| == |old(rows)|
      ensures forall i :: 0 <= i < |rows| ==>
        rows[i] == old(rows)[i].(requestsBin := Cut(old(rows)[i].totalRequests))
    {
      var r := rows;
      rows := seq(|r|, i requires 0 <= i < |r| =>
        r[i].(requestsBin := Cut(r[i].totalRequests)));
    }

    /** `df_mrg['plot_category'] = df_mrg.apply(mark_zeros, axis=1)`. */
    method MarkZeroCategories()
      modifies this
      ensures |rows| == |old(rows)|
      ensures forall i :: 0 <= i < |rows| ==>
        rows[i] == old(rows)[i].(plotCategory := MarkZeros(old(rows)[i].totalRequests, old(rows)[i].requestsBin))
    {
      var r := rows;
      rows := seq(|r|, i requires 0 <= i < |r| =>
        r[i].(plotCategory := MarkZeros(r[i].totalRequests, r[i].requestsBin)));
    }

    /** `df_mrg['plot_category'] = df_mrg['plot_category'].fillna('zero')`. */
    method FillMissingCategories()
      modifies this
      ensures |rows| == |old(rows)|
      ensures forall i :: 0 <= i < |rows| ==>
        rows[i] == old(rows)[i].(plotCategory := Some(FillZero(old(rows)[i].plotCategory)))
    {
      var r := rows;
      rows := seq(|r|, i requires 0 <= i < |r| =>
        r[i].(plotCategory := Some(FillZero(r[i].plotCategory))));
    }

    /** `df_mrg['color'] = df_mrg['plot_category'].map(bin_to_color)`; a missing category maps to NaN. */
    method AssignColors()
      modifies this
      ensures |rows| == |old(rows)|
      ensures forall i :: 0 <= i < |rows| ==>
        rows[i] == old(rows)[i].(color := if old(rows)[i].plotCategory.Some?
                                          then ColorOf(old(rows)[i].plotCategory.value) else None)
    {
      var r := rows;
      rows := seq(|r|, i requires 0 <= i < |r| =>
        r[i].(color := if r[i].plotCategory.Some? then ColorOf(r[i].plotCategory.value) else None));
    }

    /** Every row carries its final category and a colour for it. */
    ghost predicate Classified()
      reads this
    {
      forall i :: 0 <= i < |rows| ==>
        rows[i].requestsBin == Cut(rows[i].totalRequests) &&
        rows[i].plotCategory == Some(PlotCategory(rows[i].totalRequests)) &&
        rows[i].color == ColorOf(PlotCategory(rows[i].totalRequests)) && rows[i].color.Some?
    }

    /**
     * The four classification steps in the script's order. Afterwards every row has a
     * category among the labels and 'zero' and the colour of that category; nothing else changes.
     */
    method Classify()
      modifies this
      ensures rows == ClassifyRows(old(rows))
      ensures Classified()
      ensures |rows| == |old(rows)|
      ensures forall i :: 0 <= i < |rows| ==>
        rows[i] == old(rows)[i].(requestsBin := Cut(old(rows)[i].totalRequests),
                                 plotCategory := Some(PlotCategory(old(rows)[i].totalRequests)),
                                 color := ColorOf(PlotCategory(old(rows)[i].totalRequests)))
    {
      AssignBins();
      MarkZeroCategories();
      FillMissingCategories();
      AssignColors();
      forall i | 0 <= i < |rows| ensures rows[i].color.Some? {
        EveryCategoryColored(rows[i].totalRequests);
      }
    }

    /** The colour override of lines 198-201 done in place: see `Inherit`. */
    method InheritColor(parent: string, dependent: string) returns (o: Outcome<LookupError>)
      modifies this
      ensures var res := Inherit(old(rows), parent, dependent);
              if res.Ok? then o == Pass && rows == res.value else o == Fail(res.error) && rows == old(rows)
    {
      var d := FirstWhere(rows, (x: JoinedRow) => x.countryMapped == Some(parent));
      if d.None? {
        return Fail(NoParentRow);
      }
      var g := FirstWhere(rows, (x: JoinedRow) => x.name == dependent);
      if g.None? {
        return Fail(NoDependentRow);
      }
      rows := rows[g.value := rows[g.value].(color := rows[d.value].color)];
      o := Pass;
    }
  }

  /**
   * The colour override: the first row whose `country_mapped` is `parent` gives its colour
   * to the first row whose `NAME` is `dependent`. The parent lookup comes first, and either
   * lookup failing raises before anything is written. Exactly one cell changes.
   */
  function Inherit(rows: seq<JoinedRow>, parent: string, dependent: string): (r: Result<seq<JoinedRow>, LookupError>)
    ensures r == Err(NoParentRow) <==> parent !in MappedNames(rows)
    ensures r == Err(NoDependentRow) <==> parent in MappedNames(rows) && dependent !in JoinedNames(rows)
    ensures r.Ok? ==>
      exists g, d :: 0 <= g < |rows| && 0 <= d < |rows| &&
        rows[g].name == dependent && rows[d].countryMapped == Some(parent) &&
        (forall k :: 0 <= k < g ==> rows[k].name != dependent) &&
        (forall k :: 0 <= k < d ==> rows[k].countryMapped != Some(parent)) &&
        r.value == rows[g := rows[g].(color := rows[d].color)]
  {
    match FirstWhere(rows, (x: JoinedRow) => x.countryMapped == Some(parent))
    case None => Err(NoParentRow)
    case Some(d) =>
      assert rows[d] in rows;
      match FirstWhere(rows, (x: JoinedRow) => x.name == dependent)
      case None => Err(NoDependentRow)
      case Some(g) =>
        assert rows[g] in rows;
        Ok(rows[g := rows[g].(color := rows[d].color)])
  }

  /** Two states of the merged table hold the same rows, in the same order, with the same keys and counts. */
  ghost predicate SameKeys(a: seq<JoinedRow>, b: seq<JoinedRow>)
  {
    |a| == |b| &&
    forall i :: 0 <= i < |a| ==>
      a[i].name == b[i].name && a[i].countryMapped == b[i].countryMapped && a[i].totalRequests == b[i].totalRequests
  }

  /** Steps that keep the keys keep the table's names and mapped names. */
  lemma SameKeysNames(a: seq<JoinedRow>, b: seq<JoinedRow>)
    requires SameKeys(a, b)
    ensures JoinedNames(a) == JoinedNames(b) && MappedNames(a) == MappedNames(b)
  {
    forall x | x in a ensures x.name in JoinedNames(b) && (x.countryMapped.Some? ==> x.countryMapped.value in MappedNames(b)) {
      var i :| 0 <= i < |a| && a[i] == x;
      assert b[i] in b;
    }
    forall y | y in b ensures y.name in JoinedNames(a) && (y.countryMapped.Some? ==> y.countryMapped.value in MappedNames(a)) {
      var i :| 0 <= i < |b| && b[i] == y;
      assert a[i] in a;
    }
  }

  /** Geometry writes on the boundary table keep its names. */
  lemma SameBoundaryNames(a: seq<BoundaryRow>, b: seq<BoundaryRow>)
    requires |a| == |b| && forall i :: 0 <= i < |a| ==> a[i].name == b[i].name
    ensures BoundaryNames(a) == BoundaryNames(b)
  {
    forall x | x in a ensures x.name in BoundaryNames(b) {
      var i :| 0 <= i < |a| && a[i] == x;
      assert b[i] in b;
    }
    forall y | y in b ensures y.name in BoundaryNames(a) {
      var i :| 0 <= i < |b| && b[i] == y;
      assert a[i] in a;
    }
  }

  /** Some request resolves to "Denmark", and the boundary table has a row named "Denmark". */
  predicate DenmarkJoined(requests: seq<Request>, boundaries: seq<BoundaryRow>)
  {
    (exists q :: q in requests && Resolve(q.country) == "Denmark") && "Denmark" in BoundaryNames(boundaries)
  }

  /** The boundary table after lines 63-81; its names are the loaded names without Somaliland. */
  function Prepared(boundaries: seq<BoundaryRow>, cyprus: Geometry, somalia: Geometry): (r: seq<BoundaryRow>)
    ensures BoundaryNames(r) == BoundaryNames(boundaries) - {"Somaliland"}
  {
    var s1 := SetGeometry(boundaries, "Cyprus", cyprus);
    var s2 := SetGeometry(s1, "Somalia", somalia);
    SameBoundaryNames(s1, boundaries);
    SameBoundaryNames(s2, s1);
    DropBoundaryNames(s2, "Somaliland");
    DropBoundary(s2, "Somaliland")
  }

  /**
   * In the prepared boundary table Cyprus and Somalia carry the given geometries, Somaliland
   * is gone, and every other row is kept as loaded.
   */
  lemma PreparedRows(boundaries: seq<BoundaryRow>, cyprus: Geometry, somalia: Geometry)
    ensures forall x :: x in Prepared(boundaries, cyprus, somalia) ==>
      x.name != "Somaliland" &&
      (x.name == "Cyprus" ==> x.geometry == cyprus) &&
      (x.name == "Somalia" ==> x.geometry == somalia) &&
      (x.name != "Cyprus" && x.name != "Somalia" ==> x in boundaries)
    ensures forall b :: b in boundaries && b.name != "Somaliland" && b.name != "Cyprus" && b.name != "Somalia" ==>
      b in Prepared(boundaries, cyprus, somalia)
  {
    var s1 := SetGeometry(boundaries, "Cyprus", cyprus);
    var s2 := SetGeometry(s1, "Somalia", somalia);
    var r := DropBoundary(s2, "Somaliland");
    assert r == Prepared(boundaries, cyprus, somalia);
    forall x | x in s2
      ensures (x.name == "Cyprus" ==> x.geometry == cyprus) &&
        (x.name == "Somalia" ==> x.geometry == somalia) &&
        (x.name != "Cyprus" && x.name != "Somalia" ==> x in boundaries)
    {
      var i :| 0 <= i < |s2| && s2[i] == x;
      assert boundaries[i] in boundaries;
    }
    forall b | b in boundaries && b.name != "Somaliland" && b.name != "Cyprus" && b.name != "Somalia"
      ensures b in r
    {
      var i :| 0 <= i < |boundaries| && boundaries[i] == b;
      assert s2[i] == b && s2[i] in s2;
    }
  }

  /** Every row's count is the count of a request resolving to its name, and missing when none does. */
  ghost predicate CountsFrom(requests: seq<Request>, rows: seq<JoinedRow>)
  {
    forall x :: x in rows ==>
      (x.totalRequests.None? <==> forall q :: q in requests ==> Resolve(q.country) != x.name) &&
      (x.totalRequests.Some? ==>
        exists q :: q in requests && Resolve(q.country) == x.name && x.totalRequests == Some(q.totalRequests))
  }

  /** The merged table after lines 103-120; its names are the boundary names without Antarctica. */
  function Scoped(requests: seq<Request>, boundaries: seq<BoundaryRow>): (r: seq<JoinedRow>)
    ensures JoinedNames(r) == BoundaryNames(boundaries) - {"Antarctica"}
  {
    var mapped := AddMappedNames(requests);
    var m0 := RightMerge(mapped, boundaries);
    MergeKeepsBoundaries(mapped, boundaries);
    DropJoinedNames(m0, "Antarctica");
    DropJoined(m0, "Antarctica")
  }

  /** The scoped table's counts come from the requests, and each row carries the geometry of its boundary row. */
  lemma ScopedRows(requests: seq<Request>, boundaries: seq<BoundaryRow>)
    ensures CountsFrom(requests, Scoped(requests, boundaries))
    ensures forall x :: x in Scoped(requests, boundaries) ==>
      exists b :: b in boundaries && b.name == x.name && b.geometry == x.geometry
  {
    var mapped := AddMappedNames(requests);
    var r := Scoped(requests, boundaries);
    forall x | x in r
      ensures (x.totalRequests.None? <==> forall q :: q in requests ==> Resolve(q.country) != x.name) &&
        (x.totalRequests.Some? ==>
          exists q :: q in requests && Resolve(q.country) == x.name && x.totalRequests == Some(q.totalRequests))
      ensures exists b :: b in boundaries && b.name == x.name && b.geometry == x.geometry
    {
      MergeCounts(requests, boundaries, x);
      MergedRowShape(mapped, boundaries, x);
    }
  }

  /**
   * A name other than Antarctica is a mapped name of the scoped table exactly when some
   * request resolves to it and a boundary row carries it.
   */
  lemma ScopedMapped(requests: seq<Request>, boundaries: seq<BoundaryRow>, c: string)
    requires c != "Antarctica"
    ensures c in MappedNames(Scoped(requests, boundaries)) <==>
      (exists q :: q in requests && Resolve(q.country) == c) && c in BoundaryNames(boundaries)
  {
    var mapped := AddMappedNames(requests);
    var m0 := RightMerge(mapped, boundaries);
    MergeMappedIsName(mapped, boundaries);
    MappedNameExists(requests, c);
    MergeMappedNames(mapped, boundaries, c);
    DropJoinedMapped(m0, "Antarctica", c);
  }

  /** The geometries of the rows named `name` depend only on those rows. */
  lemma {:induction false} GeometriesNamedSame(a: seq<JoinedRow>, b: seq<JoinedRow>, name: string)
    requires |a| == |b|
    requires forall i :: 0 <= i < |a| ==> (a[i].name == name <==> b[i].name == name)
    requires forall i :: 0 <= i < |a| && a[i].name == name ==> a[i].geometry == b[i].geometry
    ensures GeometriesNamed(a, name) == GeometriesNamed(b, name)
    decreases |a|
  {
    if a != [] {
      assert forall i :: 0 <= i < |a| - 1 ==> a[1..][i] == a[i + 1] && b[1..][i] == b[i + 1];
      GeometriesNamedSame(a[1..], b[1..], name);
    }
  }

  /** After pruning, every part of every Russia row is above the threshold. */
  lemma PruneNamedRussia(rows: seq<JoinedRow>)
    ensures RussiaPruned(PruneNamed(rows, "Russia", MinArea))
  {
    var r := PruneNamed(rows, "Russia", MinArea);
    forall x | x in r && x.name == "Russia"
      ensures forall p :: p in x.geometry.parts ==> p.area > MinArea
    {
      var i :| 0 <= i < |r| && r[i] == x;
    }
  }

  /** The merged table after lines 137-155: only geometries change, and Russia is pruned. */
  function Adjusted(rows: seq<JoinedRow>, withoutCrimea: Geometry -> Geometry, withCrimea: Geometry -> Geometry): (r: seq<JoinedRow>)
    ensures SameKeys(rows, r)
    ensures forall i :: 0 <= i < |rows| ==> r[i] == rows[i].(geometry := r[i].geometry)
    ensures RussiaPruned(r)
  {
    var m1 := MapGeometry(rows, "Russia", withoutCrimea);
    var m2 := MapGeometry(m1, "Ukraine", withCrimea);
    PruneNamedRussia(m2);
    PruneNamed(m2, "Russia", MinArea)
  }

  /**
   * Ukraine's geometry becomes `withCrimea` of its own. Every Russia row gets the large parts
   * of all Russia rows once `withoutCrimea` has been applied to them. Every other row is
   * untouched.
   */
  lemma AdjustedGeometries(rows: seq<JoinedRow>, withoutCrimea: Geometry -> Geometry, withCrimea: Geometry -> Geometry)
    ensures var r := Adjusted(rows, withoutCrimea, withCrimea);
      (forall i :: 0 <= i < |rows| && rows[i].name != "Russia" && rows[i].name != "Ukraine" ==> r[i] == rows[i]) &&
      (forall i :: 0 <= i < |rows| && rows[i].name == "Ukraine" ==> r[i].geometry == withCrimea(rows[i].geometry)) &&
      (forall i :: 0 <= i < |rows| && rows[i].name == "Russia" ==>
        r[i].geometry == PrunedGeometry(MapGeometry(rows, "Russia", withoutCrimea), "Russia", MinArea))
  {
    var m1 := MapGeometry(rows, "Russia", withoutCrimea);
    var m2 := MapGeometry(m1, "Ukraine", withCrimea);
    GeometriesNamedSame(m1, m2, "Russia");
  }

  /**
   * The merged table after the four steps of lines 159-195. Keys, geometries and the
   * request columns are kept. Every row has the bin and category of its count, and the
   * colour of that category, which always exists.
   */
  function ClassifyRows(rows: seq<JoinedRow>): (r: seq<JoinedRow>)
    ensures SameKeys(rows, r)
    ensures forall i :: 0 <= i < |rows| ==>
      r[i].geometry == rows[i].geometry && r[i].country == rows[i].country &&
      r[i].requestsBin == Cut(rows[i].totalRequests) &&
      r[i].plotCategory == Some(PlotCategory(rows[i].totalRequests)) &&
      r[i].color.Some? && r[i].color == ColorOf(r[i].plotCategory.value)
    ensures Coloured(r)
    ensures RussiaPruned(rows) ==> RussiaPruned(r)
  {
    var r := seq(|rows|, i requires 0 <= i < |rows| =>
      rows[i].(requestsBin := Cut(rows[i].totalRequests),
               plotCategory := Some(PlotCategory(rows[i].totalRequests)),
               color := ColorOf(PlotCategory(rows[i].totalRequests))));
    assert forall i :: 0 <= i < |rows| ==> r[i].color.Some? by {
      forall i | 0 <= i < |rows| ensures r[i].color.Some? {
        EveryCategoryColored(rows[i].totalRequests);
      }
    }
    assert Coloured(r) by {
      forall x | x in r ensures x.plotCategory == Some(PlotCategory(x.totalRequests)) && x.color.Some? {
        var i :| 0 <= i < |r| && r[i] == x;
      }
    }
    assert RussiaPruned(rows) ==> RussiaPruned(r) by {
      if RussiaPruned(rows) {
        RussiaPrunedKept(rows, r);
      }
    }
    r
  }

  /** The map table the script builds from its inputs (lines 63-201), or the lookup that fails. */
  function MapTable(requests: seq<Request>, boundaries: seq<BoundaryRow>, cyprus: Geometry, somalia: Geometry,
                    withoutCrimea: Geometry -> Geometry, withCrimea: Geometry -> Geometry): Result<seq<JoinedRow>, LookupError>
  {
    Inherit(ClassifyRows(Adjusted(Scoped(requests, Prepared(boundaries, cyprus, somalia)), withoutCrimea, withCrimea)),
            "Denmark", "Greenland")
  }

  /**
   * The script stops at the Greenland step when no request resolves to Denmark or Denmark
   * has no boundary. Failing that, it stops when Greenland has no boundary, and it succeeds
   * otherwise.
   */
  lemma MapTableErrors(requests: seq<Request>, boundaries: seq<BoundaryRow>, cyprus: Geometry, somalia: Geometry,
                       withoutCrimea: Geometry -> Geometry, withCrimea: Geometry -> Geometry)
    ensures var r := MapTable(requests, boundaries, cyprus, somalia, withoutCrimea, withCrimea);
      (r == Err(NoParentRow) <==> !DenmarkJoined(requests, boundaries)) &&
      (r == Err(NoDependentRow) <==> DenmarkJoined(requests, boundaries) && "Greenland" !in BoundaryNames(boundaries))
  {
    StageNames(requests, boundaries, cyprus, somalia, withoutCrimea, withCrimea);
  }

  /** The names the Greenland step looks up, read back on the loaded tables. */
  lemma StageNames(requests: seq<Request>, boundaries: seq<BoundaryRow>, cyprus: Geometry, somalia: Geometry,
                   withoutCrimea: Geometry -> Geometry, withCrimea: Geometry -> Geometry)
    ensures var c := ClassifyRows(Adjusted(Scoped(requests, Prepared(boundaries, cyprus, somalia)), withoutCrimea, withCrimea));
      ("Greenland" in JoinedNames(c) <==> "Greenland" in BoundaryNames(boundaries)) &&
      ("Denmark" in MappedNames(c) <==> DenmarkJoined(requests, boundaries))
  {
    var s := Scoped(requests, Prepared(boundaries, cyprus, somalia));
    ScopedNames(requests, boundaries, cyprus, somalia);
    ScopedDenmark(requests, boundaries, cyprus, somalia);
    AdjustedClassifiedNames(s, withoutCrimea, withCrimea);
    GreenlandSurvivesScope(JoinedNames(s), BoundaryNames(boundaries));
  }

  /** Dropping Somaliland and Antarctica leaves Greenland where it was. */
  lemma GreenlandSurvivesScope(names: set<string>, loaded: set<string>)
    requires names == loaded - {"Somaliland", "Antarctica"}
    ensures "Greenland" in names <==> "Greenland" in loaded
  {
    assert "Greenland" != "Somaliland" && "Greenland" != "Antarctica";
  }

  /** The names of the scoped table are the loaded boundary names without Somaliland and Antarctica. */
  lemma ScopedNames(requests: seq<Request>, boundaries: seq<BoundaryRow>, cyprus: Geometry, somalia: Geometry)
    ensures JoinedNames(Scoped(requests, Prepared(boundaries, cyprus, somalia))) ==
      BoundaryNames(boundaries) - {"Somaliland", "Antarctica"}
  {
    var p := Prepared(boundaries, cyprus, somalia);
    assert JoinedNames(Scoped(requests, p)) == (BoundaryNames(boundaries) - {"Somaliland"}) - {"Antarctica"};
  }

  /** Denmark is a mapped name of the scoped table exactly when it can be joined on the loaded tables. */
  lemma ScopedDenmark(requests: seq<Request>, boundaries: seq<BoundaryRow>, cyprus: Geometry, somalia: Geometry)
    ensures "Denmark" in MappedNames(Scoped(requests, Prepared(boundaries, cyprus, somalia))) <==>
      DenmarkJoined(requests, boundaries)
  {
    var p := Prepared(boundaries, cyprus, somalia);
    ScopedMapped(requests, p, "Denmark");
    assert "Denmark" in BoundaryNames(p) <==> "Denmark" in BoundaryNames(boundaries);
  }

  /** Adjusting geometries and classifying keep the names and the mapped names. */
  lemma AdjustedClassifiedNames(s: seq<JoinedRow>, withoutCrimea: Geometry -> Geometry, withCrimea: Geometry -> Geometry)
    ensures var c := ClassifyRows(Adjusted(s, withoutCrimea, withCrimea));
      JoinedNames(c) == JoinedNames(s) && MappedNames(c) == MappedNames(s)
  {
    var a := Adjusted(s, withoutCrimea, withCrimea);
    SameKeysNames(s, a);
    SameKeysNames(a, ClassifyRows(a));
  }

  /** Steps that keep the keys keep the counts' sources. */
  lemma CountsKept(requests: seq<Request>, a: seq<JoinedRow>, b: seq<JoinedRow>)
    requires SameKeys(a, b) && CountsFrom(requests, a)
    ensures CountsFrom(requests, b)
  {
    forall x | x in b
      ensures (x.totalRequests.None? <==> forall q :: q in requests ==> Resolve(q.country) != x.name) &&
        (x.totalRequests.Some? ==>
          exists q :: q in requests && Resolve(q.country) == x.name && x.totalRequests == Some(q.totalRequests))
    {
      var i :| 0 <= i < |b| && b[i] == x;
      assert a[i] in a;
    }
  }

  /** Every row is coloured by its category, except possibly rows named `dependent`. */
  ghost predicate ColouredByCategory(rows: seq<JoinedRow>, dependent: string)
  {
    forall i :: 0 <= i < |rows| && rows[i].name != dependent ==> rows[i].color == ColorOf(PlotCategory(rows[i].totalRequests))
  }

  /** Adjusting and classifying keep the counts' sources, and leave every row coloured by its category. */
  lemma ClassifiedRows(requests: seq<Request>, s: seq<JoinedRow>, withoutCrimea: Geometry -> Geometry, withCrimea: Geometry -> Geometry)
    requires CountsFrom(requests, s)
    ensures var c := ClassifyRows(Adjusted(s, withoutCrimea, withCrimea));
      CountsFrom(requests, c) && Coloured(c) && RussiaPruned(c) && ColouredByCategory(c, "Greenland")
  {
    var a := Adjusted(s, withoutCrimea, withCrimea);
    var c := ClassifyRows(a);
    CountsKept(requests, s, a);
    CountsKept(requests, a, c);
  }

  /** The Greenland override keeps the counts' sources, the colours by category elsewhere, pruning and classification. */
  lemma InheritedRows(requests: seq<Request>, c: seq<JoinedRow>)
    requires Inherit(c, "Denmark", "Greenland").Ok?
    requires CountsFrom(requests, c) && Coloured(c) && RussiaPruned(c) && ColouredByCategory(c, "Greenland")
    ensures var v := Inherit(c, "Denmark", "Greenland").value;
      CountsFrom(requests, v) && Coloured(v) && RussiaPruned(v) && ColouredByCategory(v, "Greenland") &&
      Inherited(v, "Denmark", "Greenland") && JoinedNames(v) == JoinedNames(c)
  {
    var v := Inherit(c, "Denmark", "Greenland").value;
    InheritKeeps(c, "Denmark", "Greenland");
    CountsKept(requests, c, v);
    SameKeysNames(c, v);
  }

  /**
   * A successful run gives the map table:
   * - its names are the boundary names without Somaliland and Antarctica;
   * - every row's count comes from the requests;
   * - every row has its count's category and a colour, which is its category's colour on
   *   every row not named Greenland;
   * - Greenland is coloured like Denmark;
   * - Russia keeps no part of area 0.10 or less.
   */
  lemma MapTableRows(requests: seq<Request>, boundaries: seq<BoundaryRow>, cyprus: Geometry, somalia: Geometry,
                     withoutCrimea: Geometry -> Geometry, withCrimea: Geometry -> Geometry)
    requires MapTable(requests, boundaries, cyprus, somalia, withoutCrimea, withCrimea).Ok?
    ensures var v := MapTable(requests, boundaries, cyprus, somalia, withoutCrimea, withCrimea).value;
      JoinedNames(v) == BoundaryNames(boundaries) - {"Somaliland", "Antarctica"} &&
      CountsFrom(requests, v) && Coloured(v) && RussiaPruned(v) && Inherited(v, "Denmark", "Greenland") &&
      ColouredByCategory(v, "Greenland")
  {
    var s := Scoped(requests, Prepared(boundaries, cyprus, somalia));
    ScopedNames(requests, boundaries, cyprus, somalia);
    AdjustedClassifiedNames(s, withoutCrimea, withCrimea);
    ScopedRows(requests, Prepared(boundaries, cyprus, somalia));
    ClassifiedRows(requests, s, withoutCrimea, withCrimea);
    InheritedRows(requests, ClassifyRows(Adjusted(s, withoutCrimea, withCrimea)));
  }

  /**
   * Where each row's geometry comes from. Cyprus and Somalia carry the given unions, and
   * Ukraine `withCrimea` of its boundary. Every other row but Russia carries the geometry
   * of a boundary row of its name.
   */
  ghost predicate GeometriesFrom(rows: seq<JoinedRow>, boundaries: seq<BoundaryRow>, cyprus: Geometry, somalia: Geometry,
                                 withCrimea: Geometry -> Geometry)
  {
    forall x :: x in rows ==>
      (x.name == "Cyprus" ==> x.geometry == cyprus) &&
      (x.name == "Somalia" ==> x.geometry == somalia) &&
      (x.name == "Ukraine" ==> exists b :: b in boundaries && b.name == "Ukraine" && x.geometry == withCrimea(b.geometry)) &&
      (x.name !in {"Cyprus", "Somalia", "Ukraine", "Russia"} ==>
        exists b :: b in boundaries && b.name == x.name && b.geometry == x.geometry)
  }

  /** The scoped table's geometries are the prepared boundary geometries. */
  lemma ScopedGeometries(requests: seq<Request>, boundaries: seq<BoundaryRow>, cyprus: Geometry, somalia: Geometry)
    ensures forall x :: x in Scoped(requests, Prepared(boundaries, cyprus, somalia)) ==>
      (x.name == "Cyprus" ==> x.geometry == cyprus) &&
      (x.name == "Somalia" ==> x.geometry == somalia) &&
      (x.name != "Cyprus" && x.name != "Somalia" ==> exists b :: b in boundaries && b.name == x.name && b.geometry == x.geometry)
  {
    var p := Prepared(boundaries, cyprus, somalia);
    PreparedRows(boundaries, cyprus, somalia);
    ScopedRows(requests, p);
    forall x | x in Scoped(requests, p)
      ensures (x.name == "Cyprus" ==> x.geometry == cyprus) &&
        (x.name == "Somalia" ==> x.geometry == somalia) &&
        (x.name != "Cyprus" && x.name != "Somalia" ==> exists b :: b in boundaries && b.name == x.name && b.geometry == x.geometry)
    {
      var y :| y in p && y.name == x.name && y.geometry == x.geometry;
    }
  }

  /** Adjusting and classifying give each row its geometry source. */
  lemma ClassifiedGeometries(s: seq<JoinedRow>, boundaries: seq<BoundaryRow>, cyprus: Geometry, somalia: Geometry,
                             withoutCrimea: Geometry -> Geometry, withCrimea: Geometry -> Geometry)
    requires forall x :: x in s ==>
      (x.name == "Cyprus" ==> x.geometry == cyprus) &&
      (x.name == "Somalia" ==> x.geometry == somalia) &&
      (x.name != "Cyprus" && x.name != "Somalia" ==> exists b :: b in boundaries && b.name == x.name && b.geometry == x.geometry)
    ensures GeometriesFrom(ClassifyRows(Adjusted(s, withoutCrimea, withCrimea)), boundaries, cyprus, somalia, withCrimea)
  {
    var a := Adjusted(s, withoutCrimea, withCrimea);
    var c := ClassifyRows(a);
    AdjustedGeometries(s, withoutCrimea, withCrimea);
    forall x | x in c
      ensures (x.name == "Cyprus" ==> x.geometry == cyprus) &&
        (x.name == "Somalia" ==> x.geometry == somalia) &&
        (x.name == "Ukraine" ==> exists b :: b in boundaries && b.name == "Ukraine" && x.geometry == withCrimea(b.geometry)) &&
        (x.name !in {"Cyprus", "Somalia", "Ukraine", "Russia"} ==>
          exists b :: b in boundaries && b.name == x.name && b.geometry == x.geometry)
    {
      var i :| 0 <= i < |c| && c[i] == x;
      assert s[i] in s;
      assert x.name == s[i].name;
      if x.name == "Ukraine" {
        var b :| b in boundaries && b.name == s[i].name && b.geometry == s[i].geometry;
        assert x.geometry == withCrimea(b.geometry);
      } else if x.name != "Russia" {
        assert x.geometry == s[i].geometry;
      }
    }
  }

  /** A write of colours only keeps the geometry sources. */
  lemma GeometriesFromKept(a: seq<JoinedRow>, b: seq<JoinedRow>, boundaries: seq<BoundaryRow>, cyprus: Geometry,
                           somalia: Geometry, withCrimea: Geometry -> Geometry)
    requires |a| == |b| && forall i :: 0 <= i < |a| ==> b[i].name == a[i].name && b[i].geometry == a[i].geometry
    requires GeometriesFrom(a, boundaries, cyprus, somalia, withCrimea)
    ensures GeometriesFrom(b, boundaries, cyprus, somalia, withCrimea)
  {
    forall x | x in b
      ensures (x.name == "Cyprus" ==> x.geometry == cyprus) &&
        (x.name == "Somalia" ==> x.geometry == somalia) &&
        (x.name == "Ukraine" ==> exists y :: y in boundaries && y.name == "Ukraine" && x.geometry == withCrimea(y.geometry)) &&
        (x.name !in {"Cyprus", "Somalia", "Ukraine", "Russia"} ==>
          exists y :: y in boundaries && y.name == x.name && y.geometry == x.geometry)
    {
      var i :| 0 <= i < |b| && b[i] == x;
      assert a[i] in a;
    }
  }

  /** A successful run fixes every geometry but Russia's, as `GeometriesFrom` says. */
  lemma MapTableGeometries(requests: seq<Request>, boundaries: seq<BoundaryRow>, cyprus: Geometry, somalia: Geometry,
                           withoutCrimea: Geometry -> Geometry, withCrimea: Geometry -> Geometry)
    requires MapTable(requests, boundaries, cyprus, somalia, withoutCrimea, withCrimea).Ok?
    ensures GeometriesFrom(MapTable(requests, boundaries, cyprus, somalia, withoutCrimea, withCrimea).value,
                           boundaries, cyprus, somalia, withCrimea)
  {
    var s := Scoped(requests, Prepared(boundaries, cyprus, somalia));
    ScopedGeometries(requests, boundaries, cyprus, somalia);
    ClassifiedGeometries(s, boundaries, cyprus, somalia, withoutCrimea, withCrimea);
    var c := ClassifyRows(Adjusted(s, withoutCrimea, withCrimea));
    InheritKeeps(c, "Denmark", "Greenland");
    GeometriesFromKept(c, Inherit(c, "Denmark", "Greenland").value, boundaries, cyprus, somalia, withCrimea);
  }

  /** Lines 63-81: the Cyprus and Somalia geometry writes and the removal of Somaliland. */
  method PrepareBoundaries(boundaries: seq<BoundaryRow>, cyprus: Geometry, somalia: Geometry)
    returns (rows: seq<BoundaryRow>)
    ensures rows == Prepared(boundaries, cyprus, somalia)
    ensures BoundaryNames(rows) == BoundaryNames(boundaries) - {"Somaliland"}
  {
    var world := new World(boundaries);
    world.ReplaceGeometry("Cyprus", cyprus);
    world.ReplaceGeometry("Somalia", somalia);
    world.DropName("Somaliland");
    rows := world.rows;
  }

  /** Lines 103-120: the mapped names, the right merge and the removal of Antarctica. */
  method MergeAndScope(requests: seq<Request>, boundaries: seq<BoundaryRow>) returns (table: MergedTable)
    ensures fresh(table)
    ensures table.rows == Scoped(requests, boundaries)
    ensures JoinedNames(table.rows) == BoundaryNames(boundaries) - {"Antarctica"}
    ensures "Denmark" in MappedNames(table.rows) <==> DenmarkJoined(requests, boundaries)
  {
    var mapped := AddMappedNames(requests);
    table := new MergedTable(mapped, boundaries);
    table.DropName("Antarctica");
    ScopedMapped(requests, boundaries, "Denmark");
  }

  /** Lines 137-155: Crimea out of Russia and into Ukraine, then Russia's small parts pruned. */
  method AdjustGeometries(table: MergedTable, withoutCrimea: Geometry -> Geometry, withCrimea: Geometry -> Geometry)
    modifies table
    ensures table.rows == Adjusted(old(table.rows), withoutCrimea, withCrimea)
    ensures SameKeys(old(table.rows), table.rows)
    ensures RussiaPruned(table.rows)
  {
    table.UpdateGeometry("Russia", withoutCrimea);
    table.UpdateGeometry("Ukraine", withCrimea);
    table.PruneSmallParts("Russia", MinArea);
  }

  /** Every part left on a row named Russia is above the area threshold. */
  ghost predicate RussiaPruned(rows: seq<JoinedRow>)
  {
    forall x :: x in rows && x.name == "Russia" ==> forall p :: p in x.geometry.parts ==> p.area > MinArea
  }

  /** Some row named `dependent` has the colour of some row mapped to `parent`. */
  ghost predicate Inherited(rows: seq<JoinedRow>, parent: string, dependent: string)
  {
    exists i, j :: 0 <= i < |rows| && 0 <= j < |rows| &&
      rows[i].name == dependent && rows[j].countryMapped == Some(parent) && rows[i].color == rows[j].color
  }

  /**
   * Copying row `d`'s colour onto row `g` changes only that one cell. Keys, geometries and
   * categories are kept, and the two rows then share a colour.
   */
  lemma ColorWriteKeeps(rows: seq<JoinedRow>, g: nat, d: nat)
    requires g < |rows| && d < |rows|
    ensures var rows' := rows[g := rows[g].(color := rows[d].color)];
      SameKeys(rows, rows') &&
      (forall i :: 0 <= i < |rows| ==> rows'[i] == rows[i].(color := rows'[i].color)) &&
      (forall i :: 0 <= i < |rows| && i != g ==> rows'[i] == rows[i]) &&
      (RussiaPruned(rows) ==> RussiaPruned(rows')) &&
      (Coloured(rows) ==> Coloured(rows')) &&
      rows'[g].color == rows'[d].color
  {
    var rows' := rows[g := rows[g].(color := rows[d].color)];
    if RussiaPruned(rows) {
      RussiaPrunedKept(rows, rows');
    }
    if Coloured(rows) {
      assert rows[d] in rows;
      forall x | x in rows'
        ensures x.plotCategory == Some(PlotCategory(x.totalRequests)) && x.color.Some?
      {
        var i :| 0 <= i < |rows'| && rows'[i] == x;
        assert rows[i] in rows;
      }
    }
  }

  /**
   * After the override the dependent row has the parent row's colour. Only a colour cell of
   * a row named `dependent` changes. Russia's pruning and full classification are kept.
   */
  lemma InheritKeeps(rows: seq<JoinedRow>, parent: string, dependent: string)
    requires Inherit(rows, parent, dependent).Ok?
    ensures var rows' := Inherit(rows, parent, dependent).value;
      SameKeys(rows, rows') &&
      (forall i :: 0 <= i < |rows| ==> rows'[i] == rows[i].(color := rows'[i].color)) &&
      (forall i :: 0 <= i < |rows| && rows[i].name != dependent ==> rows'[i] == rows[i]) &&
      (RussiaPruned(rows) ==> RussiaPruned(rows')) &&
      (Coloured(rows) ==> Coloured(rows')) &&
      Inherited(rows', parent, dependent)
  {
    var rows' := Inherit(rows, parent, dependent).value;
    var g, d :| 0 <= g < |rows| && 0 <= d < |rows| &&
      rows[g].name == dependent && rows[d].countryMapped == Some(parent) &&
      rows' == rows[g := rows[g].(color := rows[d].color)];
    ColorWriteKeeps(rows, g, d);
    assert rows'[g].name == dependent && rows'[d].countryMapped == Some(parent);
  }

  /** Steps that change neither names nor geometries keep Russia pruned. */
  lemma RussiaPrunedKept(a: seq<JoinedRow>, b: seq<JoinedRow>)
    requires |a| == |b| && forall i :: 0 <= i < |a| ==> b[i].name == a[i].name && b[i].geometry == a[i].geometry
    requires RussiaPruned(a)
    ensures RussiaPruned(b)
  {
    forall x | x in b && x.name == "Russia"
      ensures forall p :: p in x.geometry.parts ==> p.area > MinArea
    {
      var i :| 0 <= i < |b| && b[i] == x;
      assert a[i] in a;
    }
  }

  /** Every row carries the category of its count and some colour. */
  ghost predicate Coloured(rows: seq<JoinedRow>)
  {
    forall x :: x in rows ==> x.plotCategory == Some(PlotCategory(x.totalRequests)) && x.color.Some?
  }

  /** Lines 159-195: the classification steps on the merged table. */
  method ClassifyStage(table: MergedTable)
    modifies table
    ensures table.rows == ClassifyRows(old(table.rows))
    ensures table.Classified()
    ensures SameKeys(old(table.rows), table.rows)
    ensures RussiaPruned(old(table.rows)) ==> RussiaPruned(table.rows)
    ensures Coloured(table.rows)
  {
    table.Classify();
  }

  /** Lines 197-201: Greenland takes Denmark's colour. */
  method InheritStage(table: MergedTable) returns (o: Outcome<LookupError>)
    modifies table
    ensures var res := Inherit(old(table.rows), "Denmark", "Greenland");
      if res.Ok? then o == Pass && table.rows == res.value else o == Fail(res.error) && table.rows == old(table.rows)
    ensures SameKeys(old(table.rows), table.rows)
    ensures RussiaPruned(old(table.rows)) ==> RussiaPruned(table.rows)
    ensures Coloured(old(table.rows)) ==> Coloured(table.rows)
    ensures o == Fail(NoParentRow) <==> "Denmark" !in MappedNames(old(table.rows))
    ensures o == Fail(NoDependentRow) <==>
      "Denmark" in MappedNames(old(table.rows)) && "Greenland" !in JoinedNames(old(table.rows))
    ensures o.Pass? ==> Inherited(table.rows, "Denmark", "Greenland")
  {
    ghost var m3 := table.rows;
    o := table.InheritColor("Denmark", "Greenland");
    if o.Pass? {
      InheritKeeps(m3, "Denmark", "Greenland");
    }
  }

  /**
   * The script from the loaded tables to the coloured map table. The results of the
   * geometry library (the unions for Cyprus and Somalia, the Crimea difference and union)
   * are parameters. The Greenland step fails when the merged table has no row mapped to
   * Denmark, or no row named Greenland.
   */
  method Run(requests: seq<Request>, boundaries: seq<BoundaryRow>,
             cyprus: Geometry, somalia: Geometry,
             withoutCrimea: Geometry -> Geometry, withCrimea: Geometry -> Geometry)
    returns (r: Result<seq<JoinedRow>, LookupError>)
    ensures r == MapTable(requests, boundaries, cyprus, somalia, withoutCrimea, withCrimea)
    ensures r == Err(NoParentRow) <==> !DenmarkJoined(requests, boundaries)
    ensures r == Err(NoDependentRow) <==>
      DenmarkJoined(requests, boundaries) && "Greenland" !in BoundaryNames(boundaries)
    ensures r.Ok? ==> JoinedNames(r.value) == BoundaryNames(boundaries) - {"Somaliland", "Antarctica"}
    ensures r.Ok? ==> CountsFrom(requests, r.value)
    ensures r.Ok? ==> Coloured(r.value)
    ensures r.Ok? ==> ColouredByCategory(r.value, "Greenland")
    ensures r.Ok? ==> GeometriesFrom(r.value, boundaries, cyprus, somalia, withCrimea)
    ensures r.Ok? ==> Inherited(r.value, "Denmark", "Greenland")
    ensures r.Ok? ==> RussiaPruned(r.value)
  {
    r := Build(requests, boundaries, cyprus, somalia, withoutCrimea, withCrimea);
    MapTableErrors(requests, boundaries, cyprus, somalia, withoutCrimea, withCrimea);
    if r.Ok? {
      MapTableRows(requests, boundaries, cyprus, somalia, withoutCrimea, withCrimea);
      MapTableGeometries(requests, boundaries, cyprus, somalia, withoutCrimea, withCrimea);
    }
  }

  /** The script's statements in order, on one fresh table; the outcome is exactly `MapTable`. */
  method Build(requests: seq<Request>, boundaries: seq<BoundaryRow>,
               cyprus: Geometry, somalia: Geometry,
               withoutCrimea: Geometry -> Geometry, withCrimea: Geometry -> Geometry)
    returns (r: Result<seq<JoinedRow>, LookupError>)
    ensures r == MapTable(requests, boundaries, cyprus, somalia, withoutCrimea, withCrimea)
  {
    var world := PrepareBoundaries(boundaries, cyprus, somalia);
    var table := MergeAndScope(requests, world);
    AdjustGeometries(table, withoutCrimea, withCrimea);
    ClassifyStage(table);
    var o := InheritStage(table);
    r := if o.Pass? then Ok(table.rows) else Err(o.error);
  }
}
