/**
 * The reconciliation of the two tables: the `country_mapped` column, the right merge of the
 * request rows onto the boundary rows, and the name filters that take rows out of scope.
 */
module Join {
  import opened Wrappers
  import opened Seqs
  import opened Records
  import opened Names

  /** `df['country_mapped'] = df['country'].replace(name_mapping)`: one new column, others kept. */
  function AddMappedNames(df: seq<Request>): (r: seq<MetricRow>)
    ensures |r| == |df|
    ensures forall i :: 0 <= i < |df| ==>
      r[i].country == df[i].country && r[i].totalRequests == df[i].totalRequests &&
      r[i].countryMapped == Resolve(df[i].country)
  {
    seq(|df|, i requires 0 <= i < |df| => MetricRow(df[i].country, df[i].totalRequests, Resolve(df[i].country)))
  }

  /** `world[world['NAME'] != name]`. */
  function DropBoundary(rows: seq<BoundaryRow>, name: string): (r: seq<BoundaryRow>)
    ensures forall x :: x in r <==> x in rows && x.name != name
    ensures forall x :: multiset(r)[x] == if x.name == name then 0 else multiset(rows)[x]
    ensures Subseq(r, rows)
  {
    KeepCounts(rows, (b: BoundaryRow) => b.name != name);
    KeepSubseq(rows, (b: BoundaryRow) => b.name != name);
    Keep(rows, (b: BoundaryRow) => b.name != name)
  }

  /** `df_mrg[df_mrg['NAME'] != name]`. */
  function DropJoined(rows: seq<JoinedRow>, name: string): (r: seq<JoinedRow>)
    ensures forall x :: x in r <==> x in rows && x.name != name
    ensures forall x :: multiset(r)[x] == if x.name == name then 0 else multiset(rows)[x]
    ensures Subseq(r, rows)
  {
    KeepCounts(rows, (x: JoinedRow) => x.name != name);
    KeepSubseq(rows, (x: JoinedRow) => x.name != name);
    Keep(rows, (x: JoinedRow) => x.name != name)
  }

  /** A request row joined to the boundary row it matched. */
  function Attach(m: MetricRow, b: BoundaryRow): JoinedRow
  {
    JoinedRow(Some(m.country), Some(m.totalRequests), Some(m.countryMapped), b.name, b.geometry, None, None, None)
  }

  /** A boundary row that no request row matched: the request columns are missing. */
  function Unmatched(b: BoundaryRow): JoinedRow
  {
    JoinedRow(None, None, None, b.name, b.geometry, None, None, None)
  }

  /** The request rows whose `country_mapped` equals `name`, in table order. */
  function Matches(left: seq<MetricRow>, name: string): (r: seq<MetricRow>)
    ensures forall m :: m in r <==> m in left && m.countryMapped == name
  {
    Keep(left, (m: MetricRow) => m.countryMapped == name)
  }

  /** Some request row resolves to `name`. */
  predicate HasMatch(left: seq<MetricRow>, name: string)
  {
    exists m :: m in left && m.countryMapped == name
  }

  /**
   * The rows the right merge produces for one boundary row: the boundary row with missing
   * request columns when nothing matches it, and otherwise exactly the matching request rows
   * joined to it.
   */
  function RowsFor(left: seq<MetricRow>, b: BoundaryRow): (r: seq<JoinedRow>)
    ensures |r| >= 1
    ensures !HasMatch(left, b.name) ==> r == [Unmatched(b)]
    ensures HasMatch(left, b.name) ==>
      forall x :: x in r <==> exists m :: m in left && m.countryMapped == b.name && x == Attach(m, b)
    ensures HasMatch(left, b.name) ==> |r| == |Matches(left, b.name)|
  {
    var ms := Matches(left, b.name);
    if ms == [] then
      assert !HasMatch(left, b.name);
      [Unmatched(b)]
    else
      var r := seq(|ms|, i requires 0 <= i < |ms| => Attach(ms[i], b));
      assert forall m :: m in ms ==> Attach(m, b) in r by {
        forall m | m in ms ensures Attach(m, b) in r {
          var i :| 0 <= i < |ms| && ms[i] == m;
          assert r[i] == Attach(m, b);
        }
      }
      assert ms[0] in ms;
      r
  }

  /**
   * `pd.merge(df, df2, left_on='country_mapped', right_on='NAME', how='right')`: for each
   * boundary row in order, one row per matching request row (in request order), or one row
   * with the request columns missing when nothing matches.
   */
  function RightMerge(left: seq<MetricRow>, right: seq<BoundaryRow>): (r: seq<JoinedRow>)
    ensures |r| >= |right|
    ensures r == [] <==> right == []
    decreases |right|
  {
    if right == [] then [] else RowsFor(left, right[0]) + RightMerge(left, right[1..])
  }

  /** A merged row is one of the rows produced for some boundary row, and each of those is in the merge. */
  lemma {:induction false} MergeMember(left: seq<MetricRow>, right: seq<BoundaryRow>, x: JoinedRow)
    ensures x in RightMerge(left, right) <==> exists i :: 0 <= i < |right| && x in RowsFor(left, right[i])
    decreases |right|
  {
    if right != [] {
      MergeMember(left, right[1..], x);
      assert forall i :: 1 <= i < |right| ==> right[i] == right[1..][i - 1];
      if x in RightMerge(left, right[1..]) {
        var k :| 0 <= k < |right[1..]| && x in RowsFor(left, right[1..][k]);
        assert right[k + 1] == right[1..][k];
      }
    }
  }

  /** A row produced for boundary row `b` carries `b`'s name and geometry, and request columns exactly when `b` matched. */
  lemma RowsForShape(left: seq<MetricRow>, b: BoundaryRow, x: JoinedRow)
    requires x in RowsFor(left, b)
    ensures x.name == b.name && x.geometry == b.geometry
    ensures x.countryMapped.Some? ==> x.countryMapped.value == b.name
    ensures x.totalRequests.None? <==> !HasMatch(left, b.name)
    ensures x.countryMapped.Some? <==> HasMatch(left, b.name)
    ensures HasMatch(left, b.name) ==>
      exists m :: m in left && m.countryMapped == b.name &&
        x.country == Some(m.country) && x.totalRequests == Some(m.totalRequests)
  {
    if HasMatch(left, b.name) {
      var m :| m in left && m.countryMapped == b.name && x == Attach(m, b);
    }
  }

  /** A row of the merged table comes from a boundary row, and its request columns from a matching request row. */
  lemma MergedRowShape(left: seq<MetricRow>, right: seq<BoundaryRow>, x: JoinedRow)
    requires x in RightMerge(left, right)
    ensures exists b :: b in right && b.name == x.name && b.geometry == x.geometry
    ensures x.countryMapped.Some? ==> x.countryMapped.value == x.name
    ensures x.totalRequests.None? <==> !HasMatch(left, x.name)
    ensures x.countryMapped.Some? <==> HasMatch(left, x.name)
    ensures HasMatch(left, x.name) ==>
      exists m :: m in left && m.countryMapped == x.name &&
        x.country == Some(m.country) && x.totalRequests == Some(m.totalRequests)
  {
    MergeMember(left, right, x);
    var i :| 0 <= i < |right| && x in RowsFor(left, right[i]);
    RowsForShape(left, right[i], x);
    assert right[i] in right;
  }

  /** The names of a merged table. */
  function JoinedNames(rows: seq<JoinedRow>): set<string>
  {
    set x | x in rows :: x.name
  }

  /** The names of a boundary table. */
  function BoundaryNames(rows: seq<BoundaryRow>): set<string>
  {
    set b | b in rows :: b.name
  }

  /**
   * The right merge keeps every boundary row: each one's name and geometry appear in the
   * result, and the result has no name that the boundary table lacks.
   */
  lemma MergeKeepsBoundaries(left: seq<MetricRow>, right: seq<BoundaryRow>)
    ensures forall b :: b in right ==>
      exists x :: x in RightMerge(left, right) && x.name == b.name && x.geometry == b.geometry
    ensures JoinedNames(RightMerge(left, right)) == BoundaryNames(right)
  {
    var r := RightMerge(left, right);
    forall b | b in right
      ensures exists x :: x in r && x.name == b.name && x.geometry == b.geometry
    {
      var i :| 0 <= i < |right| && right[i] == b;
      var rs := RowsFor(left, b);
      assert rs[0] in rs;
      MergeMember(left, right, rs[0]);
      RowsForShape(left, b, rs[0]);
    }
    forall n | n in JoinedNames(r) ensures n in BoundaryNames(right) {
      var x :| x in r && x.name == n;
      MergedRowShape(left, right, x);
    }
  }

  /** A request row whose resolved name matches no boundary name contributes no row. */
  lemma MergeDropsUnmatchedRequest(left: seq<MetricRow>, right: seq<BoundaryRow>, m: MetricRow)
    requires m in left
    requires forall b :: b in right ==> b.name != m.countryMapped
    ensures forall x :: x in RightMerge(left, right) ==> x.countryMapped != Some(m.countryMapped)
  {
    MergeMappedName(left, right, m.countryMapped);
  }

  /** A request row that does match a boundary row is joined to it. */
  lemma MergeKeepsMatchedRequest(left: seq<MetricRow>, right: seq<BoundaryRow>, m: MetricRow, b: BoundaryRow)
    requires m in left && b in right && m.countryMapped == b.name
    ensures Attach(m, b) in RightMerge(left, right)
  {
    var i :| 0 <= i < |right| && right[i] == b;
    assert HasMatch(left, b.name);
    MergeMember(left, right, Attach(m, b));
  }

  /** A merged row has a missing request count exactly when no request row matched its name. */
  lemma MergeMissingIffUnmatched(left: seq<MetricRow>, right: seq<BoundaryRow>)
    ensures forall x :: x in RightMerge(left, right) ==>
      (x.totalRequests.None? <==> forall m :: m in left ==> m.countryMapped != x.name)
  {
    var r := RightMerge(left, right);
    forall x | x in r
      ensures x.totalRequests.None? <==> forall m :: m in left ==> m.countryMapped != x.name
    {
      MergedRowShape(left, right, x);
    }
  }

  /**
   * When no two request rows resolve to the same name, the merge is one row per boundary
   * row, in boundary order.
   */
  lemma {:induction false} MergeOneToOne(left: seq<MetricRow>, right: seq<BoundaryRow>)
    requires forall i, j :: 0 <= i < j < |left| ==> left[i].countryMapped != left[j].countryMapped
    ensures |RightMerge(left, right)| == |right|
    ensures forall i :: 0 <= i < |right| ==>
      RightMerge(left, right)[i].name == right[i].name &&
      RightMerge(left, right)[i].geometry == right[i].geometry
  {
    if right != [] {
      MergeOneToOne(left, right[1..]);
      RowsForSingle(left, right[0]);
      var rest := RightMerge(left, right[1..]);
      assert RightMerge(left, right) == RowsFor(left, right[0]) + rest;
      forall i | 1 <= i < |right|
        ensures RightMerge(left, right)[i] == rest[i - 1] && right[i] == right[1..][i - 1]
      {
      }
    }
  }

  /** With no two request rows resolving to the same name, a boundary row yields a single row of its own. */
  lemma RowsForSingle(left: seq<MetricRow>, b: BoundaryRow)
    requires forall i, j :: 0 <= i < j < |left| ==> left[i].countryMapped != left[j].countryMapped
    ensures |RowsFor(left, b)| == 1
    ensures RowsFor(left, b)[0].name == b.name && RowsFor(left, b)[0].geometry == b.geometry
  {
    KeepAtMostOne(left, (m: MetricRow) => m.countryMapped == b.name);
    var rs := RowsFor(left, b);
    assert rs[0] in rs;
    RowsForShape(left, b, rs[0]);
  }

  /**
   * The merged table has a row whose `country_mapped` is `c` exactly when some request row
   * resolved to `c` and some boundary row is named `c`.
   */
  lemma MergeMappedName(left: seq<MetricRow>, right: seq<BoundaryRow>, c: string)
    ensures (exists x :: x in RightMerge(left, right) && x.countryMapped == Some(c)) <==>
      (exists m :: m in left && m.countryMapped == c) && (exists b :: b in right && b.name == c)
  {
    var r := RightMerge(left, right);
    if exists x :: x in r && x.countryMapped == Some(c) {
      var x :| x in r && x.countryMapped == Some(c);
      MergedRowShape(left, right, x);
    }
    if (exists m :: m in left && m.countryMapped == c) && (exists b :: b in right && b.name == c) {
      var m :| m in left && m.countryMapped == c;
      var b :| b in right && b.name == c;
      MergeKeepsMatchedRequest(left, right, m, b);
      assert Attach(m, b).countryMapped == Some(c);
    }
  }

  /** Some request row resolves to `c` exactly when some row of the mapped table has `country_mapped == c`. */
  lemma MappedNameExists(df: seq<Request>, c: string)
    ensures (exists m :: m in AddMappedNames(df) && m.countryMapped == c) <==>
      (exists q :: q in df && Resolve(q.country) == c)
  {
    var r := AddMappedNames(df);
    if exists q :: q in df && Resolve(q.country) == c {
      var q :| q in df && Resolve(q.country) == c;
      var i :| 0 <= i < |df| && df[i] == q;
      assert r[i] in r;
    }
  }

  /** A row of the mapped request table comes from a request row with the same country and count. */
  lemma MappedRowSource(df: seq<Request>, m: MetricRow)
    requires m in AddMappedNames(df)
    ensures exists q ::
      q in df && q.country == m.country && q.totalRequests == m.totalRequests && Resolve(q.country) == m.countryMapped
  {
    var r := AddMappedNames(df);
    var i :| 0 <= i < |r| && r[i] == m;
    assert df[i] in df;
  }

  /**
   * The counts of the merged table come from the requests: a row's count is missing exactly
   * when no request's country resolves to its name, and a present count is the count of a
   * request that resolves to it.
   */
  lemma MergeCounts(df: seq<Request>, right: seq<BoundaryRow>, x: JoinedRow)
    requires x in RightMerge(AddMappedNames(df), right)
    ensures x.totalRequests.None? <==> forall q :: q in df ==> Resolve(q.country) != x.name
    ensures x.totalRequests.Some? ==>
      exists q :: q in df && Resolve(q.country) == x.name &&
        x.country == Some(q.country) && x.totalRequests == Some(q.totalRequests)
  {
    var left := AddMappedNames(df);
    MergedRowShape(left, right, x);
    MappedNameExists(df, x.name);
    if x.totalRequests.Some? {
      var m :| m in left && m.countryMapped == x.name &&
        x.country == Some(m.country) && x.totalRequests == Some(m.totalRequests);
      MappedRowSource(df, m);
    }
  }

  /** Dropping a name removes exactly that name from the boundary table's names. */
  lemma DropBoundaryNames(rows: seq<BoundaryRow>, name: string)
    ensures BoundaryNames(DropBoundary(rows, name)) == BoundaryNames(rows) - {name}
  {
    var r := DropBoundary(rows, name);
    forall n | n in BoundaryNames(rows) - {name} ensures n in BoundaryNames(r) {
      var b :| b in rows && b.name == n;
      assert b in r;
    }
  }

  /** Dropping a name removes exactly that name from the merged table's names. */
  lemma DropJoinedNames(rows: seq<JoinedRow>, name: string)
    ensures JoinedNames(DropJoined(rows, name)) == JoinedNames(rows) - {name}
  {
    var r := DropJoined(rows, name);
    forall n | n in JoinedNames(rows) - {name} ensures n in JoinedNames(r) {
      var x :| x in rows && x.name == n;
      assert x in r;
    }
  }

  /** The `country_mapped` values present in a merged table. */
  function MappedNames(rows: seq<JoinedRow>): set<string>
  {
    set x | x in rows && x.countryMapped.Some? :: x.countryMapped.value
  }

  /** In the merged table a row's `country_mapped`, when present, is its `NAME`: the join key. */
  lemma MergeMappedIsName(left: seq<MetricRow>, right: seq<BoundaryRow>)
    ensures forall x :: x in RightMerge(left, right) && x.countryMapped.Some? ==> x.countryMapped.value == x.name
  {
    forall x | x in RightMerge(left, right) && x.countryMapped.Some? ensures x.countryMapped.value == x.name {
      MergedRowShape(left, right, x);
    }
  }

  /** The merged table's mapped names are the names that are both resolved request names and boundary names. */
  lemma MergeMappedNames(left: seq<MetricRow>, right: seq<BoundaryRow>, c: string)
    ensures c in MappedNames(RightMerge(left, right)) <==> HasMatch(left, c) && c in BoundaryNames(right)
  {
    MergeMappedName(left, right, c);
    if c in BoundaryNames(right) {
      var b :| b in right && b.name == c;
    }
  }

  /**
   * Dropping the rows named `name` keeps every mapped name other than `name`, when each
   * mapped name sits on a row of that same name.
   */
  lemma DropJoinedMapped(rows: seq<JoinedRow>, name: string, c: string)
    requires forall x :: x in rows && x.countryMapped.Some? ==> x.countryMapped.value == x.name
    requires c != name
    ensures c in MappedNames(DropJoined(rows, name)) <==> c in MappedNames(rows)
  {
    if c in MappedNames(rows) {
      var x :| x in rows && x.countryMapped == Some(c);
      assert x in DropJoined(rows, name);
    }
  }
}
