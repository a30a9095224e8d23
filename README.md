# Google removal requests map: reconciliation and classification

This project models the data pipeline in `google_removal_requests.py` that builds a
choropleth map of Google content-removal requests by country. The model stops before the
plot. The script:

- reads a table of per-country request counts and the Natural Earth country boundaries;
- puts Northern Cyprus into Cyprus and Somaliland into Somalia, then drops the separate
  Somaliland row;
- rewrites ten request-table spellings into Natural Earth names (`country_mapped`);
- right-merges the request rows onto the boundary rows and drops Antarctica;
- moves Crimea from Russia to Ukraine and removes Russia's parts of area 0.10 or less;
- bins each count with `pd.cut` into six right-closed bins, marks zero counts and missing
  categories as `'zero'`, and maps every category to a colour;
- finally gives Greenland's row the colour of Denmark's row.

The modules follow the steps:

- `Names`: the alias table and `replace`.
- `Join`: the `country_mapped` column, the pandas right merge and the row filters by name.
- `Pruning`: exploding geometries into parts and keeping the large ones.
- `Classify`: `pd.cut`, `mark_zeros`, `fillna('zero')` and the colour table.
- `Pipeline`: the two tables the script updates in place. They are classes: `World` (the
  boundary table) and `MergedTable` (`df_mrg`). This module also holds the colour override
  and the whole script as `Run`.
- `Records`, `Seqs` and `Wrappers`: the row types and generic sequence helpers.

A geometry is a sequence of parts, each with an area. The geometry library's results are
parameters of `Run`: the Cyprus and Somalia unions, the Crimea difference and the Crimea
union.

Points where the script's behaviour is easy to misread, and how the model follows it:

- `replace` accepts any string, including the empty one, and so does `Names.Resolve`.
- Duplicate resolved names make `pd.merge` emit one row per matching pair, and
  `Join.RightMerge` does the same. `Join.MergeOneToOne` covers the case where the resolved
  names are unique.
- A missing count always becomes `'zero'` through `fillna`. So does a negative count, which
  `pd.cut` leaves as NaN.
- A missing colour parent or dependent makes the script raise, on `iloc[0]` or on
  `index[0]`. The model returns `NoParentRow` or `NoDependentRow`, checks the parent first as
  the script does, and leaves the table unchanged.
- Greenland's colour is overwritten whatever category Greenland had.
- The alias table is the constant `Names.NameMapping`, and the colour dictionary is the
  constant `Classify.BinToColor`. Their contents are stated by the rows for
  `Names.Resolve`, `Names.TargetsAreNotAliases`, `Classify.PaletteLookup` and
  `Classify.ColorTable`.

## Model

| member | source | states |
|---|---|---|
| Names.Resolve | google_removal_requests.py:89-103 | A name that is a key of the ten-entry table becomes its entry; every other name is returned unchanged. |
| Names.TargetsAreNotAliases | google_removal_requests.py:89-100 | No Natural Earth name in the table is itself one of the aliases. |
| Names.ResolveIdempotent | google_removal_requests.py:103 | Resolving a resolved name changes nothing, so the single pass of `replace` is enough. |
| Names.ResolveChangesOnlyAliases | google_removal_requests.py:103 | Resolution changes a name if and only if the name is one of the aliases. |
| Join.AddMappedNames | google_removal_requests.py:103 | The request table keeps its length, its country and its counts, and each row's `country_mapped` is its resolved country. |
| Join.MappedNameExists | google_removal_requests.py:103 | Some row of the mapped table has `country_mapped == c` if and only if some request's country resolves to `c`. |
| Join.DropBoundary | google_removal_requests.py:81 | The kept boundary rows are exactly the rows not named `name`, with the same multiplicities, in their original order. |
| Join.DropBoundaryNames | google_removal_requests.py:81 | Dropping Somaliland removes that name and only that name from the boundary names. |
| Join.Matches | google_removal_requests.py:107-113 | The request rows a boundary name joins with are exactly those whose `country_mapped` equals it. |
| Join.RightMerge | google_removal_requests.py:107-113 | The merge has at least as many rows as the boundary table, and is empty exactly when the boundary table is. |
| Join.RowsFor | google_removal_requests.py:107-113 | A boundary row yields at least one row. When nothing matches, that is a single row with missing request columns. Otherwise it is exactly the matching request rows joined to it, one row per match. |
| Join.RowsForShape | google_removal_requests.py:107-113 | A row produced for a boundary row carries that row's name and geometry. Its request columns are present exactly when some request matched, and then `country_mapped` equals the name and the country and count are those of a matching request row. |
| Join.RowsForSingle | google_removal_requests.py:107-113 | With unique resolved names, each boundary row yields exactly one row, carrying its name and geometry. |
| Join.MergeMember | google_removal_requests.py:107-113 | A row is in the right merge if and only if it is one of the rows produced for some boundary row. |
| Join.MergedRowShape | google_removal_requests.py:107-113 | Every merged row has the name and geometry of a boundary row. Its count is missing if and only if no request matched that name. A present `country_mapped` equals the name, and a present count and country are those of a matching request row. |
| Join.MergeKeepsBoundaries | google_removal_requests.py:107-113 | Every boundary row's name and geometry appear in the merge, and the merged names are exactly the boundary names (the right side is kept whole). |
| Join.MergeDropsUnmatchedRequest | google_removal_requests.py:107-113 | A request whose resolved name matches no boundary name leaves no row with that `country_mapped`. |
| Join.MergeKeepsMatchedRequest | google_removal_requests.py:107-113 | A request row that matches a boundary row appears joined to it in the merge. |
| Join.MergeMissingIffUnmatched | google_removal_requests.py:107-113 | A merged row's count is missing if and only if no request row resolved to its name. |
| Join.MergeOneToOne | google_removal_requests.py:107-113 | When no two request rows resolve to the same name, the merge has one row per boundary row, in boundary order, with that row's name and geometry. |
| Join.MergeMappedName | google_removal_requests.py:107-113 | Some merged row has `country_mapped == c` if and only if some request resolved to `c` and some boundary row is named `c`. |
| Join.MergeMappedNames | google_removal_requests.py:107-113 | The same statement for the set of merged `country_mapped` values. |
| Join.MergeMappedIsName | google_removal_requests.py:110-111 | A present `country_mapped` on a merged row equals the row's `NAME`, since it is the join key. |
| Join.MappedRowSource | google_removal_requests.py:103 | Every row of the mapped request table is a request row with its country and count, and with `country_mapped` the resolved country. |
| Join.MergeCounts | google_removal_requests.py:103-113 | A merged row's count is missing exactly when no request's country resolves to its name. A present count and country are those of a request whose country resolves to the name. |
| Join.DropJoined | google_removal_requests.py:120 | The kept merged rows are exactly the rows not named `name`, with the same multiplicities, in their original order. |
| Join.DropJoinedNames | google_removal_requests.py:120 | Dropping Antarctica removes that name and only that name from the merged names. |
| Join.DropJoinedMapped | google_removal_requests.py:120 | Dropping Antarctica keeps every other mapped name, including Denmark. |
| Pruning.Explode | google_removal_requests.py:150 | The exploded parts are exactly the parts of the given geometries. |
| Pruning.LargeParts | google_removal_requests.py:152-153 | The kept parts are the parts with area strictly above the threshold: the result is a subsequence, with each such part's multiplicity kept, and every dropped part has area at most the threshold. |
| Pruning.PruneShrinksArea | google_removal_requests.py:153-154 | The kept parts' total area never exceeds the original total. |
| Pruning.PruneIdempotent | google_removal_requests.py:153 | Filtering twice with the same threshold equals filtering once. |
| Classify.BinFrom | google_removal_requests.py:159-169 | Searching upward from a bin whose floor the count is above finds a bin that holds the count. |
| Classify.BinIndex | google_removal_requests.py:159-169 | Below the lowest edge there is no bin (NaN); otherwise the result is a bin, right-closed with the lowest one closed at its floor, that holds the count. |
| Classify.BinUnique | google_removal_requests.py:159-169 | With increasing edges no count lies in two bins. |
| Classify.BinMonotone | google_removal_requests.py:159-169 | A larger count never falls in a lower bin. |
| Classify.UpperEdgeInclusive | google_removal_requests.py:167 | A count equal to a bin's upper edge falls in that bin (`right=True`). |
| Classify.LowestEdgeIncluded | google_removal_requests.py:168 | A count equal to the lowest edge falls in the lowest bin (`include_lowest=True`). |
| Classify.EdgesIncreasing | google_removal_requests.py:159-160 | The script's edges are strictly increasing, with one label per bin. |
| Classify.LabelsDistinct | google_removal_requests.py:160 | The six labels are distinct, and `'zero'` is none of them. |
| Classify.BinOf | google_removal_requests.py:159-169 | A non-negative count lies in one of the six bins, and in no other. |
| Classify.Cut | google_removal_requests.py:163-169 | A cell gets a label exactly when its count is present and at least 0. For each i, the label is the i-th one exactly when the count lies in bin i, so the label is one of the six. |
| Classify.MarkZeros | google_removal_requests.py:172-176 | A count of exactly 0 gives `'zero'`; otherwise the bin is kept, NaN included. |
| Classify.FillZero | google_removal_requests.py:181 | A missing category becomes `'zero'`; a present one is kept. |
| Classify.PlotCategory | google_removal_requests.py:163-181 | The final category is `'zero'` or one of the six labels, and it is `'zero'` whenever the count is 0 or missing. |
| Classify.PlotCategoryCases | google_removal_requests.py:163-181 | The final category is one of the six labels or `'zero'`. It is `'zero'` if and only if the count is missing or at most 0, and label i if and only if the count is positive and lies in bin i. |
| Classify.BinBoundaryExamples | google_removal_requests.py:159-181 | At the edges: 0 is binned to `1-20` but shown as `'zero'`, 20 is `1-20`, 21 is `21-100`, 100000 is `10001-100000` and 100001 is `100001+`; missing and negative counts are `'zero'`. |
| Classify.PaletteLookup | google_removal_requests.py:187 | For distinct labels, the enumerated dictionary has exactly the labels as keys and gives label i the i-th palette colour. |
| Classify.Palette | google_removal_requests.py:187 | The enumerated dictionary has exactly the labels as keys, and the last label gets the colour of its position. |
| Classify.ColorTable | google_removal_requests.py:186-195 | Label i maps to palette colour i and `'zero'` to light grey; a category has a colour if and only if it is one of the seven categories. |
| Classify.ColorOf | google_removal_requests.py:195 | A category has a colour if and only if it is one of the seven categories, and `'zero'` is light grey. |
| Classify.EveryCategoryColored | google_removal_requests.py:172-195 | Every final category has a colour, and a row with a zero or missing count is light grey. |
| Seqs.FirstWhere | google_removal_requests.py:198-200 | No position is found if and only if nothing satisfies the condition; otherwise the result is the first position that does. |
| Pipeline.GeometriesNamed | google_removal_requests.py:150 | The selected geometries are exactly those of the rows with the given name. |
| Pipeline.PrunedGeometry | google_removal_requests.py:150-154 | Russia's new geometry has exactly the parts of the Russia rows whose area is above the threshold. |
| Pipeline.World.constructor | google_removal_requests.py:49-55 | The boundary table starts as the loaded rows. |
| Pipeline.World.ReplaceGeometry | google_removal_requests.py:71-78 | Exactly the rows with the given name get the new geometry; all other rows and the order are untouched. |
| Pipeline.World.DropName | google_removal_requests.py:81 | The table becomes `Join.DropBoundary` of its old rows. |
| Pipeline.MergedTable.constructor | google_removal_requests.py:107-116 | The merged table starts as the right merge of the mapped requests onto the boundaries. |
| Pipeline.MergedTable.DropName | google_removal_requests.py:120 | The table becomes `Join.DropJoined` of its old rows. |
| Pipeline.MergedTable.UpdateGeometry | google_removal_requests.py:138-147 | Exactly the rows with the given name have the function applied to their geometry, and nothing else changes. |
| Pipeline.MergedTable.PruneSmallParts | google_removal_requests.py:150-155 | Every row with the given name gets the collected large parts of all such rows, and nothing else changes. |
| Pipeline.MergedTable.AssignBins | google_removal_requests.py:163-169 | Each row's `requests_bin` becomes the cut of its count, and nothing else changes. |
| Pipeline.MergedTable.MarkZeroCategories | google_removal_requests.py:172-178 | Each row's `plot_category` becomes `mark_zeros` of its count and bin, and nothing else changes. |
| Pipeline.MergedTable.FillMissingCategories | google_removal_requests.py:181 | Each missing `plot_category` becomes `'zero'`, and nothing else changes. |
| Pipeline.MergedTable.AssignColors | google_removal_requests.py:195 | Each row's colour is its category's colour, missing for a category with no entry, and nothing else changes. |
| Pipeline.MergedTable.Classify | google_removal_requests.py:159-195 | After the four steps, every row has the bin, category and colour its count determines; a colour is always present; keys and geometries are unchanged. |
| Pipeline.MergedTable.InheritColor | google_removal_requests.py:198-201 | The table is updated as `Pipeline.Inherit` says, or left as it was with the lookup failure reported. |
| Pipeline.Inherit | google_removal_requests.py:198-201 | The override fails with `NoParentRow` if and only if no row has `country_mapped` equal to the parent. It fails with `NoDependentRow` if and only if the parent is present and no row has the dependent's name. Otherwise exactly the first dependent row takes the colour of the first parent row. |
| Pipeline.ColorWriteKeeps | google_removal_requests.py:201 | Writing row d's colour onto row g changes that one cell and nothing else. Keys, geometries, Russia's pruning and full classification are kept, and the two rows then share a colour. |
| Pipeline.InheritKeeps | google_removal_requests.py:198-201 | A successful override changes only colour cells of rows named like the dependent, and leaves every other row as it was. It keeps keys, Russia's pruning and full classification, and some dependent row is then coloured like a parent row. |
| Pipeline.Prepared | google_removal_requests.py:63-81 | The prepared boundary names are the loaded names without Somaliland. |
| Pipeline.PreparedRows | google_removal_requests.py:63-81 | In the prepared boundary table Cyprus and Somalia carry the given geometries and Somaliland is gone. Every other row is a loaded row, and every loaded row other than those three is kept. |
| Pipeline.Scoped | google_removal_requests.py:103-120 | The merged names after the Antarctica drop are the boundary names without Antarctica. |
| Pipeline.ScopedRows | google_removal_requests.py:103-120 | Every scoped row's count is missing exactly when no request resolves to its name, and otherwise is the count of a request that does. Every row carries the name and geometry of a boundary row. |
| Pipeline.ScopedMapped | google_removal_requests.py:103-120 | A name other than Antarctica is a mapped name of the scoped table if and only if some request resolves to it and a boundary row carries it. |
| Pipeline.ScopedNames | google_removal_requests.py:63-120 | The scoped table's names are the loaded boundary names without Somaliland and Antarctica. |
| Pipeline.ScopedDenmark | google_removal_requests.py:63-120 | Denmark is a mapped name of the scoped table if and only if some request resolves to Denmark and a loaded boundary row is named Denmark. |
| Pipeline.GeometriesNamedSame | google_removal_requests.py:150 | The geometries selected by a name depend only on the rows with that name. |
| Pipeline.PruneNamedRussia | google_removal_requests.py:150-155 | After pruning, every part of every Russia row is above 0.10. |
| Pipeline.Adjusted | google_removal_requests.py:137-155 | The Crimea writes and the pruning change only geometries, keep every key, and leave no Russia part of area 0.10 or less. |
| Pipeline.AdjustedGeometries | google_removal_requests.py:137-155 | Ukraine's geometry becomes `withCrimea` of its own. Every Russia row gets the large parts of all Russia rows after `withoutCrimea`. Every other row is untouched. |
| Pipeline.ClassifyRows | google_removal_requests.py:159-195 | Keys, geometries and countries are kept. Every row gets the cut of its count, the final category of its count and that category's colour, which always exists. |
| Pipeline.StageNames | google_removal_requests.py:63-201 | After classification, Greenland is a name of the table if and only if it is a loaded boundary name. Denmark is a mapped name if and only if some request resolves to Denmark and Denmark is a loaded boundary name. |
| Pipeline.GreenlandSurvivesScope | google_removal_requests.py:81-120 | Dropping Somaliland and Antarctica neither adds nor removes Greenland. |
| Pipeline.AdjustedClassifiedNames | google_removal_requests.py:137-195 | Adjusting geometries and classifying keep the names and the mapped names. |
| Pipeline.CountsKept | google_removal_requests.py:137-201 | Steps that keep the keys keep every count's source in the requests. |
| Pipeline.ClassifiedRows | google_removal_requests.py:137-195 | After adjusting and classifying, counts still come from the requests. Every row has its category and a colour, Russia is pruned, and every row is coloured by its category. |
| Pipeline.InheritedRows | google_removal_requests.py:197-201 | A successful Greenland step keeps the count sources, classification, pruning, names and category colours of every row not named Greenland, and colours Greenland like Denmark. |
| Pipeline.MapTableErrors | google_removal_requests.py:63-201 | The script fails with `NoParentRow` if and only if no request resolves to Denmark or Denmark has no boundary. It fails with `NoDependentRow` if and only if Denmark is joined and Greenland has no boundary. |
| Pipeline.MapTableRows | google_removal_requests.py:63-201 | A successful run gives the boundary names without Somaliland and Antarctica. Counts come from the requests, every row has its category and a colour, every row but Greenland has its category's colour, Greenland is coloured like Denmark, and Russia has no part of area 0.10 or less. |
| Pipeline.ScopedGeometries | google_removal_requests.py:63-120 | In the scoped table Cyprus and Somalia carry the given unions, and every other row the geometry of a loaded boundary row of its name. |
| Pipeline.ClassifiedGeometries | google_removal_requests.py:137-195 | After adjusting and classifying, Cyprus and Somalia carry the given unions, Ukraine `withCrimea` of a Ukraine boundary, and every other row but Russia a loaded geometry of its name. |
| Pipeline.GeometriesFromKept | google_removal_requests.py:201 | A write that keeps names and geometries keeps the geometry sources. |
| Pipeline.MapTableGeometries | google_removal_requests.py:63-201 | In a successful run Cyprus and Somalia carry the given unions, Ukraine `withCrimea` of its boundary, and every other row but Russia the geometry of a loaded boundary row of its name. |
| Pipeline.PrepareBoundaries | google_removal_requests.py:63-81 | The boundary table becomes exactly `Pipeline.Prepared` of the loaded rows, whose names are the loaded names minus Somaliland. |
| Pipeline.MergeAndScope | google_removal_requests.py:103-120 | The merged table is fresh and exactly `Pipeline.Scoped` of the requests and boundaries. Its names are the boundary names minus Antarctica, and Denmark is a mapped name exactly when some request resolves to Denmark and a Denmark boundary row exists. |
| Pipeline.AdjustGeometries | google_removal_requests.py:137-155 | The table becomes exactly `Pipeline.Adjusted` of its old rows: keys are kept and every part of every Russia row is above 0.10. |
| Pipeline.ClassifyStage | google_removal_requests.py:159-195 | The table becomes exactly `Pipeline.ClassifyRows` of its old rows, so every row has its bin, its category and that category's colour. Keys and Russia's pruning are kept. |
| Pipeline.InheritStage | google_removal_requests.py:197-201 | The table becomes exactly `Pipeline.Inherit` of its old rows, or stays as it was with the failure returned. The failure cases are as in `Pipeline.Inherit`. Success keeps keys, pruning and classification, and colours Greenland like Denmark. |
| Pipeline.Run | google_removal_requests.py:63-201 | The outcome is exactly `Pipeline.MapTable`. The script fails at the Greenland step first when no request resolves to Denmark or Denmark has no boundary, and then when Greenland has no boundary. Otherwise: the names are the boundary names minus Somaliland and Antarctica, and every count comes from a request resolving to the row's name. Every row has its category and a colour, the category's colour except on Greenland, which is coloured like Denmark. The geometries are as `Pipeline.MapTableGeometries` says, and Russia has no part of area 0.10 or less. |
| Pipeline.Build | google_removal_requests.py:63-201 | Running the script's statements in order on fresh tables gives exactly `Pipeline.MapTable`. |

## Left out

- The database connection and query (lines 24-45) are left out: `Run` takes the request rows as a parameter. Only the `country` and `total_requests` columns are modelled.
- The reads of the three Natural Earth layers (lines 49-61, 124-126) are left out, because the rows are parameters. Only `NAME` and `geometry` of the countries layer are modelled.
- The geometry library's operations are parameters of `Run`, not models: `unary_union`, `buffer`, `difference`, `union`, `to_crs`, `union_all` and the Crimea selection of lines 128-135 (lines 63-78, 128-147).
- Pipeline.PrunedGeometry: `unary_union(large_parts)` is modelled as collecting the kept parts into one geometry; the dissolving of touching parts is not modelled.
- Pruning.TotalArea: areas are abstract numbers on the parts; computing them from coordinates is not modelled.
- Colours are abstract (`Shade(i)` for `cmap(i)` of `YlGnBu`, and `LightGrey`); the RGBA values are not modelled.
- Classify.Cut: counts are integers, since the request table holds integer counts; `pd.cut` on fractional values is not modelled.
- The `value_counts` print of line 182 and the whole plot and legend (lines 204 onward) produce output only and are left out.
- google_removal_requests_barchart.py is not part of this model.
- The GeoDataFrame conversions (lines 55, 116) and the column selection of line 85 change no modelled value.
- The row index labels are not modelled. `index[0]` followed by `.at` writes the row that `index[0]` found, which the model addresses by its position.
