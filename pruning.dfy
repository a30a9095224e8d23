/** Removing the small parts of a boundary: Russia's islands and slivers left after Crimea is cut out. */
module Pruning {
  import opened Seqs
  import opened Records

  /** The area threshold the script uses for Russia's parts. */
  const MinArea: real := 0.10

  /** `explode(index_parts=False)` over a column of geometries: all their parts, in row order. */
  function Explode(geoms: seq<Geometry>): (r: seq<Part>)
    ensures forall p :: p in r <==> exists i :: 0 <= i < |geoms| && p in geoms[i].parts
    decreases |geoms|
  {
    if geoms == [] then []
    else
      var r := geoms[0].parts + Explode(geoms[1..]);
      assert forall i :: 1 <= i < |geoms| ==> geoms[i] == geoms[1..][i - 1];
      r
  }

  /** `[part for part in parts if part.area > min_area]`. */
  function LargeParts(parts: seq<Part>, minArea: real): (r: seq<Part>)
    ensures Subseq(r, parts)
    ensures forall p :: p in r ==> p in parts && p.area > minArea
    ensures forall p :: p in parts && p !in r ==> p.area <= minArea
    ensures forall p :: multiset(r)[p] == if p.area > minArea then multiset(parts)[p] else 0
  {
    KeepSubseq(parts, (p: Part) => p.area > minArea);
    KeepCounts(parts, (p: Part) => p.area > minArea);
    Keep(parts, (p: Part) => p.area > minArea)
  }

  /** The summed area of a sequence of parts. */
  function TotalArea(parts: seq<Part>): (a: Area)
  {
    if parts == [] then 0.0 else parts[0].area + TotalArea(parts[1..])
  }

  /** Pruning never adds area: the kept parts cover at most what the input covered. */
  lemma {:induction false} PruneShrinksArea(parts: seq<Part>, minArea: real)
    ensures TotalArea(LargeParts(parts, minArea)) <= TotalArea(parts)
  {
    if parts != [] {
      PruneShrinksArea(parts[1..], minArea);
      var rest := LargeParts(parts[1..], minArea);
      if parts[0].area > minArea {
        assert LargeParts(parts, minArea) == [parts[0]] + rest;
        assert ([parts[0]] + rest)[1..] == rest;
      } else {
        assert LargeParts(parts, minArea) == rest;
      }
    }
  }

  /** Pruning twice with the same threshold is pruning once. */
  lemma PruneIdempotent(parts: seq<Part>, minArea: real)
    ensures LargeParts(LargeParts(parts, minArea), minArea) == LargeParts(parts, minArea)
  {
    KeepAll(LargeParts(parts, minArea), (p: Part) => p.area > minArea);
  }
}
