/** Order-preserving selections and lookups on sequences of rows. */
module Seqs {
  import opened Wrappers

  /** `a` is `b` with some elements left out and the others kept in their original order. */
  ghost predicate Subseq<T>(a: seq<T>, b: seq<T>)
    decreases |b|
  {
    if a == [] then true
    else if b == [] then false
    else (a[0] == b[0] && Subseq(a[1..], b[1..])) || Subseq(a, b[1..])
  }

  /** The elements of `s` that satisfy `p`, in order: a boolean-mask selection `s[p(s)]`. */
  function Keep<T(!new)>(s: seq<T>, p: T -> bool): (r: seq<T>)
    ensures |r| <= |s|
    ensures forall x :: x in r <==> x in s && p(x)
  {
    if s == [] then []
    else (if p(s[0]) then [s[0]] else []) + Keep(s[1..], p)
  }

  /** A selection keeps the surviving elements in their original order. */
  lemma {:induction false} KeepSubseq<T(!new)>(s: seq<T>, p: T -> bool)
    ensures Subseq(Keep(s, p), s)
  {
    if s != [] {
      KeepSubseq(s[1..], p);
      var r := Keep(s, p);
      if p(s[0]) {
        assert r[0] == s[0] && r[1..] == Keep(s[1..], p);
      } else {
        assert r == Keep(s[1..], p);
      }
    }
  }

  /** A selection keeps every copy of an element that passes and no copy of one that fails. */
  lemma {:induction false} KeepCounts<T(!new)>(s: seq<T>, p: T -> bool)
    ensures forall x :: multiset(Keep(s, p))[x] == if p(x) then multiset(s)[x] else 0
  {
    if s != [] {
      KeepCounts(s[1..], p);
      assert s == [s[0]] + s[1..];
      assert multiset(s) == multiset{s[0]} + multiset(s[1..]);
    }
  }

  /** A selection that every element passes returns the sequence itself. */
  lemma {:induction false} KeepAll<T(!new)>(s: seq<T>, p: T -> bool)
    requires forall x :: x in s ==> p(x)
    ensures Keep(s, p) == s
  {
    if s != [] {
      KeepAll(s[1..], p);
    }
  }

  /** A selection that no element passes is empty. */
  lemma {:induction false} KeepNone<T(!new)>(s: seq<T>, p: T -> bool)
    requires forall x :: x in s ==> !p(x)
    ensures Keep(s, p) == []
  {
    if s != [] {
      KeepNone(s[1..], p);
    }
  }

  /** When no two positions both satisfy `p`, the selection has at most one element. */
  lemma {:induction false} KeepAtMostOne<T(!new)>(s: seq<T>, p: T -> bool)
    requires forall i, j :: 0 <= i < j < |s| && p(s[i]) ==> !p(s[j])
    ensures |Keep(s, p)| <= 1
  {
    if s != [] {
      KeepAtMostOne(s[1..], p);
      if p(s[0]) {
        assert forall j :: 1 <= j < |s| ==> !p(s[j]);
        assert forall x :: x in s[1..] ==> !p(x);
        KeepNone(s[1..], p);
      }
    }
  }

  /** The position of the first element satisfying `p`, if any: `s[p(s)].index[0]`. */
  function FirstWhere<T>(s: seq<T>, p: T -> bool): (r: Option<nat>)
    ensures r.None? <==> forall i :: 0 <= i < |s| ==> !p(s[i])
    ensures r.Some? ==> r.value < |s| && p(s[r.value])
    ensures r.Some? ==> forall i :: 0 <= i < r.value ==> !p(s[i])
  {
    if s == [] then None
    else if p(s[0]) then Some(0)
    else
      match FirstWhere(s[1..], p)
      case None => None
      case Some(k) => Some(k + 1)
  }
}
