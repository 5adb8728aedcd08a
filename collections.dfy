/** Sequence and set helpers shared by the model: duplicate-freedom, pandas'
    `unique()`, Python's `list(set(...))` and the list filters the script
    writes as comprehensions. */
module Collections {

  /** No element of `s` occurs twice. */
  predicate Distinct<T(==)>(s: seq<T>) {
    forall i, j :: 0 <= i < j < |s| ==> s[i] != s[j]
  }

  function Last<T>(s: seq<T>): T
    requires s != []
  {
    s[|s| - 1]
  }

  /** Duplicate-freedom is the same as every element occurring at most once. */
  lemma {:induction false} DistinctIffSingleOccurrences<T>(s: seq<T>)
    ensures Distinct(s) <==> forall x :: multiset(s)[x] <= 1
    decreases |s|
  {
    if s != [] {
      var p, y := s[..|s| - 1], Last(s);
      assert s == p + [y];
      assert multiset(s) == multiset(p) + multiset{y};
      DistinctIffSingleOccurrences(p);
      if Distinct(s) {
        assert y !in p;
        forall x
          ensures multiset(s)[x] <= 1
        {
          if x == y {
            assert multiset(p)[y] == 0;
          }
        }
      }
      if forall x :: multiset(s)[x] <= 1 {
        forall x
          ensures multiset(p)[x] <= 1
        {
          assert multiset(s)[x] >= multiset(p)[x];
        }
        assert multiset(s)[y] == multiset(p)[y] + 1;
        assert y !in p;
        forall i, j | 0 <= i < j < |s|
          ensures s[i] != s[j]
        {
          assert s[i] == p[i];
          if j < |p| {
            assert s[j] == p[j];
          }
        }
      }
    }
  }

  /** Some element of a non-empty set. Which one is deliberately left open, so the model
      does not fix the order in which the script visits a dict's keys. */
  method Pick<T>(s: set<T>) returns (x: T)
    requires s != {}
    ensures x in s
  {
    x :| x in s;
  }

  /** Appending an element not yet present keeps a sequence duplicate-free. */
  lemma DistinctAppend<T>(s: seq<T>, x: T)
    requires Distinct(s) && x !in s
    ensures Distinct(s + [x])
  {
  }

  /** `rest` is what remains of `stream` once a prefix of it has been read. */
  predicate SuffixOf<T(==)>(rest: seq<T>, stream: seq<T>) {
    |rest| <= |stream| && rest == stream[|stream| - |rest|..]
  }

  lemma SuffixOfTransitive<T>(a: seq<T>, b: seq<T>, c: seq<T>)
    requires SuffixOf(a, b) && SuffixOf(b, c)
    ensures SuffixOf(a, c)
  {
  }

  /** A sequence whose multiset fits inside that of a duplicate-free one is itself duplicate-free. */
  lemma SubMultisetOfDistinct<T>(r: seq<T>, pool: seq<T>)
    requires Distinct(pool)
    requires multiset(r) <= multiset(pool)
    ensures Distinct(r)
  {
    DistinctIffSingleOccurrences(pool);
    DistinctIffSingleOccurrences(r);
    forall x
      ensures multiset(r)[x] <= 1
    {
      assert multiset(r)[x] <= multiset(pool)[x];
    }
  }

  /** pandas' `Series.unique()`: the elements of `s`, each once, in order of first appearance. */
  function Unique<T(==,!new)>(s: seq<T>): (u: seq<T>)
    ensures Distinct(u)
    ensures forall x :: x in u <==> x in s
    decreases |s|
  {
    if s == [] then []
    else
      var p := s[..|s| - 1];
      assert s == p + [Last(s)];
      var u := Unique(p);
      if Last(s) in u then u else u + [Last(s)]
  }

  /** `[x for x in s if x in keep]`. */
  function Filter<T(==,!new)>(s: seq<T>, keep: seq<T>): (r: seq<T>)
    ensures forall x :: x in r <==> x in s && x in keep
    ensures Distinct(s) ==> Distinct(r)
    decreases |s|
  {
    if s == [] then []
    else
      assert s == [s[0]] + s[1..];
      var tail := Filter(s[1..], keep);
      if s[0] in keep then [s[0]] + tail else tail
  }

  /** `list(filter(lambda y: y != x, s))`: its length tells how often `x` occurs. */
  function RemoveAll<T(==)>(s: seq<T>, x: T): (r: seq<T>)
    ensures |r| == |s| - multiset(s)[x]
    ensures x !in r
    decreases |s|
  {
    if s == [] then []
    else
      assert s == [s[0]] + s[1..];
      (if s[0] == x then [] else [s[0]]) + RemoveAll(s[1..], x)
  }

  /** `list(set(xs))`: every element of the set once, in an order the model leaves open
      (Python's set iteration order is not specified). */
  method SetToSeq<T(==)>(xs: set<T>) returns (s: seq<T>)
    ensures Distinct(s)
    ensures forall x :: x in s <==> x in xs
  {
    s := [];
    var rest := xs;
    while rest != {}
      invariant rest <= xs
      invariant Distinct(s)
      invariant forall x :: x in s <==> x in xs - rest
      decreases rest
    {
      var x :| x in rest;
      assert x !in s;
      s := s + [x];
      rest := rest - {x};
    }
  }
}
