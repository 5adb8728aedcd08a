/** `random.sample(pool, k)` as a function of the random choices it consumes.
    Each choice picks, modulo the number of positions still available, one
    position of the remaining pool, and the picked slot is refilled with the
    last remaining element (the pool variant of CPython's algorithm). The
    lemmas show that a draw is always an ordered selection of distinct
    positions and that every such selection is some draw. */
module Draws {

  /** The pool after the element at `j` was taken: the last element moves into slot `j`. */
  function Remove<T>(pool: seq<T>, j: nat): (r: seq<T>)
    requires j < |pool|
    ensures |r| == |pool| - 1
  {
    if j == |pool| - 1 then pool[..j]
    else pool[..j] + [pool[|pool| - 1]] + pool[j + 1..|pool| - 1]
  }

  /** Taking the element at `j` removes exactly one occurrence of it. */
  lemma RemoveTakesOne<T>(pool: seq<T>, j: nat)
    requires j < |pool|
    ensures multiset(Remove(pool, j)) == multiset(pool) - multiset{pool[j]}
  {
    if j == |pool| - 1 {
      LastTaken(pool);
    } else {
      MiddleTaken(pool, j);
    }
  }

  lemma LastTaken<T>(pool: seq<T>)
    requires pool != []
    ensures multiset(pool[..|pool| - 1]) == multiset(pool) - multiset{pool[|pool| - 1]}
  {
    assert pool == pool[..|pool| - 1] + [pool[|pool| - 1]];
  }

  lemma MiddleTaken<T>(pool: seq<T>, j: nat)
    requires j < |pool| - 1
    ensures multiset(pool[..j] + [pool[|pool| - 1]] + pool[j + 1..|pool| - 1]) == multiset(pool) - multiset{pool[j]}
  {
    var before, between := pool[..j], pool[j + 1..|pool| - 1];
    assert pool == before + [pool[j]] + between + [pool[|pool| - 1]];
  }

  /** The draw that the choices `choices` produce from `pool`, one element per choice. */
  function Sample<T>(pool: seq<T>, choices: seq<nat>): (r: seq<T>)
    requires |choices| <= |pool|
    ensures |r| == |choices|
    decreases |choices|
  {
    if choices == [] then []
    else
      var j := choices[0] % |pool|;
      [pool[j]] + Sample(Remove(pool, j), choices[1..])
  }

  /** A draw takes every element at most as often as the pool holds it. */
  lemma {:induction false} SampleWithinPool<T>(pool: seq<T>, choices: seq<nat>)
    requires |choices| <= |pool|
    ensures multiset(Sample(pool, choices)) <= multiset(pool)
    decreases |choices|
  {
    if choices != [] {
      var j := choices[0] % |pool|;
      var tail := Sample(Remove(pool, j), choices[1..]);
      SampleWithinPool(Remove(pool, j), choices[1..]);
      RemoveTakesOne(pool, j);
      assert multiset([pool[j]] + tail) == multiset{pool[j]} + multiset(tail);
    }
  }

  /** A draw starts with the element its first choice selects. */
  lemma SampleCons<T>(pool: seq<T>, j: nat, tail: seq<nat>, t: seq<T>)
    requires j < |pool| && |tail| < |pool|
    requires t != [] && pool[j] == t[0] && Sample(Remove(pool, j), tail) == t[1..]
    ensures Sample(pool, [j] + tail) == t
    ensures exists choices :: |choices| == |t| && Sample(pool, choices) == t
  {
    assert t == [t[0]] + t[1..];
    var choices := [j] + tail;
    ModOfSmaller(j, |pool|);
  }

  /** A position below the pool size is its own choice (Dafny's `%` needs this spelt out here). */
  lemma ModOfSmaller(j: nat, n: nat)
    requires j < n
    ensures j % n == j
  {
  }

  /** After the first element of `t` is taken from `pool`, the rest of `t` still fits. */
  lemma RestFits<T>(pool: seq<T>, j: nat, t: seq<T>)
    requires j < |pool| && t != [] && pool[j] == t[0]
    requires multiset(t) <= multiset(pool)
    ensures multiset(t[1..]) <= multiset(Remove(pool, j))
  {
    assert t == [t[0]] + t[1..];
    assert multiset(t) == multiset{t[0]} + multiset(t[1..]);
    RemoveTakesOne(pool, j);
  }

  /** Every ordered selection of distinct positions of `pool` is the draw of some choices. */
  lemma {:induction false} EverySelectionIsDrawable<T>(pool: seq<T>, t: seq<T>)
    requires multiset(t) <= multiset(pool)
    ensures |t| <= |pool|
    ensures exists choices :: |choices| == |t| && Sample(pool, choices) == t
    decreases |t|
  {
    if t == [] {
      assert Sample(pool, []) == [];
    } else {
      assert t[0] in multiset(t);
      assert t[0] in multiset(pool);
      var j :| 0 <= j < |pool| && pool[j] == t[0];
      RestFits(pool, j, t);
      EverySelectionIsDrawable(Remove(pool, j), t[1..]);
      var tail :| |tail| == |t| - 1 && Sample(Remove(pool, j), tail) == t[1..];
      SampleCons(pool, j, tail, t);
    }
  }
}
