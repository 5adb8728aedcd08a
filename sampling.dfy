/** The null-distribution sampler: random compound combinations drawn per
    MOA-size class, screened by the same-MOA test, kept only when new, and
    checked afterwards for duplicates.

    Randomness is an explicit stream of choices (`stream: seq<nat>`); a draw
    of k compounds consumes k choices (see module Draws). The script retries
    without bound; here a loop that reaches the end of the stream returns
    `DrawsExhausted`, so every `Ok` result is what the script could return
    and the contracts are statements of partial correctness. */
module NullSampling {
  import opened Domain
  import opened Collections
  import Draws

  /** Positions `x` and `y` of `cpds` both hold compounds of MOA `moa`. */
  ghost predicate PairInMoa(cpds: seq<Compound>, moaDict: MoaDict, x: int, y: int, moa: Moa) {
    0 <= x < |cpds| && 0 <= y < |cpds| && moa in moaDict && cpds[x] in moaDict[moa] && cpds[y] in moaDict[moa]
  }

  /** Two different positions of `cpds` hold compounds of one MOA. */
  ghost predicate SameMoaPair(cpds: seq<Compound>, moaDict: MoaDict) {
    exists x, y, moa :: x < y && PairInMoa(cpds, moaDict, x, y, moa)
  }

  /** `any(c in moa_cpds for c in cpds)`. */
  predicate Overlaps(cpds: seq<Compound>, moaCpds: seq<Compound>): (b: bool)
    ensures b <==> exists c :: c in cpds && c in moaCpds
  {
    exists i :: 0 <= i < |cpds| && cpds[i] in moaCpds
  }

  /** The test of line 226. Because of `&`, a draw is rejected only when it both overlaps the
      class's compounds and holds a same-MOA pair. */
  ghost predicate Accepted(cpds: seq<Compound>, moaCpds: seq<Compound>, moaDict: MoaDict): (b: bool)
    ensures !Overlaps(cpds, moaCpds) ==> b
    ensures |cpds| < 2 ==> b
  {
    !(Overlaps(cpds, moaCpds) && SameMoaPair(cpds, moaDict))
  }

  /** A list `get_random_cpds` may return for a class of size `size`. */
  ghost predicate IsNullSample(cpds: seq<Compound>, size: int, moaCpds: seq<Compound>, pool: seq<Compound>, moaDict: MoaDict) {
    |cpds| == size && multiset(cpds) <= multiset(pool) && Accepted(cpds, moaCpds, moaDict)
  }

  /** `check_similar_cpds`: whether two positions of `cpds` hold compounds of one MOA. */
  method CheckSimilarCpds(cpds: seq<Compound>, moaDict: MoaDict) returns (similar: bool)
    ensures similar <==> SameMoaPair(cpds, moaDict)
  {
    for x := 0 to |cpds|
      invariant forall x', y, moa :: x' < x && x' < y ==> !PairInMoa(cpds, moaDict, x', y, moa)
    {
      for y := x + 1 to |cpds|
        invariant forall x', y', moa :: x' < x && x' < y' ==> !PairInMoa(cpds, moaDict, x', y', moa)
        invariant forall y', moa :: x < y' < y ==> !PairInMoa(cpds, moaDict, x, y', moa)
      {
        var keys := moaDict.Keys;
        while keys != {}
          invariant keys <= moaDict.Keys
          invariant forall moa :: moa !in keys ==> !PairInMoa(cpds, moaDict, x, y, moa)
          decreases keys
        {
          var moa :| moa in keys;
          if cpds[x] in moaDict[moa] && cpds[y] in moaDict[moa] {
            assert PairInMoa(cpds, moaDict, x, y, moa);
            return true;
          }
          keys := keys - {moa};
        }
      }
    }
    return false;
  }

  /** A list of fewer than two compounds has no same-MOA pair. */
  lemma ShortListsHaveNoSameMoaPair(cpds: seq<Compound>, moaDict: MoaDict)
    requires |cpds| < 2
    ensures !SameMoaPair(cpds, moaDict)
  {
  }

  /** One pass of the loop of `get_random_cpds`: a draw and the test of line 226. */
  method DrawOnce(allCpds: seq<Compound>, block: seq<nat>, moaCpds: seq<Compound>, allMoaCpds: MoaDict)
    returns (randomCpds: seq<Compound>, accepted: bool)
    requires |block| <= |allCpds|
    ensures randomCpds == Draws.Sample(allCpds, block)
    ensures accepted <==> Accepted(randomCpds, moaCpds, allMoaCpds)
  {
    randomCpds := Draws.Sample(allCpds, block);
    var overlapping := Overlaps(randomCpds, moaCpds);
    var similar := CheckSimilarCpds(randomCpds, allMoaCpds);
    accepted := !(overlapping && similar);
  }

  /** What `get_random_cpds` does for a size `k` the pool allows: read `k` choices, draw, and
      stop at the first draw that passes the test of line 226; the second component is the
      part of the stream left unread. */
  ghost function DrawUntilAccepted(pool: seq<Compound>, k: nat, moaCpds: seq<Compound>, moaDict: MoaDict, stream: seq<nat>): (outcome: (Result<seq<Compound>>, seq<nat>))
    requires k <= |pool|
    ensures outcome.0.Err? ==> outcome.0.error == DrawsExhausted
    ensures |outcome.1| <= |stream|
    decreases |stream|
  {
    if |stream| < k then (Err(DrawsExhausted), stream)
    else
      var draw := Draws.Sample(pool, stream[..k]);
      if Accepted(draw, moaCpds, moaDict) then (Ok(draw), stream[k..])
      else
        // the empty draw overlaps nothing, so a rejected draw has read at least one choice
        assert k != 0;
        DrawUntilAccepted(pool, k, moaCpds, moaDict, stream[k..])
  }

  /** `get_random_cpds`: draws `moaSize` compounds of `allCpds` until a draw passes the test of
      line 226. */
  method GetRandomCpds(allCpds: seq<Compound>, moaSize: int, moaCpds: seq<Compound>, allMoaCpds: MoaDict, stream: seq<nat>)
    returns (r: Result<seq<Compound>>, rest: seq<nat>)
    ensures !(0 <= moaSize <= |allCpds|) ==> r == Err(SampleLargerThanPopulation) && rest == stream
    ensures 0 <= moaSize <= |allCpds| ==> (r, rest) == DrawUntilAccepted(allCpds, moaSize, moaCpds, allMoaCpds, stream)
  {
    if !(0 <= moaSize <= |allCpds|) {
      return Err(SampleLargerThanPopulation), stream;
    }
    var k: nat := moaSize;
    rest := stream;
    while true
      invariant DrawUntilAccepted(allCpds, k, moaCpds, allMoaCpds, rest) == DrawUntilAccepted(allCpds, k, moaCpds, allMoaCpds, stream)
      decreases |rest|
    {
      if |rest| < k {
        return Err(DrawsExhausted), rest;
      }
      var randomCpds, accepted := DrawOnce(allCpds, rest[..k], moaCpds, allMoaCpds);
      if accepted {
        return Ok(randomCpds), rest[k..];
      }
      rest := rest[k..];
    }
  }

  /** A draw `get_random_cpds` returns has the requested size, is taken from the pool, passes
      the test of line 226 and, when the pool is duplicate-free, is too; the stream is read
      from the front, `k` choices or more on success. */
  lemma {:induction false} DrawUntilAcceptedYieldsNullSample(pool: seq<Compound>, k: nat, moaCpds: seq<Compound>, moaDict: MoaDict, stream: seq<nat>)
    requires k <= |pool|
    ensures var (r, rest) := DrawUntilAccepted(pool, k, moaCpds, moaDict, stream);
            && SuffixOf(rest, stream)
            && (r.Ok? ==> IsNullSample(r.value, k, moaCpds, pool, moaDict) && |rest| + k <= |stream|)
            && (r.Ok? && Distinct(pool) ==> Distinct(r.value))
            && (r.Err? ==> r.error == DrawsExhausted && |rest| < k)
    decreases |stream|
  {
    if |stream| >= k {
      var draw := Draws.Sample(pool, stream[..k]);
      if Accepted(draw, moaCpds, moaDict) {
        Draws.SampleWithinPool(pool, stream[..k]);
        if Distinct(pool) {
          SubMultisetOfDistinct(draw, pool);
        }
      } else {
        DrawUntilAcceptedYieldsNullSample(pool, k, moaCpds, moaDict, stream[k..]);
        SuffixOfTransitive(DrawUntilAccepted(pool, k, moaCpds, moaDict, stream[k..]).1, stream[k..], stream);
      }
    }
  }

  /** Conversely, every list of distinct pool positions that passes the test of line 226 is
      what `get_random_cpds` returns for some stream of choices. */
  lemma EveryNullSampleIsDrawn(pool: seq<Compound>, cpds: seq<Compound>, moaCpds: seq<Compound>, moaDict: MoaDict)
    requires IsNullSample(cpds, |cpds|, moaCpds, pool, moaDict)
    ensures |cpds| <= |pool|
    ensures exists stream :: DrawUntilAccepted(pool, |cpds|, moaCpds, moaDict, stream).0 == Ok(cpds)
  {
    Draws.EverySelectionIsDrawable(pool, cpds);
    var choices :| |choices| == |cpds| && Draws.Sample(pool, choices) == cpds;
    assert choices[..|cpds|] == choices;
    assert DrawUntilAccepted(pool, |cpds|, moaCpds, moaDict, choices).0 == Ok(cpds);
  }

  /** The inner `while (start_again)` loop of `get_null_distribution_cpds`: calls
      `get_random_cpds` until it returns a list not kept yet. */
  method DrawUnseen(cpdsList: seq<Compound>, size: int, moaCpds: seq<Compound>, allMoaDict: MoaDict, kept: seq<seq<Compound>>, stream: seq<nat>)
    returns (r: Result<seq<Compound>>, rest: seq<nat>)
    ensures SuffixOf(rest, stream)
    ensures r == Err(SampleLargerThanPopulation) <==> !(0 <= size <= |cpdsList|)
    ensures r.Err? ==> r.error != UnboundLocal
    ensures r.Ok? ==> IsNullSample(r.value, size, moaCpds, cpdsList, allMoaDict) && r.value !in kept
  {
    rest := stream;
    while true
      invariant SuffixOf(rest, stream)
      decreases |rest|
    {
      var randCpds, after := GetRandomCpds(cpdsList, size, moaCpds, allMoaDict, rest);
      if 0 <= size <= |cpdsList| {
        DrawUntilAcceptedYieldsNullSample(cpdsList, size, moaCpds, allMoaDict, rest);
      }
      SuffixOfTransitive(after, rest, stream);
      if randCpds.Err? || randCpds.value !in kept {
        return randCpds, after;
      }
      if size == 0 {
        // the only draw of size 0 is [], and drawing it reads no choice: the script loops
        // forever, which no finite stream can finish
        return Err(DrawsExhausted), after;
      }
      rest := after;
    }
  }

  /** One size class of the null distribution: `randNum` pairwise different lists (compared
      as ordered lists), each a list `get_random_cpds` may return. */
  ghost predicate NullClass(lists: seq<seq<Compound>>, size: int, moaCpds: seq<Compound>, pool: seq<Compound>, moaDict: MoaDict, randNum: int) {
    && |lists| == (if randNum < 0 then 0 else randNum)
    && (forall i :: 0 <= i < |lists| ==> IsNullSample(lists[i], size, moaCpds, pool, moaDict))
    && Distinct(lists)
  }

  /** `get_null_distribution_cpds`: for every MOA size, `randNum` accepted draws, each one
      retried until it differs from those already kept. */
  method GetNullDistributionCpds(moaSizeDict: map<int, seq<Compound>>, cpdsList: seq<Compound>, allMoaDict: MoaDict, randNum: int, stream: seq<nat>)
    returns (r: Result<map<int, seq<seq<Compound>>>>, rest: seq<nat>)
    ensures SuffixOf(rest, stream)
    ensures r.Err? ==> r.error == SampleLargerThanPopulation || r.error == DrawsExhausted
    ensures r.Ok? ==> r.value.Keys == moaSizeDict.Keys
    ensures r.Ok? ==> forall size :: size in r.value ==> NullClass(r.value[size], size, moaSizeDict[size], cpdsList, allMoaDict, randNum)
    ensures randNum <= 0 ==> r.Ok?
    ensures r == Err(SampleLargerThanPopulation) ==> randNum > 0 && exists size :: size in moaSizeDict && !(0 <= size <= |cpdsList|)
    ensures randNum > 0 && (exists size :: size in moaSizeDict && !(0 <= size <= |cpdsList|)) ==> r.Err?
  {
    var nullDistributionMoa: map<int, seq<seq<Compound>>> := map[];
    var sizes := moaSizeDict.Keys;
    rest := stream;
    while sizes != {}
      invariant sizes <= moaSizeDict.Keys
      invariant nullDistributionMoa.Keys == moaSizeDict.Keys - sizes
      invariant forall size :: size in nullDistributionMoa ==> NullClass(nullDistributionMoa[size], size, moaSizeDict[size], cpdsList, allMoaDict, randNum)
      invariant randNum > 0 ==> forall size :: size in nullDistributionMoa ==> 0 <= size <= |cpdsList|
      invariant SuffixOf(rest, stream)
      decreases sizes
    {
      var size := Pick(sizes);
      var moaCpds := moaSizeDict[size];
      var moaCpdsList: seq<seq<Compound>> := [];
      var idx := 0;
      while idx < randNum
        invariant 0 <= idx <= (if randNum < 0 then 0 else randNum)
        invariant |moaCpdsList| == idx
        invariant Distinct(moaCpdsList)
        invariant forall i :: 0 <= i < idx ==> IsNullSample(moaCpdsList[i], size, moaCpds, cpdsList, allMoaDict)
        invariant idx > 0 ==> 0 <= size <= |cpdsList|
        invariant SuffixOf(rest, stream)
        decreases randNum - idx
      {
        var randCpds, after := DrawUnseen(cpdsList, size, moaCpds, allMoaDict, moaCpdsList, rest);
        SuffixOfTransitive(after, rest, stream);
        rest := after;
        if randCpds.Err? {
          assert size in moaSizeDict;
          return Err(randCpds.error), rest;
        }
        DistinctAppend(moaCpdsList, randCpds.value);
        moaCpdsList := moaCpdsList + [randCpds.value];
        idx := idx + 1;
      }
      assert NullClass(moaCpdsList, size, moaCpds, cpdsList, allMoaDict, randNum);
      nullDistributionMoa := nullDistributionMoa[size := moaCpdsList];
      sizes := sizes - {size};
    }
    r := Ok(nullDistributionMoa);
  }

  /** `list(filter(lambda l: l != cpds_moa, null_dist))` is one shorter than `null_dist`
      exactly when `cpds_moa`, which occurs in it, occurs once. */
  predicate LastRepeated(lists: seq<seq<Compound>>): (b: bool)
    requires lists != []
    ensures b <==> |RemoveAll(lists, Last(lists))| != |lists| - 1
  {
    multiset(lists)[Last(lists)] > 1
  }

  /** What `assert_null_distribution` reports when every class is non-empty: because
      `cpds_duplicates` is reset for every list, a class is reported only when its LAST list
      occurs more than once, and then with that list alone. */
  function ReportedDuplicates(nullDistributionMoa: map<int, seq<seq<Compound>>>): (reported: map<int, seq<seq<Compound>>>)
    ensures reported.Keys <= nullDistributionMoa.Keys
    ensures forall key :: key in reported ==> |reported[key]| == 1 && reported[key][0] in nullDistributionMoa[key]
  {
    map key | key in nullDistributionMoa && nullDistributionMoa[key] != [] && LastRepeated(nullDistributionMoa[key])
      :: [Last(nullDistributionMoa[key])]
  }

  /** The inner loop of `assert_null_distribution` over one class: `cpds_duplicates` is reset
      for every list, so what it holds afterwards depends on the last list alone; a class
      without lists leaves the previous value `carried` in place. */
  method ScanClass(nullDist: seq<seq<Compound>>, carried: seq<seq<Compound>>) returns (cpdsDuplicates: seq<seq<Compound>>)
    ensures nullDist == [] ==> cpdsDuplicates == carried
    ensures nullDist != [] ==> cpdsDuplicates == if LastRepeated(nullDist) then [Last(nullDist)] else []
  {
    cpdsDuplicates := carried;
    for i := 0 to |nullDist|
      invariant i > 0 ==> cpdsDuplicates == if multiset(nullDist)[nullDist[i - 1]] > 1 then [nullDist[i - 1]] else []
      invariant i == 0 ==> cpdsDuplicates == carried
    {
      var cpdsMoa := nullDist[i];
      cpdsDuplicates := [];
      var newList := RemoveAll(nullDist, cpdsMoa);
      if |newList| != |nullDist| - 1 {
        cpdsDuplicates := cpdsDuplicates + [cpdsMoa];
      }
    }
  }

  /** The map the outer loop of `assert_null_distribution` builds is `ReportedDuplicates`
      once it agrees with it class by class. */
  lemma ReportedDuplicatesByClass(nullDistributionMoa: map<int, seq<seq<Compound>>>, duplicatesMoa: map<int, seq<seq<Compound>>>)
    requires duplicatesMoa.Keys <= nullDistributionMoa.Keys
    requires forall key :: key in nullDistributionMoa ==> nullDistributionMoa[key] != []
    requires forall key :: key in nullDistributionMoa ==>
               (key in duplicatesMoa <==> LastRepeated(nullDistributionMoa[key]))
               && (key in duplicatesMoa ==> duplicatesMoa[key] == [Last(nullDistributionMoa[key])])
    ensures duplicatesMoa == ReportedDuplicates(nullDistributionMoa)
  {
    var reported := ReportedDuplicates(nullDistributionMoa);
    forall key
      ensures key in duplicatesMoa <==> key in reported
    {
      if key in nullDistributionMoa {
        assert key in reported <==> LastRepeated(nullDistributionMoa[key]);
      }
    }
    forall key | key in duplicatesMoa
      ensures duplicatesMoa[key] == reported[key]
    {
      assert reported[key] == [Last(nullDistributionMoa[key])];
    }
  }

  /** `assert_null_distribution`. A class with no list leaves `cpds_duplicates` as the
      previous class left it, and raises UnboundLocalError when no class came before it. */
  method AssertNullDistribution(nullDistributionMoa: map<int, seq<seq<Compound>>>) returns (r: Result<map<int, seq<seq<Compound>>>>)
    ensures r.Err? ==> r.error == UnboundLocal && exists key :: key in nullDistributionMoa && nullDistributionMoa[key] == []
    ensures (forall key :: key in nullDistributionMoa ==> nullDistributionMoa[key] != []) ==> r == Ok(ReportedDuplicates(nullDistributionMoa))
    ensures nullDistributionMoa != map[] && (forall key :: key in nullDistributionMoa ==> nullDistributionMoa[key] == []) ==> r == Err(UnboundLocal)
    ensures r.Ok? ==> r.value.Keys <= nullDistributionMoa.Keys
    ensures r.Ok? ==> forall key :: key in r.value ==> |r.value[key]| == 1
    ensures r.Ok? ==> forall key :: key in nullDistributionMoa && nullDistributionMoa[key] != [] ==>
              (key in r.value <==> LastRepeated(nullDistributionMoa[key]))
              && (key in r.value ==> r.value[key] == [Last(nullDistributionMoa[key])])
  {
    var duplicatesMoa: map<int, seq<seq<Compound>>> := map[];
    var cpdsDuplicates: seq<seq<Compound>> := [];
    var bound := false;  // whether the name `cpds_duplicates` has been assigned yet
    var keys := nullDistributionMoa.Keys;
    while keys != {}
      invariant keys <= nullDistributionMoa.Keys
      invariant duplicatesMoa.Keys <= nullDistributionMoa.Keys - keys
      invariant forall key :: key in duplicatesMoa ==> |duplicatesMoa[key]| == 1
      invariant |cpdsDuplicates| <= 1
      invariant keys != nullDistributionMoa.Keys ==> bound
      invariant keys == nullDistributionMoa.Keys ==> !bound
      invariant (forall key :: key in nullDistributionMoa ==> nullDistributionMoa[key] == []) ==> keys == nullDistributionMoa.Keys
      invariant forall key :: key in nullDistributionMoa && key !in keys && nullDistributionMoa[key] != [] ==>
                  (key in duplicatesMoa <==> LastRepeated(nullDistributionMoa[key]))
                  && (key in duplicatesMoa ==> duplicatesMoa[key] == [Last(nullDistributionMoa[key])])
      decreases keys
    {
      var key := Pick(keys);
      var nullDist := nullDistributionMoa[key];
      cpdsDuplicates := ScanClass(nullDist, cpdsDuplicates);
      bound := bound || nullDist != [];
      if !bound {
        return Err(UnboundLocal);
      }
      if cpdsDuplicates != [] {
        duplicatesMoa := duplicatesMoa[key := cpdsDuplicates];
      }
      keys := keys - {key};
    }
    if forall key :: key in nullDistributionMoa ==> nullDistributionMoa[key] != [] {
      ReportedDuplicatesByClass(nullDistributionMoa, duplicatesMoa);
    }
    return Ok(duplicatesMoa);
  }

  /** The lists of `s` that occur more than once in `whole`, in the order of `s`. */
  function RepeatedIn(s: seq<seq<Compound>>, whole: seq<seq<Compound>>): (r: seq<seq<Compound>>)
    ensures forall l :: l in r <==> l in s && multiset(whole)[l] > 1
    decreases |s|
  {
    if s == [] then []
    else
      assert s == [s[0]] + s[1..];
      (if multiset(whole)[s[0]] > 1 then [s[0]] else []) + RepeatedIn(s[1..], whole)
  }

  /** What the docstring of `assert_null_distribution` describes: every class mapped to the
      lists that occur in it more than once, classes without any left out. */
  function IntendedDuplicates(nullDistributionMoa: map<int, seq<seq<Compound>>>): (duplicates: map<int, seq<seq<Compound>>>)
    ensures duplicates.Keys <= nullDistributionMoa.Keys
    ensures forall key, l :: key in duplicates ==> (l in duplicates[key] <==> l in nullDistributionMoa[key] && multiset(nullDistributionMoa[key])[l] > 1)
  {
    map key | key in nullDistributionMoa && RepeatedIn(nullDistributionMoa[key], nullDistributionMoa[key]) != []
      :: RepeatedIn(nullDistributionMoa[key], nullDistributionMoa[key])
  }

  /** The intended check reports a class exactly when the class holds a list twice. */
  lemma IntendedDuplicatesFindsEveryRepeat(nullDistributionMoa: map<int, seq<seq<Compound>>>)
    ensures forall key :: key in IntendedDuplicates(nullDistributionMoa) <==> key in nullDistributionMoa && !Distinct(nullDistributionMoa[key])
  {
    forall key | key in nullDistributionMoa
      ensures key in IntendedDuplicates(nullDistributionMoa) <==> !Distinct(nullDistributionMoa[key])
    {
      var lists := nullDistributionMoa[key];
      DistinctIffSingleOccurrences(lists);
      if !Distinct(lists) {
        var l :| multiset(lists)[l] > 1;
        assert l in lists;
      }
      if key in IntendedDuplicates(nullDistributionMoa) {
        var l := RepeatedIn(lists, lists)[0];
        assert l in RepeatedIn(lists, lists);
      }
    }
  }

  /** A null distribution `get_null_distribution_cpds` may return, for `randNum > 0`, makes
      `assert_null_distribution` find nothing. */
  lemma NullDistributionHasNoReportedDuplicates(dist: map<int, seq<seq<Compound>>>, moaSizeDict: map<int, seq<Compound>>, pool: seq<Compound>, moaDict: MoaDict, randNum: int)
    requires randNum > 0
    requires dist.Keys == moaSizeDict.Keys
    requires forall size :: size in dist ==> NullClass(dist[size], size, moaSizeDict[size], pool, moaDict, randNum)
    ensures forall size :: size in dist ==> dist[size] != []
    ensures ReportedDuplicates(dist) == map[]
    ensures IntendedDuplicates(dist) == map[]
  {
    forall size | size in dist
      ensures dist[size] != [] && !LastRepeated(dist[size])
    {
      DistinctIffSingleOccurrences(dist[size]);
    }
    assert ReportedDuplicates(dist).Keys == {};
    IntendedDuplicatesFindsEveryRepeat(dist);
    assert IntendedDuplicates(dist).Keys == {};
  }

  /** For `randNum <= 0` every class of the null distribution is empty, so
      `assert_null_distribution` raises UnboundLocalError on any non-empty map of them. */
  lemma NonPositiveRandNumGivesEmptyClasses(dist: map<int, seq<seq<Compound>>>, moaSizeDict: map<int, seq<Compound>>, pool: seq<Compound>, moaDict: MoaDict, randNum: int)
    requires randNum <= 0
    requires dist.Keys == moaSizeDict.Keys
    requires forall size :: size in dist ==> NullClass(dist[size], size, moaSizeDict[size], pool, moaDict, randNum)
    ensures forall size :: size in dist ==> dist[size] == []
  {
  }

  /** Only the conjunction is screened out: compounds of one MOA pass when none of them is in
      the class's compound list. */
  lemma SameMoaPairPassesWithoutOverlap()
    ensures var moaDict := map["m" := ["a", "b"]];
            SameMoaPair(["a", "b"], moaDict) && Accepted(["a", "b"], [], moaDict)
  {
    assert PairInMoa(["a", "b"], map["m" := ["a", "b"]], 0, 1, "m");
  }

  /** Distinctness is that of ordered lists: a class may hold two orderings of one compound set. */
  lemma PermutedDrawsAreBothKept()
    ensures var lists := [["a", "b"], ["b", "a"]];
            NullClass(lists, 2, [], ["a", "b"], map[], 2) && multiset(lists[0]) == multiset(lists[1])
  {
    var lists := [["a", "b"], ["b", "a"]];
    assert lists[0] != lists[1] by {
      assert lists[0][0] != lists[1][0];
    }
  }

  /** A list repeated before the last place of its class goes unreported. */
  lemma EarlierDuplicateGoesUnreported()
    ensures var lists := [["a"], ["a"], ["b"]];
            !Distinct(lists) && ReportedDuplicates(map[1 := lists]) == map[] && 1 in IntendedDuplicates(map[1 := lists])
  {
    var lists := [["a"], ["a"], ["b"]];
    assert lists[0] == lists[1];
    assert ["a"] != ["b"] by {
      assert ["a"][0] != ["b"][0];
    }
    assert multiset(lists)[["b"]] == 1;
    assert !LastRepeated(lists);
    IntendedDuplicatesFindsEveryRepeat(map[1 := lists]);
  }
}
