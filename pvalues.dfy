/** The non-parametric p-values: for every MOA and dose, the fraction of the
    null-distribution median scores of its size class that reach the MOA's own
    median score. The score of a compound list is left abstract (a function
    argument standing for `get_cpd_agg`, the Spearman correlation and the
    median); the model keeps the shapes and the counting. */
module PValues {
  import opened Domain
  import opened Collections
  import Strings

  /** How many of `scores` are `>= actual` (`numpy.sum(scores >= actual)`). */
  function Count(scores: seq<real>, actual: real): (n: nat)
    ensures n <= |scores|
    decreases |scores|
  {
    if scores == [] then 0
    else (if scores[0] >= actual then 1 else 0) + Count(scores[1..], actual)
  }

  /** Every score reaches `actual`: the count is the whole length. */
  lemma {:induction false} CountWhenAllReach(scores: seq<real>, actual: real)
    requires forall i :: 0 <= i < |scores| ==> actual <= scores[i]
    ensures Count(scores, actual) == |scores|
    decreases |scores|
  {
    if scores != [] {
      CountWhenAllReach(scores[1..], actual);
    }
  }

  /** No score reaches `actual`: the count is zero. */
  lemma {:induction false} CountWhenNoneReach(scores: seq<real>, actual: real)
    requires forall i :: 0 <= i < |scores| ==> scores[i] < actual
    ensures Count(scores, actual) == 0
    decreases |scores|
  {
    if scores != [] {
      CountWhenNoneReach(scores[1..], actual);
    }
  }

  /** A larger threshold is reached by no more scores. */
  lemma {:induction false} CountAntitone(scores: seq<real>, lower: real, higher: real)
    requires lower <= higher
    ensures Count(scores, higher) <= Count(scores, lower)
    decreases |scores|
  {
    if scores != [] {
      CountAntitone(scores[1..], lower, higher);
    }
  }

  /** The quotient numpy computes: a fraction, or NaN for 0/0. */
  datatype PValue = Fraction(value: real) | NotANumber

  /** `get_p_value` once `actual_med` has been looked up. */
  function PValueOf(medianScoresList: seq<real>, actualMed: real): (p: PValue)
    ensures p.NotANumber? <==> medianScoresList == []
    ensures p.Fraction? ==> 0.0 <= p.value <= 1.0
    ensures p.Fraction? ==> p.value * |medianScoresList| as real == Count(medianScoresList, actualMed) as real
  {
    if medianScoresList == [] then NotANumber
    else Fraction(Count(medianScoresList, actualMed) as real / |medianScoresList| as real)
  }

  /** The p-value is 1 when the observed score is at most every null score. */
  lemma PValueIsOneBelowAll(medianScoresList: seq<real>, actualMed: real)
    requires medianScoresList != []
    requires forall i :: 0 <= i < |medianScoresList| ==> actualMed <= medianScoresList[i]
    ensures PValueOf(medianScoresList, actualMed) == Fraction(1.0)
  {
    CountWhenAllReach(medianScoresList, actualMed);
  }

  /** The p-value is 0 when the observed score exceeds every null score. */
  lemma PValueIsZeroAboveAll(medianScoresList: seq<real>, actualMed: real)
    requires medianScoresList != []
    requires forall i :: 0 <= i < |medianScoresList| ==> medianScoresList[i] < actualMed
    ensures PValueOf(medianScoresList, actualMed) == Fraction(0.0)
  {
    CountWhenNoneReach(medianScoresList, actualMed);
  }

  /** The p-value does not grow as the observed score grows. */
  lemma PValueAntitone(medianScoresList: seq<real>, lower: real, higher: real)
    requires medianScoresList != [] && lower <= higher
    ensures PValueOf(medianScoresList, higher).value <= PValueOf(medianScoresList, lower).value
  {
    CountAntitone(medianScoresList, lower, higher);
    var n := |medianScoresList| as real;
    DivideMonotone(Count(medianScoresList, higher) as real, Count(medianScoresList, lower) as real, n);
  }

  /** Dividing by a positive number keeps the order. */
  lemma DivideMonotone(a: real, b: real, n: real)
    requires a <= b && n > 0.0
    ensures a / n <= b / n
  {
  }

  /** A row of the MOA table once indexed by MOA: its size and its median score per dose
      (`dose_1` ... `dose_6` at positions 0 ... 5). */
  datatype MoaValues = MoaValues(moaSize: int, doses: seq<real>)

  /** `get_p_value`: looks up the observed score of `moaName` at dose `dose` (1-based). */
  function GetPValue(medianScoresList: seq<real>, dfMoaValues: map<Moa, MoaValues>, dose: int, moaName: Moa): (p: PValue)
    requires moaName in dfMoaValues && 1 <= dose <= |dfMoaValues[moaName].doses|
    ensures p == PValueOf(medianScoresList, dfMoaValues[moaName].doses[dose - 1])
    ensures p.Fraction? ==> 0.0 <= p.value <= 1.0
  {
    PValueOf(medianScoresList, dfMoaValues[moaName].doses[dose - 1])
  }

  /** `calc_null_dist_median_scores`: the score of every list of one class at dose `doseNum`. */
  method CalcNullDistMedianScores(doseNum: int, moaCpdsList: seq<seq<Compound>>, score: (int, seq<Compound>) -> real)
    returns (medianCorrList: seq<real>)
    ensures |medianCorrList| == |moaCpdsList|
    ensures forall i :: 0 <= i < |moaCpdsList| ==> medianCorrList[i] == score(doseNum, moaCpdsList[i])
  {
    medianCorrList := [];
    for i := 0 to |moaCpdsList|
      invariant |medianCorrList| == i
      invariant forall j :: 0 <= j < i ==> medianCorrList[j] == score(doseNum, moaCpdsList[j])
    {
      medianCorrList := medianCorrList + [score(doseNum, moaCpdsList[i])];
    }
  }

  /** The shape `get_null_dist_median_scores` returns: the same size classes, six score lists
      per class (doses 1 to 6), one score per list of that class. */
  ghost predicate MedianScoresOf(nullDistributionMedians: map<int, seq<seq<real>>>, nullDistributionMoa: map<int, seq<seq<Compound>>>, score: (int, seq<Compound>) -> real, done: set<int>) {
    && nullDistributionMedians.Keys == done
    && forall key :: key in nullDistributionMedians ==>
         key in nullDistributionMoa
         && |nullDistributionMedians[key]| == 6
         && forall d :: 0 <= d < 6 ==>
              |nullDistributionMedians[key][d]| == |nullDistributionMoa[key]|
              && forall i :: 0 <= i < |nullDistributionMoa[key]| ==>
                   nullDistributionMedians[key][d][i] == score(d + 1, nullDistributionMoa[key][i])
  }

  /** `get_null_dist_median_scores`. */
  method GetNullDistMedianScores(nullDistributionMoa: map<int, seq<seq<Compound>>>, score: (int, seq<Compound>) -> real)
    returns (nullDistributionMedians: map<int, seq<seq<real>>>)
    ensures MedianScoresOf(nullDistributionMedians, nullDistributionMoa, score, nullDistributionMoa.Keys)
  {
    nullDistributionMedians := map[];
    var keys := nullDistributionMoa.Keys;
    while keys != {}
      invariant keys <= nullDistributionMoa.Keys
      invariant MedianScoresOf(nullDistributionMedians, nullDistributionMoa, score, nullDistributionMoa.Keys - keys)
      decreases keys
    {
      var key := Pick(keys);
      var medianScoreList: seq<seq<real>> := [];
      for num := 1 to 7
        invariant |medianScoreList| == num - 1
        invariant forall d :: 0 <= d < num - 1 ==>
                    |medianScoreList[d]| == |nullDistributionMoa[key]|
                    && forall i :: 0 <= i < |nullDistributionMoa[key]| ==>
                         medianScoreList[d][i] == score(d + 1, nullDistributionMoa[key][i])
      {
        var moaSizeMedianScores := CalcNullDistMedianScores(num, nullDistributionMoa[key], score);
        medianScoreList := medianScoreList + [moaSizeMedianScores];
      }
      nullDistributionMedians := nullDistributionMedians[key := medianScoreList];
      keys := keys - {key};
    }
  }

  /** The six p-values of one MOA: entry `d` compares its dose `d + 1` score with the null
      scores of its size class at that dose. */
  ghost predicate DosePValues(pValues: seq<PValue>, nullMedians: seq<seq<real>>, values: MoaValues) {
    |pValues| == 6 && |nullMedians| >= 6 && |values.doses| >= 6
    && forall d :: 0 <= d < 6 ==> pValues[d] == PValueOf(nullMedians[d], values.doses[d])
  }

  /** What `get_moa_p_vals` needs to index without error: six score lists for every size an
      MOA has, and six dose columns in every such row. */
  predicate WellShaped(nullDistMedian: map<int, seq<seq<real>>>, dfMoaValues: map<Moa, MoaValues>) {
    forall moa :: moa in dfMoaValues && dfMoaValues[moa].moaSize in nullDistMedian ==>
      |nullDistMedian[dfMoaValues[moa].moaSize]| >= 6 && |dfMoaValues[moa].doses| >= 6
  }

  /** The p-values of one MOA (the innermost loop of `get_moa_p_vals`). */
  method MoaDosePValues(nullMedians: seq<seq<real>>, dfMoaValues: map<Moa, MoaValues>, moa: Moa) returns (dosePValues: seq<PValue>)
    requires moa in dfMoaValues && |nullMedians| >= 6 && |dfMoaValues[moa].doses| >= 6
    ensures DosePValues(dosePValues, nullMedians, dfMoaValues[moa])
  {
    dosePValues := [];
    for num := 1 to 7
      invariant |dosePValues| == num - 1
      invariant forall d :: 0 <= d < num - 1 ==> dosePValues[d] == PValueOf(nullMedians[d], dfMoaValues[moa].doses[d])
    {
      var moaPValue := GetPValue(nullMedians[num - 1], dfMoaValues, num, moa);
      dosePValues := dosePValues + [moaPValue];
    }
  }

  /** The entries of a dict in strictly ascending key order. */
  predicate Ascending<V>(items: seq<(Moa, V)>) {
    forall i, j :: 0 <= i < j < |items| ==> Strings.Less(items[i].0, items[j].0)
  }

  /** Some entry of `items` has key `k`. */
  predicate HasKey<V>(items: seq<(Moa, V)>, k: Moa) {
    exists i :: 0 <= i < |items| && items[i].0 == k
  }

  /** Appending an entry whose key exceeds every key so far keeps the order and loses no key. */
  lemma AppendLargest<V>(items: seq<(Moa, V)>, item: (Moa, V))
    requires Ascending(items)
    requires forall i :: 0 <= i < |items| ==> Strings.Less(items[i].0, item.0)
    ensures Ascending(items + [item])
    ensures forall k :: HasKey(items, k) || k == item.0 ==> HasKey(items + [item], k)
  {
    var longer := items + [item];
    forall k | HasKey(items, k) || k == item.0
      ensures HasKey(longer, k)
    {
      if k == item.0 {
        assert longer[|items|].0 == k;
      } else {
        var i :| 0 <= i < |items| && items[i].0 == k;
        assert longer[i].0 == k;
      }
    }
  }

  /** The least key of a non-empty set of MOA names. */
  method LeastKey(keys: set<Moa>) returns (least: Moa)
    requires keys != {}
    ensures least in keys
    ensures forall k :: k in keys && k != least ==> Strings.Less(least, k)
  {
    least := Pick(keys);
    var rest := keys - {least};
    while rest != {}
      invariant rest <= keys && least in keys && least !in rest
      invariant forall k :: k in keys && k !in rest && k != least ==> Strings.Less(least, k)
      decreases rest
    {
      var k := Pick(rest);
      Strings.LessTotal(least, k);
      if Strings.Less(k, least) {
        forall k' | k' in keys && k' !in rest && k' != k
          ensures Strings.Less(k, k')
        {
          if k' != least {
            Strings.LessTransitive(k, least, k');
          }
        }
        least := k;
      }
      rest := rest - {k};
    }
  }

  /** `{key: value for key, value in sorted(d.items(), key=lambda item: item[0])}`: the same
      entries, in ascending key order. */
  method SortedItems<V>(d: map<Moa, V>) returns (items: seq<(Moa, V)>)
    ensures Ascending(items)
    ensures forall i :: 0 <= i < |items| ==> items[i].0 in d && items[i].1 == d[items[i].0]
    ensures forall k :: k in d ==> HasKey(items, k)
  {
    items := [];
    var rest := d.Keys;
    while rest != {}
      invariant rest <= d.Keys
      invariant Ascending(items)
      invariant forall i :: 0 <= i < |items| ==> items[i].0 in d && items[i].0 !in rest && items[i].1 == d[items[i].0]
      invariant forall i, k :: 0 <= i < |items| && k in rest ==> Strings.Less(items[i].0, k)
      invariant forall k :: k in d && k !in rest ==> HasKey(items, k)
      decreases rest
    {
      var least := LeastKey(rest);
      AppendLargest(items, (least, d[least]));
      items := items + [(least, d[least])];
      rest := rest - {least};
    }
  }

  /** `get_moa_p_vals`: six p-values for every MOA whose size is a key of `nullDistMedian`, in
      ascending MOA order. */
  method GetMoaPVals(nullDistMedian: map<int, seq<seq<real>>>, dfMoaValues: map<Moa, MoaValues>)
    returns (sortedNullPVals: seq<(Moa, seq<PValue>)>)
    requires WellShaped(nullDistMedian, dfMoaValues)
    ensures Ascending(sortedNullPVals)
    ensures forall i :: 0 <= i < |sortedNullPVals| ==>
              var moa := sortedNullPVals[i].0;
              moa in dfMoaValues && dfMoaValues[moa].moaSize in nullDistMedian
              && DosePValues(sortedNullPVals[i].1, nullDistMedian[dfMoaValues[moa].moaSize], dfMoaValues[moa])
    ensures forall moa :: moa in dfMoaValues && dfMoaValues[moa].moaSize in nullDistMedian ==>
              HasKey(sortedNullPVals, moa)
  {
    var nullPVals: map<Moa, seq<PValue>> := map[];
    var keys := nullDistMedian.Keys;
    while keys != {}
      invariant keys <= nullDistMedian.Keys
      invariant forall moa :: moa in nullPVals <==> moa in dfMoaValues && dfMoaValues[moa].moaSize in nullDistMedian.Keys - keys
      invariant forall moa :: moa in nullPVals ==> DosePValues(nullPVals[moa], nullDistMedian[dfMoaValues[moa].moaSize], dfMoaValues[moa])
      decreases keys
    {
      var key := Pick(keys);
      var moas := set moa | moa in dfMoaValues && dfMoaValues[moa].moaSize == key;
      var done := {};
      while moas != {}
        invariant moas + done == set moa | moa in dfMoaValues && dfMoaValues[moa].moaSize == key
        invariant moas !! done
        invariant forall moa :: moa in nullPVals <==>
                    moa in dfMoaValues && (dfMoaValues[moa].moaSize in nullDistMedian.Keys - keys || moa in done)
        invariant forall moa :: moa in nullPVals ==> DosePValues(nullPVals[moa], nullDistMedian[dfMoaValues[moa].moaSize], dfMoaValues[moa])
        decreases moas
      {
        var moa := Pick(moas);
        var dosePValues := MoaDosePValues(nullDistMedian[key], dfMoaValues, moa);
        nullPVals := nullPVals[moa := dosePValues];
        moas, done := moas - {moa}, done + {moa};
      }
      keys := keys - {key};
    }
    sortedNullPVals := SortedItems(nullPVals);
  }
}
