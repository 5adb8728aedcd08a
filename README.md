# Null-distribution p-values for L1000 MOA consensus scores

This project models the bookkeeping of the notebook script
`L1000_null_p_values_calculation.py`. The script tests how similar the
compounds of each mechanism of action (MOA) are to one another. For every MOA
size class it builds a null distribution of random compound combinations and
reports, per MOA and per dose (1 to 6), the fraction of null median scores that
reach the MOA's own median score.

The model has seven modules:

- `Tables` (tables.dfy)
  - the compounds measured at all six doses (`cpds_found_in_all_doses`);
  - the MOA-to-compounds dictionary (`all_moa_dict`);
  - the in-place splitting of the `moa_cpds_*` columns (`conv_cols_to_list`, a class over the dataframe);
  - the MOA-size classes (`generate_moa_size_dict`).
- `NullSampling` (sampling.dfy)
  - the same-MOA test (`check_similar_cpds`);
  - the rejection sampler (`get_random_cpds`);
  - the per-class collection of distinct draws (`get_null_distribution_cpds`);
  - the duplicate checker (`assert_null_distribution`).
- `PValues` (pvalues.dfy)
  - the non-parametric p-value (`get_p_value`);
  - the shape of the median-score tables (`calc_null_dist_median_scores`, `get_null_dist_median_scores`), with the score left abstract;
  - the sorted dictionary of six p-values per MOA (`get_moa_p_vals`).
- `Draws` (draws.dfy): `random.sample` as a function of the random
  choices it reads. This is the pool variant of CPython's algorithm: a choice
  picks a remaining position modulo the number left, and the last element
  fills the gap. For pools larger than a small threshold (21 elements when
  at most 5 are drawn), CPython switches to a set-based selection that retries
  a choice which hits an already-taken position. Any realistic
  `cpds_fd_in_all` exceeds that threshold. So the model claims only that the
  set of possible draws matches (`SampleWithinPool`, `EverySelectionIsDrawable`),
  not how many choices a draw reads. The module proves that a draw never takes
  an element more often than the pool holds it, and that every such selection
  is some draw.
- `Collections`, `Strings`, `Domain`: `unique()`, `list(set(...))`,
  `str.split`, Python's string order, and the shared vocabulary and error type.

How randomness is modelled:

- The random source is an explicit finite stream of choices.
- A rejection loop that reaches the end of the stream returns `DrawsExhausted`.
- So every `Ok` result is one the script can produce, and the contracts state
  partial correctness without any bound on retries.
- Iteration order is left open on purpose: a `Pick` may return any element.
  Python dicts iterate in insertion order, which the model does not track,
  and set order is unspecified.

Where the code and its comments disagree, the model follows the code:

- The acceptance test of `get_random_cpds` (line 226) joins its two
  conditions with `&`. A draw is rejected only when it both overlaps the
  class's compounds and holds a same-MOA pair. The docstring (lines 221-222)
  reads as if either condition alone rejected it.
  `SameMoaPairPassesWithoutOverlap` exhibits an accepted same-MOA pair.
- "Not already present" (line 248) compares ordered lists.
  `PermutedDrawsAreBothKept` shows a class holding two orderings of one
  compound set.
- `assert_null_distribution` resets `cpds_duplicates` for every list
  (line 300). So it reports a class only when the class's last list is
  repeated; see Findings.
- `assert_null_distribution` raises UnboundLocalError when the first class it
  visits has no lists (possible only with `rand_num <= 0`). A class without
  lists visited later inherits the previous class's value.

## Model

| member | source | states |
|---|---|---|
| Collections.Unique | 1.Data-exploration/Profiles_level4/Consensus/L1000/scripts/nbconverted/L1000_null_p_values_calculation.py:160 | `unique()`: duplicate-free, and holds exactly the elements of its input |
| Collections.Filter | 1.Data-exploration/Profiles_level4/Consensus/L1000/scripts/nbconverted/L1000_null_p_values_calculation.py:160-161 | the list comprehension keeps exactly the elements also in the second list; it preserves duplicate-freedom |
| Collections.SetToSeq | 1.Data-exploration/Profiles_level4/Consensus/L1000/scripts/nbconverted/L1000_null_p_values_calculation.py:127 | `list(set(xs))`: duplicate-free, with exactly the elements of the set |
| Collections.RemoveAll | 1.Data-exploration/Profiles_level4/Consensus/L1000/scripts/nbconverted/L1000_null_p_values_calculation.py:301 | `filter(lambda l: l != x, s)` removes every occurrence of x; its length drops by the number of occurrences |
| Collections.DistinctIffSingleOccurrences | 1.Data-exploration/Profiles_level4/Consensus/L1000/scripts/nbconverted/L1000_null_p_values_calculation.py:302-303 | a list is duplicate-free iff every element occurs at most once, the fact the length test in `assert_null_distribution` relies on |
| Strings.Split | 1.Data-exploration/Profiles_level4/Consensus/L1000/scripts/nbconverted/L1000_null_p_values_calculation.py:84 | `split(';')` gives at least one piece, and no piece contains the separator |
| Strings.SplitJoin | 1.Data-exploration/Profiles_level4/Consensus/L1000/scripts/nbconverted/L1000_null_p_values_calculation.py:84 | splitting the separator-joined pieces gives the pieces back |
| Strings.JoinSplit | 1.Data-exploration/Profiles_level4/Consensus/L1000/scripts/nbconverted/L1000_null_p_values_calculation.py:84 | joining the pieces of a split with the separator gives the cell back |
| Strings.LessIrreflexive | 1.Data-exploration/Profiles_level4/Consensus/L1000/scripts/nbconverted/L1000_null_p_values_calculation.py:399 | the string order used to sort MOA names is irreflexive |
| Strings.LessTransitive | 1.Data-exploration/Profiles_level4/Consensus/L1000/scripts/nbconverted/L1000_null_p_values_calculation.py:399 | the string order is transitive |
| Strings.LessTotal | 1.Data-exploration/Profiles_level4/Consensus/L1000/scripts/nbconverted/L1000_null_p_values_calculation.py:399 | any two different strings are ordered one way or the other |
| Strings.StartsWith | 1.Data-exploration/Profiles_level4/Consensus/L1000/scripts/nbconverted/L1000_null_p_values_calculation.py:82 | `col.startswith("moa_cpds_")`: the prefix fits in the name and equals its first characters |
| Strings.Less | 1.Data-exploration/Profiles_level4/Consensus/L1000/scripts/nbconverted/L1000_null_p_values_calculation.py:399 | Python's `<` on `str`, which `sorted` uses: lexicographic by code point, with a proper prefix sorting first |
| Draws.Sample | 1.Data-exploration/Profiles_level4/Consensus/L1000/scripts/nbconverted/L1000_null_p_values_calculation.py:225 | a draw of k choices has exactly k elements |
| Draws.Remove | 1.Data-exploration/Profiles_level4/Consensus/L1000/scripts/nbconverted/L1000_null_p_values_calculation.py:225 | one step of CPython's pool variant of `random.sample`: the chosen slot is filled by the last element, and the pool gets one shorter (`RemoveTakesOne` states the multiset) |
| Draws.RemoveTakesOne | 1.Data-exploration/Profiles_level4/Consensus/L1000/scripts/nbconverted/L1000_null_p_values_calculation.py:225 | taking the chosen element removes exactly one occurrence of it from the pool |
| Draws.SampleWithinPool | 1.Data-exploration/Profiles_level4/Consensus/L1000/scripts/nbconverted/L1000_null_p_values_calculation.py:225 | a draw takes every element at most as often as the pool holds it, so a duplicate-free pool gives distinct elements |
| Draws.EverySelectionIsDrawable | 1.Data-exploration/Profiles_level4/Consensus/L1000/scripts/nbconverted/L1000_null_p_values_calculation.py:225 | every ordered selection of distinct pool positions is the draw of some choices |
| Tables.NamesWhere | 1.Data-exploration/Profiles_level4/Consensus/L1000/scripts/nbconverted/L1000_null_p_values_calculation.py:160 | `df['pert_iname'][mask]` holds exactly the compounds of the rows the mask keeps |
| Tables.CompoundsAtDose | 1.Data-exploration/Profiles_level4/Consensus/L1000/scripts/nbconverted/L1000_null_p_values_calculation.py:103-108 | the index of `get_cpd_agg` for one dose: duplicate-free, exactly the compounds with a signature at that dose |
| Tables.FilterInEvery | 1.Data-exploration/Profiles_level4/Consensus/L1000/scripts/nbconverted/L1000_null_p_values_calculation.py:124-126 | keeps exactly the compounds of a list found in every dose list |
| Tables.KeepInEvery | 1.Data-exploration/Profiles_level4/Consensus/L1000/scripts/nbconverted/L1000_null_p_values_calculation.py:124-126 | the comprehension holds exactly the compounds of some dose list that occur in all of them |
| Tables.CpdsFoundInAllDoses | 1.Data-exploration/Profiles_level4/Consensus/L1000/scripts/nbconverted/L1000_null_p_values_calculation.py:116-129 | duplicate-free, and a compound is in it iff it was measured at each of the doses 1 to 6 |
| Tables.EligibleCompounds | 1.Data-exploration/Profiles_level4/Consensus/L1000/scripts/nbconverted/L1000_null_p_values_calculation.py:160-161 | an MOA's value: duplicate-free, exactly its labelled compounds found at all doses |
| Tables.AllMoaDict | 1.Data-exploration/Profiles_level4/Consensus/L1000/scripts/nbconverted/L1000_null_p_values_calculation.py:160-163 | the keys are exactly the MOAs with at least one eligible compound; each value is duplicate-free and holds exactly that MOA's eligible compounds |
| Tables.MoaLabels | 1.Data-exploration/Profiles_level4/Consensus/L1000/scripts/nbconverted/L1000_null_p_values_calculation.py:147 | `df_lvl5['moa'].unique()` as a set: exactly the MOAs some compound is labelled with |
| Tables.MoaCpdsFrame.ConvColsToList | 1.Data-exploration/Profiles_level4/Consensus/L1000/scripts/nbconverted/L1000_null_p_values_calculation.py:78-85 | every `moa_cpds_*` column is split on ';' and nothing else changes; if a column holds a non-string, the earlier columns stay converted and that column and the later ones are untouched |
| Tables.SplitCell | 1.Data-exploration/Profiles_level4/Consensus/L1000/scripts/nbconverted/L1000_null_p_values_calculation.py:84 | the lambda `row.split(';')`: a text cell becomes a list whose join with ';' gives the text back, and an already-split cell is left as it is |
| Tables.SplitRowStep | 1.Data-exploration/Profiles_level4/Consensus/L1000/scripts/nbconverted/L1000_null_p_values_calculation.py:83-84 | converting one more column changes only that column of a row |
| Tables.CellsItems | 1.Data-exploration/Profiles_level4/Consensus/L1000/scripts/nbconverted/L1000_null_p_values_calculation.py:179 | flattening a row's cells yields exactly the items of its cells |
| Tables.CellItems | 1.Data-exploration/Profiles_level4/Consensus/L1000/scripts/nbconverted/L1000_null_p_values_calculation.py:179 | `for cpd in sizes` over one cell: a list gives its items, a string gives its characters one by one |
| Tables.SizeClassItems | 1.Data-exploration/Profiles_level4/Consensus/L1000/scripts/nbconverted/L1000_null_p_values_calculation.py:177-179 | the compounds of the rows of one size are exactly those in some cell of such a row |
| Tables.GenerateMoaSizeDict | 1.Data-exploration/Profiles_level4/Consensus/L1000/scripts/nbconverted/L1000_null_p_values_calculation.py:169-181 | the keys are exactly the sizes in the table; each value is duplicate-free and holds exactly the compounds in cells of rows of that size |
| NullSampling.CheckSimilarCpds | 1.Data-exploration/Profiles_level4/Consensus/L1000/scripts/nbconverted/L1000_null_p_values_calculation.py:205-213 | true iff two different positions hold compounds of one MOA |
| NullSampling.Overlaps | 1.Data-exploration/Profiles_level4/Consensus/L1000/scripts/nbconverted/L1000_null_p_values_calculation.py:226 | `any(cpds in moa_cpds for cpds in random_cpds)`: some compound of the draw is also in the class's compounds |
| NullSampling.Accepted | 1.Data-exploration/Profiles_level4/Consensus/L1000/scripts/nbconverted/L1000_null_p_values_calculation.py:226 | the `&` test: a draw is rejected only when it both overlaps the class and holds a same-MOA pair, so a draw without overlap, or of fewer than two compounds, always passes |
| NullSampling.ShortListsHaveNoSameMoaPair | 1.Data-exploration/Profiles_level4/Consensus/L1000/scripts/nbconverted/L1000_null_p_values_calculation.py:208-213 | a list of fewer than two compounds never has a same-MOA pair |
| NullSampling.DrawOnce | 1.Data-exploration/Profiles_level4/Consensus/L1000/scripts/nbconverted/L1000_null_p_values_calculation.py:225-226 | one pass of the loop: the draw of these choices, and whether it passes the `&` test |
| NullSampling.DrawUntilAccepted | 1.Data-exploration/Profiles_level4/Consensus/L1000/scripts/nbconverted/L1000_null_p_values_calculation.py:224-228 | the `while True` loop on a given stream: the result is the first accepted draw; the only error is running out of choices, and no more of the stream is left than was given |
| NullSampling.GetRandomCpds | 1.Data-exploration/Profiles_level4/Consensus/L1000/scripts/nbconverted/L1000_null_p_values_calculation.py:219-228 | ValueError (`SampleLargerThanPopulation`) iff the size is negative or exceeds the pool; otherwise the result is the first accepted draw of the stream |
| NullSampling.DrawUntilAcceptedYieldsNullSample | 1.Data-exploration/Profiles_level4/Consensus/L1000/scripts/nbconverted/L1000_null_p_values_calculation.py:224-228 | a returned list has the requested size, comes from the pool, is distinct when the pool is, and is not both overlapping and same-MOA; the stream is read from the front |
| NullSampling.EveryNullSampleIsDrawn | 1.Data-exploration/Profiles_level4/Consensus/L1000/scripts/nbconverted/L1000_null_p_values_calculation.py:224-228 | conversely, every list of distinct pool elements that passes the test is returned for some stream |
| NullSampling.DrawUnseen | 1.Data-exploration/Profiles_level4/Consensus/L1000/scripts/nbconverted/L1000_null_p_values_calculation.py:245-249 | retries until the list is not yet in the class; it returns an accepted list of the class size, or the sampler's error, or `DrawsExhausted` when a size-0 class repeats its empty draw, which reads no choice (the script loops forever there) |
| NullSampling.GetNullDistributionCpds | 1.Data-exploration/Profiles_level4/Consensus/L1000/scripts/nbconverted/L1000_null_p_values_calculation.py:234-253 | the keys are exactly those of `moa_size_dict`; each class holds `rand_num` pairwise different accepted lists of its size; ValueError only if `rand_num > 0` and some size is out of range; that condition always gives an error (ValueError, or `DrawsExhausted` when an earlier-visited class does not finish) |
| NullSampling.ScanClass | 1.Data-exploration/Profiles_level4/Consensus/L1000/scripts/nbconverted/L1000_null_p_values_calculation.py:299-303 | after one class, `cpds_duplicates` is the class's last list when that list is repeated, else empty; an empty class keeps the previous value |
| NullSampling.LastRepeated | 1.Data-exploration/Profiles_level4/Consensus/L1000/scripts/nbconverted/L1000_null_p_values_calculation.py:301-302 | the length test on the filtered list: it fails to be one shorter exactly when the last list occurs more than once |
| NullSampling.ReportedDuplicates | 1.Data-exploration/Profiles_level4/Consensus/L1000/scripts/nbconverted/L1000_null_p_values_calculation.py:296-306 | what the loop returns when no class is empty: only input classes, each reported with one of its own lists |
| NullSampling.ReportedDuplicatesByClass | 1.Data-exploration/Profiles_level4/Consensus/L1000/scripts/nbconverted/L1000_null_p_values_calculation.py:296-306 | the dictionary built class by class is the reported-duplicates map |
| NullSampling.AssertNullDistribution | 1.Data-exploration/Profiles_level4/Consensus/L1000/scripts/nbconverted/L1000_null_p_values_calculation.py:289-306 | UnboundLocalError only if some class is empty, and always when the map is non-empty and every class is empty; if no class is empty, a class is reported iff its last list is repeated, with that one list |
| NullSampling.NullDistributionHasNoReportedDuplicates | 1.Data-exploration/Profiles_level4/Consensus/L1000/scripts/nbconverted/L1000_null_p_values_calculation.py:234-253 | for `rand_num > 0`, the sampler's output has no empty class and both the as-written and the intended duplicate checks report nothing |
| NullSampling.NonPositiveRandNumGivesEmptyClasses | 1.Data-exploration/Profiles_level4/Consensus/L1000/scripts/nbconverted/L1000_null_p_values_calculation.py:234-253 | for `rand_num <= 0`, every class of the sampler's output is empty, so `assert_null_distribution` raises UnboundLocalError on it whenever there is a class |
| NullSampling.SameMoaPairPassesWithoutOverlap | 1.Data-exploration/Profiles_level4/Consensus/L1000/scripts/nbconverted/L1000_null_p_values_calculation.py:226 | a same-MOA pair with no compound of the class is accepted |
| NullSampling.PermutedDrawsAreBothKept | 1.Data-exploration/Profiles_level4/Consensus/L1000/scripts/nbconverted/L1000_null_p_values_calculation.py:248 | two orderings of one compound set are different lists, and both can be members of a class |
| NullSampling.EarlierDuplicateGoesUnreported | 1.Data-exploration/Profiles_level4/Consensus/L1000/scripts/nbconverted/L1000_null_p_values_calculation.py:296-306 | a list repeated before the last place of its class goes unreported, while the intended check reports it |
| NullSampling.RepeatedIn | 1.Data-exploration/Profiles_level4/Consensus/L1000/scripts/nbconverted/L1000_null_p_values_calculation.py:292-294 | the lists occurring more than once, as the docstring asks |
| NullSampling.IntendedDuplicates | 1.Data-exploration/Profiles_level4/Consensus/L1000/scripts/nbconverted/L1000_null_p_values_calculation.py:292-294 | reports, per class, exactly the lists that occur more than once |
| NullSampling.IntendedDuplicatesFindsEveryRepeat | 1.Data-exploration/Profiles_level4/Consensus/L1000/scripts/nbconverted/L1000_null_p_values_calculation.py:292-294 | the intended check reports a class iff the class holds some list twice |
| PValues.Count | 1.Data-exploration/Profiles_level4/Consensus/L1000/scripts/nbconverted/L1000_null_p_values_calculation.py:376 | `np.sum(scores >= actual)` is at most the number of scores |
| PValues.CountWhenAllReach | 1.Data-exploration/Profiles_level4/Consensus/L1000/scripts/nbconverted/L1000_null_p_values_calculation.py:376 | when every score reaches the threshold, the count is the list's length |
| PValues.CountWhenNoneReach | 1.Data-exploration/Profiles_level4/Consensus/L1000/scripts/nbconverted/L1000_null_p_values_calculation.py:376 | when no score reaches the threshold, the count is zero |
| PValues.CountAntitone | 1.Data-exploration/Profiles_level4/Consensus/L1000/scripts/nbconverted/L1000_null_p_values_calculation.py:376 | a higher threshold is reached by no more scores |
| PValues.PValueOf | 1.Data-exploration/Profiles_level4/Consensus/L1000/scripts/nbconverted/L1000_null_p_values_calculation.py:376 | NaN iff the score list is empty, otherwise a value in [0, 1] that times the length gives the count |
| PValues.PValueIsOneBelowAll | 1.Data-exploration/Profiles_level4/Consensus/L1000/scripts/nbconverted/L1000_null_p_values_calculation.py:376 | the p-value is 1 when the observed score is at most every null score |
| PValues.PValueIsZeroAboveAll | 1.Data-exploration/Profiles_level4/Consensus/L1000/scripts/nbconverted/L1000_null_p_values_calculation.py:376 | the p-value is 0 when the observed score exceeds every null score |
| PValues.PValueAntitone | 1.Data-exploration/Profiles_level4/Consensus/L1000/scripts/nbconverted/L1000_null_p_values_calculation.py:376 | the p-value does not grow as the observed score grows |
| PValues.GetPValue | 1.Data-exploration/Profiles_level4/Consensus/L1000/scripts/nbconverted/L1000_null_p_values_calculation.py:370-377 | looks up the MOA's score at the dose, and a non-NaN result lies in [0, 1] |
| PValues.CalcNullDistMedianScores | 1.Data-exploration/Profiles_level4/Consensus/L1000/scripts/nbconverted/L1000_null_p_values_calculation.py:324-337 | one score per list of the class, in list order, each the score of that list at the dose |
| PValues.GetNullDistMedianScores | 1.Data-exploration/Profiles_level4/Consensus/L1000/scripts/nbconverted/L1000_null_p_values_calculation.py:343-356 | the same size classes, six score lists per class (doses 1 to 6), one score per list of that class |
| PValues.MoaDosePValues | 1.Data-exploration/Profiles_level4/Consensus/L1000/scripts/nbconverted/L1000_null_p_values_calculation.py:393-398 | six p-values; entry d compares dose d+1 with null list d |
| PValues.AppendLargest | 1.Data-exploration/Profiles_level4/Consensus/L1000/scripts/nbconverted/L1000_null_p_values_calculation.py:399 | appending a key above all others keeps the keys ascending and loses none |
| PValues.LeastKey | 1.Data-exploration/Profiles_level4/Consensus/L1000/scripts/nbconverted/L1000_null_p_values_calculation.py:399 | returns a key of the set below every other key |
| PValues.SortedItems | 1.Data-exploration/Profiles_level4/Consensus/L1000/scripts/nbconverted/L1000_null_p_values_calculation.py:399 | the same entries, in strictly ascending key order |
| PValues.GetMoaPVals | 1.Data-exploration/Profiles_level4/Consensus/L1000/scripts/nbconverted/L1000_null_p_values_calculation.py:383-400 | keys in strictly ascending order; exactly the MOAs whose size is a key of the null medians; each with six p-values, entry d from `null_dist_median[size][d]` and the MOA's dose d+1 score |

## Left out

- The clustering script `3.clustering-pca/scripts/nbconverted/cp_pca_clustering_analysis.py` is not part of this model. It sweeps scikit-learn estimators and plots.
- `get_cpd_agg`'s feature means, the Spearman correlation, `np.triu_indices` and `statistics.median` (lines 97-110, 324-337) are floating-point numerics. The score of a compound list is an abstract total function of the dose and the list. The script's score is partial: for a list of fewer than two compounds `np.triu_indices(n, k=1)` is empty and `statistics.median([])` raises StatisticsError (line 335), so a size-0 or size-1 class makes `get_null_dist_median_scores` raise where `GetNullDistMedianScores` returns; scores are Dafny reals, so NaN scores and rounding are not modelled.
- `df_cpd_agg.loc[list_of_cpds]` raising KeyError for a compound without a signature at that dose (line 333) is not modelled, because the score is abstract.
- CSV reads and writes, `save_to_csv`, the pickle dump and load, and the printing cells (lines 52-54, 266-283, 412-444) are I/O.
- The uniformity of `random.sample` (line 225) is a probabilistic property. A draw is a function of an explicit stream of choices, and the model proves only which draws are possible.
- Termination of the rejection loops (lines 224-227, 246-249) is not modelled. The script retries without bound and loops forever when no new acceptable list exists. The model instead returns `DrawsExhausted` when the stream runs out, including the size-0 class with `rand_num >= 2`, where the empty draw repeats and reads no choice.
- Dict and set iteration order is not modelled (dicts iterate in insertion order in Python; the model leaves it open). The outputs are stated up to key order, except `get_moa_p_vals`, whose order is fixed by the sort.
- NullSampling.AssertNullDistribution: when some class is empty but an earlier-visited class was not (so some classes are empty and others are not), the result is bounded (keys of the input, one list per reported class) but not pinned down, because it depends on the unspecified visiting order.
- PValues.GetMoaPVals: `WellShaped` requires six null lists per size and six dose scores per MOA, so the IndexError of line 396 and the KeyError of line 375 for a missing `dose_*` column are not modelled. The only caller (line 406) passes `get_null_dist_median_scores`'s output, which has six lists per size; the six `dose_*` columns are guaranteed only by the CSV file.
- PValues.GetPValue: its requires that the MOA be in the table and that the dose exist rule out the KeyError of line 375, for the same reason.
- PValues.GetMoaPVals: the MOA table is a dictionary keyed by MOA, so duplicate MOA labels in `df_moa_vals` (which would make `.loc` return a series) are not modelled.
- Tables.MoaCpdsFrame.ConvColsToList: a cell that `str.split` cannot handle is represented by the column check before conversion, not by a Python exception object.
- In the MOA-compounds table, every column except `moa` and `moa_size` is a cell that `generate_moa_size_dict` iterates (lines 177-179). A cell is a string or a list of strings. A cell that is neither, such as a number or NaN, is not representable, so the TypeError that line 179 would raise on it is not modelled. Of the signature table, only `pert_iname`, `moa` and `dose` are modelled.

## Findings

| source | as written | input that shows it | evidently intended | confidence | as-written member | corrected member |
|---|---|---|---|---|---|---|
| 1.Data-exploration/Profiles_level4/Consensus/L1000/scripts/nbconverted/L1000_null_p_values_calculation.py:299-306 | `cpds_duplicates = []` sits inside the loop over a class's lists, so only the last list's outcome survives and a class is reported only when its last list is repeated | the class `[["a"], ["a"], ["b"]]`: reported as having no duplicates | every class holding some list twice is reported, with its repeated lists, as the docstring (lines 292-294) says | high, not executed | NullSampling.EarlierDuplicateGoesUnreported | NullSampling.IntendedDuplicatesFindsEveryRepeat |
