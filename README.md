# Isoenzyme flux balance analysis — a verified model of the pipeline core

This project models, in Dafny, the flux-balance-analysis pipeline that
compares two ways of costing the loss of a yeast gene:

- the **gene-loss cost**: the fraction of wild-type growth lost when cobra
  deletes the gene, so that isoenzymes can stand in for one another;
- the **function-loss cost**: the sum of the loss costs of every reaction
  rule that names the gene, so that isoenzymes count as non-redundant.

The model covers five scripts under `flux_balance_analysis/`:

- `fba_utils.py`: parsing gene-reaction rules, looking up reactions by name,
  and setting growth media on the exchange reactions.
- `single_knockouts.py`: per-gene loss costs in one carbon/nitrogen
  environment, written to two pickles.
- `double_knockouts.py`: growth after knocking out the reactions of two genes
  together, one pivot gene at a time.
- `enzyme.py`: the per-gene record and its classification (isoenzyme,
  multifunctional, simple) and comparison of the two costs.
- `collate_cluster_output.py`: gathering the cluster jobs' pickles into five
  tables.

How each is modelled:

- **The metabolic model** is a `Metabolic.Model` whose `reactions` array is
  changed in place, as cobra's reaction objects are.
- **Knock-outs** save the bounds of the selected reactions, close them, solve
  and restore them, as a loop over that array (`Metabolic.KnockOutAndSolve`).
- **The linear-program solver** is a parameter: a function from the
  reactions' bounds to the optimal growth.
- **cobra's `single_gene_deletion`, `single_reaction_deletion` and
  `double_gene_deletion`** are parameters too.
- **Directories** are maps from file name to the value pickled or the rows
  written.
- **Every exception** is a constructor of `Common.Error`: each
  `UserWarning` and each Python error the code can run into (`IndexError`,
  `KeyError`, `ZeroDivisionError`, `IOError`).
- **Python's string operations** follow CPython on byte strings
  (`Text`): `in` as a substring test, `replace`, `split()` and `str(int)`.
- **Python's `sorted`** is `Sorting`.

Behaviours of the code that the model keeps, and proves, as written:

- Substring tests.
  - `genes_in_rule` deletes every substring `and` and `or`, including inside
    a gene name.
  - Knock-outs close every reaction whose rule contains the gene id as a
    substring.
  - `is_isoenzyme` looks for the substring `or`. So a simple single-function
    gene whose name contains `or` counts as an isoenzyme
    (`Enzymes.SimpleIsoenzymeIffNameHasOr`).
- `minimal_media` first gives the standard nutrients (oxygen, water, …)
  uptake -1000. The next `if`/`else` then always overwrites that bound: with
  -20/-10 for a chosen source, and with 0 for every other exchange
  reaction, standard nutrients included (`FbaUtils.MinimalMediaExchangeBounds`).
- In `collate_cluster_output` the model variable is reassigned by
  `minimal_media` inside the loop. This carries nothing from one
  environment to the next, because `minimal_media` rewrites every exchange
  lower bound (`FbaUtils.MinimalMediaLastWins`, `Collate.EnvLoopReactions`).
- `double_knockouts.py` with index `-1` picks the last gene as pivot but
  slices the partners from the start. The pivot is then paired with itself
  and the run fails (`DoubleKnockouts.LastPivotByNegativeIndex`).
- The double-function pickles are checked for their count and for
  duplicates. The double-gene pickles are not checked, so a later file's
  matrix overwrites earlier entries (`Collate.DoubleGeneLoadLastWins`).
- `minimal_media_model` leaves the standard nutrients as the model file
  has them, and raises when glucose or ammonium uptake or a chosen source
  has no exchange reaction, or a source has two
  (`FbaUtils.MinimalMediaModelFailures`). `minimal_media`, used by
  `collate_cluster_output`, raises in none of these cases: a source without
  an exchange reaction is simply not opened, and a source with two has both
  opened.
- `load_media` opens reactions whose name is a bare SD-His nutrient name,
  whichever medium is chosen (see Findings).

## Model

| member | source | states |
|---|---|---|
| FbaUtils.GenesInRule | flux_balance_analysis/fba_utils.py:5-18 | the rule's genes are the non-empty, space- and parenthesis-free tokens left after deleting `and`, `or`, `(`, `)`; the error is raised exactly when no token is left |
| FbaUtils.GenesInSingleGeneRule | flux_balance_analysis/fba_utils.py:15-18 | a rule that is one plain gene id yields exactly that gene |
| FbaUtils.GenesInBinaryRule | flux_balance_analysis/fba_utils.py:15-18 | `a or b` and `a and b` for plain gene ids yield exactly `{a, b}` |
| FbaUtils.NamedAt | flux_balance_analysis/fba_utils.py:32 | the matches are exactly the positions of reactions with the name, in increasing order |
| FbaUtils.GetReactionFromNameFound | flux_balance_analysis/fba_utils.py:21-38 | the lookup succeeds iff exactly one reaction has the name, and returns that reaction |
| FbaUtils.GetReactionFromNameFailures | flux_balance_analysis/fba_utils.py:32-36 | not-found iff no reaction has the name; duplicate iff two reactions share it |
| FbaUtils.Exchanges | flux_balance_analysis/fba_utils.py:41-53 | the exchange reactions are exactly the reactions flagged as exchanges |
| FbaUtils.FindMediaReactions | flux_balance_analysis/fba_utils.py:56-79 | the loop returns what the left-to-right nutrient specification returns, stopping at the first duplicate |
| FbaUtils.MediaReactionsSpec | flux_balance_analysis/fba_utils.py:56-79 | fails iff some nutrient has two exchange reactions; otherwise at most one reaction per nutrient, each a model exchange reaction named `<nutrient> exchange` |
| FbaUtils.MediaReactionsInOrder | flux_balance_analysis/fba_utils.py:68-79 | on success the result is, in the nutrients' order, the one `<nutrient> exchange` reaction of every nutrient that has exactly one, and nothing else |
| FbaUtils.MediaReactionsErrorIsDuplicate | flux_balance_analysis/fba_utils.py:70-71 | the only error is the duplicate-reaction error; a missing nutrient is skipped |
| FbaUtils.ById | flux_balance_analysis/fba_utils.py:96-99 | `get_by_id` finds a reaction with the id, and fails iff there is none |
| FbaUtils.MinimalMediaModel | flux_balance_analysis/fba_utils.py:82-108 | the in-place bound updates leave the model given by the glucose/ammonium closing and source opening, or fail with its error |
| FbaUtils.MinimalMediaModelSources | flux_balance_analysis/fba_utils.py:100-107 | the sources are exchange reactions with the expected names and get -20 (one source) or -10 each (two) |
| FbaUtils.MinimalMediaModelFrame | flux_balance_analysis/fba_utils.py:94-108 | glucose and ammonium uptake are closed unless chosen as a source; only lower bounds change; all other reactions are as loaded |
| FbaUtils.ExchangeNamedFailures | flux_balance_analysis/fba_utils.py:21-38 | `get_reaction_from_name` over the exchange reactions: not-found iff no exchange reaction has the name, duplicate iff two have it, found otherwise |
| FbaUtils.FirstExchangeNamedFailures | flux_balance_analysis/fba_utils.py:96-99 | the `[...][0]` lookup raises an index error iff no exchange reaction has the name |
| FbaUtils.MinimalMediaModelFailures | flux_balance_analysis/fba_utils.py:94-107 | fails iff glucose, ammonium or a source has no exchange reaction or a source has two; the error is that of the first failing lookup, in the order glucose, ammonium, carbon, nitrogen |
| FbaUtils.MinimalMedia | flux_balance_analysis/fba_utils.py:111-136 | the loop over exchange reactions leaves the minimal-medium bounds |
| FbaUtils.MinimalMediaExchangeBounds | flux_balance_analysis/fba_utils.py:122-135 | each exchange reaction gets -20 (single source), -10 (either of two sources) or 0, so a standard nutrient that is not a source ends at 0 |
| FbaUtils.MinimalMediaFrame | flux_balance_analysis/fba_utils.py:126-135 | only lower bounds of exchange reactions change |
| FbaUtils.MinimalMediaLastWins | flux_balance_analysis/fba_utils.py:126-135 | a later call fully undoes an earlier one |
| FbaUtils.MinimalMediaIdempotent | flux_balance_analysis/fba_utils.py:111-136 | applying the same medium twice is applying it once |
| FbaUtils.OpenUptakeLoop | flux_balance_analysis/fba_utils.py:166-168 | the loop opens (-10) exactly the exchange reactions whose names are in the set |
| FbaUtils.SdMinusHisExchanges | flux_balance_analysis/fba_utils.py:153-164 | every SD-His nutrient's `<nutrient> exchange` reaction name is in the set |
| FbaUtils.LoadSdMinusHis | flux_balance_analysis/fba_utils.py:139-169 | the model is the loaded one with the SD-His exchange reactions opened |
| FbaUtils.LoadMedia | flux_balance_analysis/fba_utils.py:172-204 | an unknown medium is an error that leaves the model unchanged; otherwise reactions named by bare SD-His nutrient names are opened |
| FbaUtils.LoadMediaIgnoresChoice | flux_balance_analysis/fba_utils.py:192-203 | `ypd` and `sd_minus_his` give the same model |
| FbaUtils.LoadMediaMissesExchangeNames | flux_balance_analysis/fba_utils.py:199-203 | the `biotin exchange` reaction is opened by `load_sd_minus_his` but left closed by `load_media` |
| FbaUtils.IntendedMediaBounds | flux_balance_analysis/fba_utils.py:192-196 | the corrected medium loader fails exactly on an unknown medium name |
| FbaUtils.IntendedMediaOpensNutrients | flux_balance_analysis/fba_utils.py:199-203 | corrected: a chosen nutrient's exchange reaction gets -10 and every other reaction is unchanged |
| FbaUtils.IntendedMediaAgreesWithSdMinusHis | flux_balance_analysis/fba_utils.py:153-168 | corrected: SD-His opens what `load_sd_minus_his` opens, and YPD opens at least as much |
| Metabolic.Mentioning | flux_balance_analysis/single_knockouts.py:25 | the reactions to knock out are exactly those whose rule contains one of the genes as a substring, in model order |
| Metabolic.KnockOutAndSolve | flux_balance_analysis/single_knockouts.py:25-34 | the growth is the solver's on the model with those reactions' bounds at 0, and the model is restored exactly |
| SingleKnockouts.LossCost | flux_balance_analysis/single_knockouts.py:35 | division by zero exactly when wild-type growth is 0 |
| SingleKnockouts.LossCostValue | flux_balance_analysis/single_knockouts.py:35 | the cost is the lost growth in units of wild-type growth: 0 for no loss, 1 when growth stops |
| SingleKnockouts.SingleKnockoutModifiedLossCost | flux_balance_analysis/single_knockouts.py:12-36 | the per-gene knock-out loop returns the specified map and leaves the model as found |
| SingleKnockouts.ModifiedLossCostsSpec | flux_balance_analysis/single_knockouts.py:22-36 | fails (division by zero) iff there is a gene and wild-type growth is 0; otherwise one key per model gene |
| SingleKnockouts.ModifiedLossCostsValues | flux_balance_analysis/single_knockouts.py:24-35 | each gene's cost is the loss when every reaction mentioning it, isoenzymes included, is closed |
| SingleKnockouts.WithRules | flux_balance_analysis/single_knockouts.py:52 | exactly the reactions with a non-empty rule are deleted one by one |
| SingleKnockouts.GeneLossCosts | flux_balance_analysis/single_knockouts.py:67 | one gene-loss cost per deleted gene, each the loss relative to wild type |
| SingleKnockouts.RuleLossCostsOk | flux_balance_analysis/single_knockouts.py:68-69 | the rule map is built iff every deleted reaction id is in the model |
| SingleKnockouts.RuleLossCostsKeys | flux_balance_analysis/single_knockouts.py:68-69 | its keys are the rules of the deleted reactions |
| SingleKnockouts.RuleLossCostsLastWins | flux_balance_analysis/single_knockouts.py:68-69 | a rule shared by several reactions keeps the cost of the last one visited |
| SingleKnockouts.RuleSumRemove | flux_balance_analysis/single_knockouts.py:71-73 | the function-loss sum does not depend on the order the rules are visited |
| SingleKnockouts.RuleSumAdd | flux_balance_analysis/single_knockouts.py:71-73 | a new rule raises exactly its genes' sums, each by the rule's full cost |
| SingleKnockouts.RuleSumUnnamed | flux_balance_analysis/single_knockouts.py:70-73 | a gene named by no rule keeps cost 0 |
| SingleKnockouts.AddCost | flux_balance_analysis/single_knockouts.py:72-73 | adds the cost to each gene of the rule; a gene without an entry is the `KeyError` |
| SingleKnockouts.FunctionLossCosts | flux_balance_analysis/single_knockouts.py:70-73 | the nested loop yields, per gene, the sum over the rules naming it, or the malformed-rule error |
| SingleKnockouts.SingleKnockoutLossCosts | flux_balance_analysis/single_knockouts.py:39-74 | the method returns the specified result of no growth, or both cost maps |
| SingleKnockouts.LossCostsSpecGrowth | flux_balance_analysis/single_knockouts.py:52-74 | no growth with empty maps iff wild type is below 0.01; on growth both maps cover exactly the deleted genes |
| SingleKnockouts.OutputSuffix | flux_balance_analysis/single_knockouts.py:90-91 | the environment's file suffix has no spaces |
| SingleKnockouts.OutputFilesDistinct | flux_balance_analysis/single_knockouts.py:92-95 | the gene-loss and function-loss pickles of an environment have different names |
| SingleKnockouts.SingleKnockoutsMain | flux_balance_analysis/single_knockouts.py:77-95 | `main` checks the argument count, sets the minimal medium and writes the specified pickles |
| SingleKnockouts.SingleKnockoutsWritesOnGrowth | flux_balance_analysis/single_knockouts.py:84-95 | both pickles are written with the cost maps iff wild type grew; no other file changes |
| DoubleKnockouts.DoubleFunctionDeletion | flux_balance_analysis/double_knockouts.py:31-61 | equal genes and unknown genes are errors, checked in that order; otherwise the pair's knock-out growth, with the model restored |
| DoubleKnockouts.DoubleKnockoutSet | flux_balance_analysis/double_knockouts.py:50-56 | the pair closes the union of the two genes' reactions, both bounds at 0, and nothing else |
| DoubleKnockouts.DoubleFunctionKnockouts | flux_balance_analysis/double_knockouts.py:12-28 | the partner loop returns the specified growth map and leaves the model as found |
| DoubleKnockouts.DoubleFunctionKnockoutsErrorSticks | flux_balance_analysis/double_knockouts.py:26-27 | the first failing partner's error is the loop's error |
| DoubleKnockouts.DoubleFunctionKnockoutsEntries | flux_balance_analysis/double_knockouts.py:12-28 | succeeds iff pivot and partners are distinct model genes; then exactly one `(pivot, partner)` key per partner with that pair's growth |
| DoubleKnockouts.DoubleFunctionKnockoutsOk | flux_balance_analysis/double_knockouts.py:24-28 | success condition of the partner loop |
| DoubleKnockouts.DoubleFunctionKnockoutsKeys | flux_balance_analysis/double_knockouts.py:24-27 | the keys are `(pivot, partner)` for each partner |
| DoubleKnockouts.DoubleFunctionKnockoutsValues | flux_balance_analysis/double_knockouts.py:26-27 | each entry is that pair's knock-out growth |
| DoubleKnockouts.DoubleFunctionKnockoutsCount | flux_balance_analysis/double_knockouts.py:24-28 | distinct partners give one entry each |
| DoubleKnockouts.ListIndex | flux_balance_analysis/double_knockouts.py:72 | Python indexing: valid iff `-n <= index < n`, negative indices count from the end |
| DoubleKnockouts.SliceStart | flux_balance_analysis/double_knockouts.py:73 | Python slicing start: clamped into the list, equal to the index when in range |
| Sorting.SortedDistinctNames | flux_balance_analysis/double_knockouts.py:71 | `sorted` of distinct gene ids is a strictly ascending permutation |
| DoubleKnockouts.OrderedGenes | flux_balance_analysis/double_knockouts.py:71 | the ordered list holds exactly the model's genes, strictly ascending |
| DoubleKnockouts.DoubleKnockoutsMain | flux_balance_analysis/double_knockouts.py:64-86 | `main` checks the argument count, loads SD-His, picks pivot and partners and writes the specified pickles |
| DoubleKnockouts.DoubleKnockoutsBatch | flux_balance_analysis/double_knockouts.py:71-86 | a pivot index in range writes both pickles, the function one keyed by exactly that pivot's pairs |
| DoubleKnockouts.PivotGrowthKeys | flux_balance_analysis/double_knockouts.py:74-75 | the pivot's function-knock-out map has one entry per later gene |
| DoubleKnockouts.DoubleKnockoutsOutputPivot | flux_balance_analysis/double_knockouts.py:72-75 | a non-negative index takes the gene at that position as pivot and the later genes as partners |
| DoubleKnockouts.PivotOutputFiles | flux_balance_analysis/double_knockouts.py:79-86 | both pickles are added, holding cobra's matrix and the pair map, and nothing else |
| DoubleKnockouts.PartnersAfterPivot | flux_balance_analysis/double_knockouts.py:74-75 | every partner differs from the pivot and sorts after it |
| DoubleKnockouts.BatchShape | flux_balance_analysis/double_knockouts.py:71-75 | pivot `i` has `n - i - 1` pairs, each with the pivot first and in sort order |
| DoubleKnockouts.BatchesCoverPairs | flux_balance_analysis/double_knockouts.py:71-75 | the pivots `0 .. n-2` together produce every pair of distinct genes |
| DoubleKnockouts.BatchesDisjoint | flux_balance_analysis/double_knockouts.py:71-75 | different pivots produce no common pair |
| DoubleKnockouts.OutputNamesDistinct | flux_balance_analysis/double_knockouts.py:79-82 | different pivot indices, and the gene and function pickles, never share a file name |
| DoubleKnockouts.LastPivotByNegativeIndex | flux_balance_analysis/double_knockouts.py:72-75 | index -1 pairs the last gene with itself, so the run fails |
| Enzymes.NewEnzyme | flux_balance_analysis/enzyme.py:8-16 | a new record has the name, no rules, rank 0, empty costs and is not blocked |
| Enzymes.NumberReactions | flux_balance_analysis/enzyme.py:18-21 | the number of rules, at least 1; no rules is an error |
| Enzymes.IsIsoenzyme | flux_balance_analysis/enzyme.py:23-33 | true iff some rule contains the substring `or`; no rules is an error |
| Enzymes.IsMultifunctional | flux_balance_analysis/enzyme.py:35-39 | true iff the gene has more than one rule; no rules is an error |
| Enzymes.IsSimpleSingleFunction | flux_balance_analysis/enzyme.py:41-48 | true iff the only rule is the gene's own name; no rules is an error |
| Enzymes.NewEnzymeUnclassified | flux_balance_analysis/enzyme.py:18-48 | a new record cannot be classified: every query raises |
| Enzymes.SimpleNotMultifunctional | flux_balance_analysis/enzyme.py:35-48 | a simple gene is in exactly one reaction and so not multifunctional |
| Enzymes.SimpleIsoenzymeIffNameHasOr | flux_balance_analysis/enzyme.py:23-48 | a simple gene is an isoenzyme iff its name contains `or` |
| Enzymes.BroadcastLength | flux_balance_analysis/enzyme.py:50-60 | numpy broadcasting succeeds iff the lengths agree or one is 1 |
| Enzymes.CountDisagreeing | flux_balance_analysis/enzyme.py:60 | the count is 0 iff no environment's costs differ by more than the tolerance |
| Enzymes.OldAndNewCostsIdentical | flux_balance_analysis/enzyme.py:50-55 | fails exactly when the cost vectors cannot be broadcast together |
| Enzymes.NumEnvironmentsDisagree | flux_balance_analysis/enzyme.py:57-60 | fails exactly on a shape mismatch; otherwise at most one per environment |
| Enzymes.IdenticalIffNoneDisagree | flux_balance_analysis/enzyme.py:50-60 | the two comparisons fail together, and the costs are identical iff no environment disagrees |
| Enzymes.IdenticalPointwise | flux_balance_analysis/enzyme.py:50-55 | on equal lengths, identical means every pair within 4e-5 |
| Enzymes.HybridCost1 | flux_balance_analysis/enzyme.py:62-70 | defined iff the gene has rules |
| Enzymes.HybridCost2 | flux_balance_analysis/enzyme.py:72-80 | defined iff the gene has rules |
| Enzymes.HybridCost1Choice | flux_balance_analysis/enzyme.py:62-70 | function-loss cost for several reactions, gene-loss cost for one |
| Enzymes.HybridCost2Choice | flux_balance_analysis/enzyme.py:72-80 | function-loss cost for isoenzymes, gene-loss cost otherwise |
| Enzymes.HybridCostsOfSimpleGene | flux_balance_analysis/enzyme.py:62-80 | a simple gene without `or` in its name gets its gene-loss cost from both hybrids |
| Collate.Row | flux_balance_analysis/collate_cluster_output.py:32 | the inner loop pairs the carbon source with each nitrogen source in order |
| Collate.EnvironmentsMembers | flux_balance_analysis/collate_cluster_output.py:31-32 | every carbon source meets every nitrogen source, and nothing else is visited |
| Collate.EnvironmentsOrder | flux_balance_analysis/collate_cluster_output.py:31-32 | carbon-major order: step `i * |nitrogens| + j` visits carbon `i` with nitrogen `j` |
| Collate.EnvironmentsLength | flux_balance_analysis/collate_cluster_output.py:57 | there are `|carbons| * |nitrogens|` environments |
| Collate.InputNamesMatch | flux_balance_analysis/collate_cluster_output.py:33-50 | the file names read are the names `single_knockouts.py` writes |
| Collate.AppendCosts | flux_balance_analysis/collate_cluster_output.py:47-48 | appending a file's costs to the `defaultdict(list)`, in any iteration order, gives each gene one more cost |
| Collate.LoadCosts | flux_balance_analysis/collate_cluster_output.py:42-54 | loading succeeds iff the file exists, holds a cost map and names exactly the model's genes |
| Collate.EnvLoopErrorSticks | flux_balance_analysis/collate_cluster_output.py:31-56 | the first failing environment's error ends the run |
| Collate.EnvLoopReactions | flux_balance_analysis/collate_cluster_output.py:35-40 | the reassigned model is always the last no-growth environment's minimal medium on the loaded model |
| Collate.EnvLoopOk | flux_balance_analysis/collate_cluster_output.py:31-56 | the loop succeeds iff every environment has both cost files or does not grow on its minimal medium |
| Collate.WithFile | flux_balance_analysis/collate_cluster_output.py:35-43 | selects exactly the environments with (or without) a gene-loss file |
| Collate.EnvLoopPartition | flux_balance_analysis/collate_cluster_output.py:40-43 | with-growth and no-growth lists split the environments in visit order |
| Collate.AlignedAppend | flux_balance_analysis/collate_cluster_output.py:47-56 | appending a complete file keeps every gene's costs aligned with the growth environments |
| Collate.EnvLoopAligned | flux_balance_analysis/collate_cluster_output.py:42-56 | every gene's cost list has slot `k` from the `k`-th growth environment's file |
| Collate.DoubleFunctionLoadErrorSticks | flux_balance_analysis/collate_cluster_output.py:60-74 | the first bad double-function file ends the run |
| Collate.DoubleFunctionLoadSize | flux_balance_analysis/collate_cluster_output.py:67-74 | after `k` files there are `sum(n - i - 1)` pairs |
| Collate.DoubleFunctionLoadFiles | flux_balance_analysis/collate_cluster_output.py:63-66 | every file up to `k` existed and held a pair map |
| Collate.DoubleFunctionLoadKeeps | flux_balance_analysis/collate_cluster_output.py:72-74 | every pair of every file is kept with its own growth, never overwritten |
| Collate.DoubleFunctionLoadFrom | flux_balance_analysis/collate_cluster_output.py:74 | every loaded pair comes from one of the files |
| Collate.LoadRowOk | flux_balance_analysis/collate_cluster_output.py:85-87 | a row loads iff it does not read past the column genes |
| Collate.LoadRowFrame | flux_balance_analysis/collate_cluster_output.py:85-87 | a row adds exactly its `(geneA, y[j])` keys and leaves other genes' entries |
| Collate.LoadRowEntries | flux_balance_analysis/collate_cluster_output.py:85-87 | with distinct column genes each cell is its pair's entry |
| Collate.LoadRowsOk | flux_balance_analysis/collate_cluster_output.py:83-87 | the matrix loads iff it reads past neither `x` nor `y` |
| Collate.LoadRowsEntries | flux_balance_analysis/collate_cluster_output.py:83-87 | with distinct row and column genes, cell `(a, b)` is the entry for `(x[a], y[b])` |
| Collate.DoubleGeneLoadErrorSticks | flux_balance_analysis/collate_cluster_output.py:76-87 | the first bad double-gene file ends the run |
| Collate.DoubleGeneLoadLastWins | flux_balance_analysis/collate_cluster_output.py:76-87 | the last file's matrix decides its pairs, whatever earlier files held |
| Collate.Header | flux_balance_analysis/collate_cluster_output.py:97-98 | the header is `ORF ID` then `carbon AND nitrogen` per growth environment |
| Collate.WriteAllKeeps | flux_balance_analysis/collate_cluster_output.py:89-122 | existing files are never overwritten; a missing file is written iff some output has its path |
| Collate.WriteAllPresent | flux_balance_analysis/collate_cluster_output.py:89-122 | when every path exists nothing is written |
| Collate.WriteAllIdempotent | flux_balance_analysis/collate_cluster_output.py:89-122 | a second round of writes changes nothing |
| Collate.CollateOk | flux_balance_analysis/collate_cluster_output.py:10-87 | the script fails iff an environment is not ready or a double-knock-out file is missing or malformed |
| Collate.OutputPathsDistinct | flux_balance_analysis/collate_cluster_output.py:14-18 | the five output paths are pairwise different |
| Collate.OutputsWritten | flux_balance_analysis/collate_cluster_output.py:89-122 | existing files are kept, and exactly the missing outputs are added, each with its own table |
| Collate.CollateWrites | flux_balance_analysis/collate_cluster_output.py:10-122 | on success all five tables exist; the missing ones hold what the loops collected |
| Collate.CollatedTables | flux_balance_analysis/collate_cluster_output.py:31-74 | no-growth list and cost columns split the environments; costs aligned per gene; `n (n - 1) / 2` double-function pairs |
| Collate.CollateRerun | flux_balance_analysis/collate_cluster_output.py:89-122 | running again on the produced directory changes nothing |
| Collate.EnvLoopMedium | flux_balance_analysis/collate_cluster_output.py:35-36 | the model left by the loop is the loaded one or one environment's minimal medium |
| Collate.CollectEnvironment | flux_balance_analysis/collate_cluster_output.py:33-56 | one environment: no-growth check on a missing file, else both cost files loaded and appended |
| Collate.CollectEnvironments | flux_balance_analysis/collate_cluster_output.py:31-56 | the nested loops return the specified state or the first error |
| Collate.LoadDoubleFunctionKnockouts | flux_balance_analysis/collate_cluster_output.py:60-74 | the loop over pivot files returns the specified pair map or the first error |
| Collate.LoadDoubleGeneKnockouts | flux_balance_analysis/collate_cluster_output.py:76-87 | the loop over pivot files returns the specified pair map or the first error |
| Collate.LoadMatrix | flux_balance_analysis/collate_cluster_output.py:83-87 | the row and column loops return the specified entries or the index error |
| Collate.WriteOutputs | flux_balance_analysis/collate_cluster_output.py:89-122 | the five guarded writes produce the specified directory |
| Collate.CollateClusterOutput | flux_balance_analysis/collate_cluster_output.py:10-122 | the script returns the specified directory; the model ends in the last no-growth environment's medium |

## Left out

- Reading SBML and text files, pickling, and TSV/CSV encoding. A pickle is the Python value dumped; a table is its rows.
- `os.makedirs`, path joining, and the `../models/<name>` directory layout. Each script works on one directory map.
- `print` output: `find_media_reactions`' warnings, collate's counts and its "already exists" messages.
- The `verbose` flag.
- `sys.argv` parsing beyond the argument count. `int(argv[1])` is the `index` parameter.
- The LP solver and cobra's deletion routines are parameters, not models.
- Float rounding and NaN: growth and costs are exact reals.
- `get_exchange_reactions` derives the exchange flag from the stoichiometric matrix. Here it is a field of each reaction.
- Dictionary iteration order is left open. The results are proved not to depend on it where the code's output does not.
- Reaction objects are array positions, so aliasing between the exchange list and the model is by position.
- `enzyme.__str__` (string rendering only).
- Enzymes.NumEnvironmentsDisagree: does not model the `TypeError` Python raises when the cost vectors are plain lists rather than numpy arrays.
- SingleKnockouts.FunctionLossCosts: a rule without genes and a rule naming an unknown gene are one error (`MalformedRule`), because the source raises two different Python exceptions that no caller tells apart.
- Collate.LoadMatrix: a pickle whose `data` is not a proper 2-d array is reported as `MalformedPickle` before the loops, instead of as the numpy error it would raise.
- The repository's tests check data-dependent facts about the real yeast model. They are not modelled.

## Findings

| source | as written | input that shows it | evidently intended | confidence | as-written member | corrected member |
|---|---|---|---|---|---|---|
| flux_balance_analysis/fba_utils.py:199-203 | `load_media` builds `nutrientRxns` for the chosen medium but never uses it. It compares each exchange reaction's name with the bare SD-His nutrient names, whichever medium is chosen. | an exchange reaction named `biotin exchange` with lower bound 0 and medium `ypd`: its bound stays 0 | open the `<nutrient> exchange` reaction of every nutrient of the chosen medium | high; not executed | FbaUtils.LoadMediaMissesExchangeNames | FbaUtils.IntendedMediaOpensNutrients |
