/** `double_knockouts.py`: growth after knocking out two genes' reactions
    together, for one pivot gene and every gene after it in sort order. The
    pivots `0 .. n-2` together cover the upper triangle of gene pairs. */
module DoubleKnockouts {
  import opened Common
  import opened Text
  import opened Sorting
  import opened Metabolic
  import opened FbaUtils
  import opened Files

  // ---------------------------------------------------------------------
  // double_function_deletion

  /** The growth `double_function_deletion` returns, or its error: equal
      genes first, then `geneA`, then `geneB` missing from the model. */
  function DoubleFunctionDeletionSpec(rs: seq<Reaction>, genes: seq<string>, geneA: string, geneB: string,
                                      solve: Solver): Result<real>
  {
    if geneA == geneB then Err(SameGenes)
    else if geneA !in genes then Err(GeneNotInModel(geneA))
    else if geneB !in genes then Err(GeneNotInModel(geneB))
    else Ok(solve(ZeroBounds(rs, Mentioning(rs, {geneA, geneB}))))
  }

  /** `double_function_deletion`: check the genes, close every reaction whose
      rule mentions either gene, solve, and restore the closed reactions. */
  method DoubleFunctionDeletion(model: Model, geneA: string, geneB: string, solve: Solver) returns (r: Result<real>)
    modifies model.reactions
    ensures model.reactions[..] == old(model.reactions[..])
    ensures r == DoubleFunctionDeletionSpec(old(model.reactions[..]), model.genes, geneA, geneB, solve)
  {
    if geneA == geneB {
      return Err(SameGenes);
    }
    var modelGenes := set g | g in model.genes;
    if geneA !in modelGenes {
      return Err(GeneNotInModel(geneA));
    }
    if geneB !in modelGenes {
      return Err(GeneNotInModel(geneB));
    }
    var toKnockOut := Mentioning(model.reactions[..], {geneA, geneB});
    var growth := KnockOutAndSolve(model, toKnockOut, solve);
    r := Ok(growth);
  }

  /** The reactions closed for a pair are those closed for either gene
      alone, and the solver sees both bounds of exactly those at 0. */
  lemma DoubleKnockoutSet(rs: seq<Reaction>, geneA: string, geneB: string)
    ensures forall k :: k in Mentioning(rs, {geneA, geneB}) <==>
      k in Mentioning(rs, {geneA}) || k in Mentioning(rs, {geneB})
    ensures var closed := ZeroBounds(rs, Mentioning(rs, {geneA, geneB}));
      forall k :: 0 <= k < |rs| ==>
        if Contains(rs[k].rule, geneA) || Contains(rs[k].rule, geneB)
        then closed[k] == rs[k].(lowerBound := 0.0, upperBound := 0.0)
        else closed[k] == rs[k]
  {
    var closed := ZeroBounds(rs, Mentioning(rs, {geneA, geneB}));
    forall k | 0 <= k < |rs|
      ensures Contains(rs[k].rule, geneA) || Contains(rs[k].rule, geneB) <==> MentionsAny(rs[k].rule, {geneA, geneB})
    {
      if Contains(rs[k].rule, geneA) {
        assert geneA in {geneA, geneB};
      }
      if Contains(rs[k].rule, geneB) {
        assert geneB in {geneA, geneB};
      }
    }
  }

  // ---------------------------------------------------------------------
  // double_function_knockouts

  /** `growthValues` after the first `|otherGenes|` partners. */
  function DoubleFunctionKnockoutsSpec(rs: seq<Reaction>, genes: seq<string>, gene: string,
                                       otherGenes: seq<string>, solve: Solver): Result<map<(string, string), real>>
    decreases |otherGenes|
  {
    if otherGenes == [] then Ok(map[])
    else
      var growthValues :- DoubleFunctionKnockoutsSpec(rs, genes, gene, otherGenes[..|otherGenes| - 1], solve);
      var geneB := otherGenes[|otherGenes| - 1];
      var growth :- DoubleFunctionDeletionSpec(rs, genes, gene, geneB, solve);
      Ok(growthValues[(gene, geneB) := growth])
  }

  /** `double_function_knockouts`. */
  method DoubleFunctionKnockouts(model: Model, gene: string, otherGenes: seq<string>, solve: Solver)
    returns (r: Result<map<(string, string), real>>)
    modifies model.reactions
    ensures model.reactions[..] == old(model.reactions[..])
    ensures r == DoubleFunctionKnockoutsSpec(old(model.reactions[..]), model.genes, gene, otherGenes, solve)
  {
    ghost var before := model.reactions[..];
    var growthValues := map[];
    for i := 0 to |otherGenes|
      invariant model.reactions[..] == before
      invariant DoubleFunctionKnockoutsSpec(before, model.genes, gene, otherGenes[..i], solve) == Ok(growthValues)
    {
      var geneB := otherGenes[i];
      assert otherGenes[..i + 1][..i] == otherGenes[..i];
      assert otherGenes[..i + 1][i] == geneB;
      var growth := DoubleFunctionDeletion(model, gene, geneB, solve);
      if growth.Err? {
        DoubleFunctionKnockoutsErrorSticks(before, model.genes, gene, otherGenes, solve, i + 1);
        return Err(growth.error);
      }
      growthValues := growthValues[(gene, geneB) := growth.value];
    }
    assert otherGenes[..|otherGenes|] == otherGenes;
    r := Ok(growthValues);
  }

  /** The first failing partner decides the error of the whole loop. */
  lemma {:induction false} DoubleFunctionKnockoutsErrorSticks(rs: seq<Reaction>, genes: seq<string>, gene: string,
                                                              otherGenes: seq<string>, solve: Solver, i: nat)
    requires i <= |otherGenes|
    requires DoubleFunctionKnockoutsSpec(rs, genes, gene, otherGenes[..i], solve).Err?
    ensures DoubleFunctionKnockoutsSpec(rs, genes, gene, otherGenes, solve) ==
      DoubleFunctionKnockoutsSpec(rs, genes, gene, otherGenes[..i], solve)
    decreases |otherGenes| - i
  {
    if i < |otherGenes| {
      assert otherGenes[..i + 1][..i] == otherGenes[..i];
      DoubleFunctionKnockoutsErrorSticks(rs, genes, gene, otherGenes, solve, i + 1);
    } else {
      assert otherGenes[..i] == otherGenes;
    }
  }

  /** The loop succeeds exactly when every partner differs from the pivot
      and both are model genes; then there is one entry per partner, keyed
      with the pivot first, holding that pair's knock-out growth. */
  lemma DoubleFunctionKnockoutsEntries(rs: seq<Reaction>, genes: seq<string>, gene: string,
                                       otherGenes: seq<string>, solve: Solver)
    ensures var r := DoubleFunctionKnockoutsSpec(rs, genes, gene, otherGenes, solve);
      && (r.Ok? <==> otherGenes == [] || (gene in genes && forall b :: b in otherGenes ==> b != gene && b in genes))
      && (r.Ok? ==> r.value.Keys == set b | b in otherGenes :: (gene, b))
      && (r.Ok? ==> forall b :: b in otherGenes ==>
            r.value[(gene, b)] == solve(ZeroBounds(rs, Mentioning(rs, {gene, b}))))
  {
    DoubleFunctionKnockoutsOk(rs, genes, gene, otherGenes, solve);
    if DoubleFunctionKnockoutsSpec(rs, genes, gene, otherGenes, solve).Ok? {
      DoubleFunctionKnockoutsKeys(rs, genes, gene, otherGenes, solve);
      DoubleFunctionKnockoutsValues(rs, genes, gene, otherGenes, solve);
    }
  }

  lemma {:induction false} DoubleFunctionKnockoutsOk(rs: seq<Reaction>, genes: seq<string>, gene: string,
                                                     otherGenes: seq<string>, solve: Solver)
    ensures DoubleFunctionKnockoutsSpec(rs, genes, gene, otherGenes, solve).Ok? <==>
      otherGenes == [] || (gene in genes && forall b :: b in otherGenes ==> b != gene && b in genes)
    decreases |otherGenes|
  {
    if otherGenes != [] {
      var front := otherGenes[..|otherGenes| - 1];
      var last := otherGenes[|otherGenes| - 1];
      DoubleFunctionKnockoutsOk(rs, genes, gene, front, solve);
      assert otherGenes == front + [last];
      assert forall b :: b in otherGenes <==> b in front || b == last;
    }
  }

  lemma {:induction false} DoubleFunctionKnockoutsKeys(rs: seq<Reaction>, genes: seq<string>, gene: string,
                                                       otherGenes: seq<string>, solve: Solver)
    requires DoubleFunctionKnockoutsSpec(rs, genes, gene, otherGenes, solve).Ok?
    ensures DoubleFunctionKnockoutsSpec(rs, genes, gene, otherGenes, solve).value.Keys ==
      set b | b in otherGenes :: (gene, b)
    decreases |otherGenes|
  {
    if otherGenes != [] {
      var front := otherGenes[..|otherGenes| - 1];
      var last := otherGenes[|otherGenes| - 1];
      DoubleFunctionKnockoutsKeys(rs, genes, gene, front, solve);
      assert otherGenes == front + [last];
      assert (set b | b in otherGenes :: (gene, b)) == (set b | b in front :: (gene, b)) + {(gene, last)};
    }
  }

  lemma {:induction false} DoubleFunctionKnockoutsValues(rs: seq<Reaction>, genes: seq<string>, gene: string,
                                                         otherGenes: seq<string>, solve: Solver)
    requires DoubleFunctionKnockoutsSpec(rs, genes, gene, otherGenes, solve).Ok?
    ensures var r := DoubleFunctionKnockoutsSpec(rs, genes, gene, otherGenes, solve).value;
      forall b :: b in otherGenes ==> (gene, b) in r && r[(gene, b)] == solve(ZeroBounds(rs, Mentioning(rs, {gene, b})))
    decreases |otherGenes|
  {
    if otherGenes != [] {
      var front := otherGenes[..|otherGenes| - 1];
      var last := otherGenes[|otherGenes| - 1];
      var m := DoubleFunctionKnockoutsSpec(rs, genes, gene, front, solve).value;
      var growth := DoubleFunctionDeletionSpec(rs, genes, gene, last, solve).value;
      var r := DoubleFunctionKnockoutsSpec(rs, genes, gene, otherGenes, solve).value;
      assert r == m[(gene, last) := growth];
      DoubleFunctionKnockoutsValues(rs, genes, gene, front, solve);
      forall b | b in otherGenes
        ensures (gene, b) in r && r[(gene, b)] == solve(ZeroBounds(rs, Mentioning(rs, {gene, b})))
      {
        if b != last {
          var j :| 0 <= j < |otherGenes| && otherGenes[j] == b;
          assert front[j] == b;
        }
      }
    }
  }

  /** Partners without repeats give exactly one entry each. */
  lemma DoubleFunctionKnockoutsCount(rs: seq<Reaction>, genes: seq<string>, gene: string,
                                     otherGenes: seq<string>, solve: Solver)
    requires Distinct(otherGenes)
    requires DoubleFunctionKnockoutsSpec(rs, genes, gene, otherGenes, solve).Ok?
    ensures |DoubleFunctionKnockoutsSpec(rs, genes, gene, otherGenes, solve).value| == |otherGenes|
  {
    DoubleFunctionKnockoutsEntries(rs, genes, gene, otherGenes, solve);
    PairSetSize(gene, otherGenes);
  }

  lemma {:induction false} PairSetSize(gene: string, otherGenes: seq<string>)
    requires Distinct(otherGenes)
    ensures |set b | b in otherGenes :: (gene, b)| == |otherGenes|
    decreases |otherGenes|
  {
    if otherGenes != [] {
      var front := otherGenes[..|otherGenes| - 1];
      var last := otherGenes[|otherGenes| - 1];
      PairSetSize(gene, front);
      assert otherGenes == front + [last];
      assert (set b | b in otherGenes :: (gene, b)) == (set b | b in front :: (gene, b)) + {(gene, last)};
      assert (gene, last) !in (set b | b in front :: (gene, b));
    }
  }

  // ---------------------------------------------------------------------
  // main: the pivot batches

  /** Python's `xs[index]` on a list of length `n`: the position read, or an
      IndexError. Negative indices count from the end. */
  function ListIndex(n: nat, index: int): (r: Result<nat>)
    ensures r.Ok? <==> -(n as int) <= index < n
    ensures r.Ok? ==> r.value < n && (r.value == index || r.value == index + n)
  {
    if index < -(n as int) || n <= index then Err(IndexOutOfRange)
    else if index < 0 then Ok(index + n)
    else Ok(index)
  }

  /** Python's `xs[start:]` on a list of length `n`: the position the slice
      starts at. Negative starts count from the end; out-of-range starts are
      clamped. */
  function SliceStart(n: nat, start: int): (p: nat)
    ensures p <= n
    ensures 0 <= start <= n ==> p == start
  {
    if start < 0 then (if start + n < 0 then 0 else start + n)
    else if start > n then n
    else start
  }

  /** The partners of the pivot at position `i` of the sorted gene list. */
  function Batch(ordered: seq<string>, i: nat): set<(string, string)>
    requires i < |ordered|
  {
    set b | b in ordered[i + 1..] :: (ordered[i], b)
  }

  function GeneKnockoutsFile(index: int): string {
    "growth_double_gene_knockouts_" + IntToString(index) + ".pkl"
  }

  function FunctionKnockoutsFile(index: int): string {
    "growth_double_function_knockouts_" + IntToString(index) + ".pkl"
  }

  /** cobra's `double_gene_deletion(model, gene_list1, gene_list2)`. */
  type DoubleGeneDeletion = (seq<Reaction>, seq<string>, seq<string>) -> Pickle

  /** `cluster_output` after `main` runs with `argv`, where `index` is
      `int(argv[1])` and `loaded` and `genes` are the reactions and gene ids
      of the model file. */
  function DoubleKnockoutsOutput(argv: seq<string>, index: int, loaded: seq<Reaction>, genes: seq<string>,
                                 solve: Solver, geneDeletion: DoubleGeneDeletion, out: ClusterOutput)
    : Result<ClusterOutput>
  {
    if |argv| != 3 then Err(WrongArgumentCount)
    else
      var ordered := SortedNames(genes);
      var p :- ListIndex(|ordered|, index);
      PivotOutput(OpenUptake(loaded, SdMinusHisExchanges()), genes, ordered[p],
                  ordered[SliceStart(|ordered|, index + 1)..], index, solve, geneDeletion, out)
  }

  /** The two pickles `main` writes for `pivot` and its `partners`. */
  function PivotOutput(rs: seq<Reaction>, genes: seq<string>, pivot: string, partners: seq<string>, index: int,
                       solve: Solver, geneDeletion: DoubleGeneDeletion, out: ClusterOutput)
    : Result<ClusterOutput>
  {
    var geneGrowth := geneDeletion(rs, [pivot], partners);
    var functionGrowth :- DoubleFunctionKnockoutsSpec(rs, genes, pivot, partners, solve);
    Ok(out[GeneKnockoutsFile(index) := geneGrowth][FunctionKnockoutsFile(index) := PairGrowth(functionGrowth)])
  }

  /** `main`: `argv` is `sys.argv` (script, pivot index, model path);
      `model` is the model read from the path. */
  method DoubleKnockoutsMain(argv: seq<string>, index: int, model: Model, solve: Solver,
                             geneDeletion: DoubleGeneDeletion, out: ClusterOutput)
    returns (r: Result<ClusterOutput>)
    modifies model.reactions
    ensures r == DoubleKnockoutsOutput(argv, index, old(model.reactions[..]), model.genes, solve, geneDeletion, out)
    ensures |argv| != 3 ==> model.reactions[..] == old(model.reactions[..])
    ensures |argv| == 3 ==>
      model.reactions[..] == OpenUptake(old(model.reactions[..]), SdMinusHisExchanges())
  {
    if |argv| != 3 {
      return Err(WrongArgumentCount);
    }
    LoadSdMinusHis(model);
    var ordered := SortedNames(model.genes);
    var p := ListIndex(|ordered|, index);
    if p.Err? {
      return Err(p.error);
    }
    var pivot := ordered[p.value];
    var partners := ordered[SliceStart(|ordered|, index + 1)..];
    var geneGrowth := geneDeletion(model.reactions[..], [pivot], partners);
    var functionGrowth := DoubleFunctionKnockouts(model, pivot, partners, solve);
    if functionGrowth.Err? {
      return Err(functionGrowth.error);
    }
    r := Ok(out[GeneKnockoutsFile(index) := geneGrowth][FunctionKnockoutsFile(index) := PairGrowth(functionGrowth.value)]);
  }

  /** The sorted gene list of a model without repeated ids is strictly
      ascending and holds the same genes. */
  lemma OrderedGenes(genes: seq<string>)
    requires Distinct(genes)
    ensures var ordered := SortedNames(genes);
      && |ordered| == |genes|
      && (forall g :: g in ordered <==> g in genes)
      && StrictlySorted(ordered)
  {
    var ordered := SortedNames(genes);
    SortedDistinctNames(genes);
    forall g ensures g in ordered <==> g in genes {
      assert g in ordered <==> g in multiset(ordered);
      assert g in genes <==> g in multiset(genes);
    }
  }

  /** For a pivot index `0 <= index < n`, `main` writes the pivot's pairs
      into the two files named with the index. */
  lemma DoubleKnockoutsBatch(argv: seq<string>, index: int, loaded: seq<Reaction>, genes: seq<string>,
                             solve: Solver, geneDeletion: DoubleGeneDeletion, out: ClusterOutput)
    requires |argv| == 3 && Distinct(genes) && 0 <= index < |genes|
    ensures var r := DoubleKnockoutsOutput(argv, index, loaded, genes, solve, geneDeletion, out);
      && r.Ok?
      && FunctionKnockoutsFile(index) in r.value && GeneKnockoutsFile(index) in r.value
      && r.value[FunctionKnockoutsFile(index)].PairGrowth?
      && r.value[FunctionKnockoutsFile(index)].growth.Keys == Batch(SortedNames(genes), index)
  {
    var ordered := SortedNames(genes);
    OrderedGenes(genes);
    var rs := OpenUptake(loaded, SdMinusHisExchanges());
    PivotGrowthKeys(rs, genes, ordered, index, solve);
    DoubleKnockoutsOutputPivot(argv, index, loaded, genes, solve, geneDeletion, out);
    PivotOutputFiles(rs, genes, ordered[index], ordered[index + 1..], index, solve, geneDeletion, out);
  }

  /** The pivot at position `i` of a strictly sorted list of model genes
      gets one growth entry per later gene. */
  lemma PivotGrowthKeys(rs: seq<Reaction>, genes: seq<string>, ordered: seq<string>, i: nat, solve: Solver)
    requires StrictlySorted(ordered) && i < |ordered| && forall g :: g in ordered ==> g in genes
    ensures var r := DoubleFunctionKnockoutsSpec(rs, genes, ordered[i], ordered[i + 1..], solve);
      r.Ok? && r.value.Keys == Batch(ordered, i)
  {
    PartnersAfterPivot(ordered, i);
    DoubleFunctionKnockoutsEntries(rs, genes, ordered[i], ordered[i + 1..], solve);
  }

  /** A non-negative index in range takes the gene at that position of the
      sorted list as pivot and the genes after it as partners. */
  lemma DoubleKnockoutsOutputPivot(argv: seq<string>, index: int, loaded: seq<Reaction>, genes: seq<string>,
                                   solve: Solver, geneDeletion: DoubleGeneDeletion, out: ClusterOutput)
    requires |argv| == 3 && 0 <= index < |genes|
    ensures var ordered := SortedNames(genes);
      DoubleKnockoutsOutput(argv, index, loaded, genes, solve, geneDeletion, out) ==
        PivotOutput(OpenUptake(loaded, SdMinusHisExchanges()), genes, ordered[index], ordered[index + 1..],
                    index, solve, geneDeletion, out)
  {
    var ordered := SortedNames(genes);
    assert ListIndex(|ordered|, index) == Ok(index);
    assert SliceStart(|ordered|, index + 1) == index + 1;
  }

  /** When every pair succeeds, both files are written: the gene matrix
      from cobra and the pair growth map. */
  lemma PivotOutputFiles(rs: seq<Reaction>, genes: seq<string>, pivot: string, partners: seq<string>, index: int,
                         solve: Solver, geneDeletion: DoubleGeneDeletion, out: ClusterOutput)
    requires DoubleFunctionKnockoutsSpec(rs, genes, pivot, partners, solve).Ok?
    ensures var r := PivotOutput(rs, genes, pivot, partners, index, solve, geneDeletion, out);
      && r.Ok?
      && r.value.Keys == out.Keys + {GeneKnockoutsFile(index), FunctionKnockoutsFile(index)}
      && r.value[GeneKnockoutsFile(index)] == geneDeletion(rs, [pivot], partners)
      && r.value[FunctionKnockoutsFile(index)] == PairGrowth(DoubleFunctionKnockoutsSpec(rs, genes, pivot, partners, solve).value)
  {
    OutputNamesDistinct(index, index);
  }

  /** In a strictly sorted list, the genes after position `i` are all
      different from the one at `i` and come after it. */
  lemma PartnersAfterPivot(ordered: seq<string>, i: nat)
    requires StrictlySorted(ordered) && i < |ordered|
    ensures forall b :: b in ordered[i + 1..] ==> b != ordered[i] && Below(ordered[i], b) && b in ordered
  {
    forall b | b in ordered[i + 1..] ensures b != ordered[i] && Below(ordered[i], b) && b in ordered {
      var j :| 0 <= j < |ordered[i + 1..]| && ordered[i + 1..][j] == b;
      assert ordered[i + 1 + j] == b;
    }
  }

  /** The pivot at position `i` of a strictly sorted list has `n - i - 1`
      partners, each strictly after it in sort order. */
  lemma BatchShape(ordered: seq<string>, i: nat)
    requires StrictlySorted(ordered) && i < |ordered|
    ensures |Batch(ordered, i)| == |ordered| - i - 1
    ensures forall a, b :: (a, b) in Batch(ordered, i) ==> a == ordered[i] && Below(a, b)
  {
    var partners := ordered[i + 1..];
    assert Batch(ordered, i) == set b | b in partners :: (ordered[i], b);
    assert Distinct(partners) by {
      forall j, k | 0 <= j < k < |partners| ensures partners[j] != partners[k] {
        assert Below(ordered[i + 1 + j], ordered[i + 1 + k]);
      }
    }
    PairSetSize(ordered[i], partners);
    PartnersAfterPivot(ordered, i);
  }

  /** Across the pivots `0 .. n-2`, every pair of distinct genes is
      produced, in sort order. */
  lemma BatchesCoverPairs(ordered: seq<string>, a: string, b: string)
    requires StrictlySorted(ordered) && a in ordered && b in ordered && Below(a, b)
    ensures exists i :: 0 <= i < |ordered| - 1 && (a, b) in Batch(ordered, i)
  {
    var i :| 0 <= i < |ordered| && ordered[i] == a;
    var j :| 0 <= j < |ordered| && ordered[j] == b;
    if j < i {
      BelowTrichotomy(a, b);
    }
    assert ordered[i + 1..][j - i - 1] == b;
    assert (a, b) in Batch(ordered, i);
  }

  /** Different pivots share no pair, so each pair is produced once. */
  lemma BatchesDisjoint(ordered: seq<string>, i: nat, j: nat)
    requires StrictlySorted(ordered) && i < j < |ordered|
    ensures Batch(ordered, i) !! Batch(ordered, j)
  {
    assert Below(ordered[i], ordered[j]);
  }

  lemma {:induction false} AffixCancel(prefix: string, x: string, y: string, suffix: string)
    requires prefix + x + suffix == prefix + y + suffix
    ensures x == y
  {
    var l, r := prefix + x + suffix, prefix + y + suffix;
    assert |x| == |y|;
    assert x == l[|prefix|..|prefix| + |x|];
    assert y == r[|prefix|..|prefix| + |y|];
  }

  /** Each pivot index writes its own two files: different indices never
      share a file name, and the gene and function files differ. */
  lemma OutputNamesDistinct(i: int, j: int)
    ensures GeneKnockoutsFile(i) != FunctionKnockoutsFile(j)
    ensures i != j ==> GeneKnockoutsFile(i) != GeneKnockoutsFile(j)
    ensures i != j ==> FunctionKnockoutsFile(i) != FunctionKnockoutsFile(j)
  {
    assert GeneKnockoutsFile(i) == "growth_double_gene_knockouts_" + (IntToString(i) + ".pkl");
    assert FunctionKnockoutsFile(j) == "growth_double_function_knockouts_" + (IntToString(j) + ".pkl");
    assert GeneKnockoutsFile(i)[14] == 'g';
    assert FunctionKnockoutsFile(j)[14] == 'f';
    if GeneKnockoutsFile(i) == GeneKnockoutsFile(j) {
      AffixCancel("growth_double_gene_knockouts_", IntToString(i), IntToString(j), ".pkl");
      IntToStringInjective(i, j);
    }
    if FunctionKnockoutsFile(i) == FunctionKnockoutsFile(j) {
      AffixCancel("growth_double_function_knockouts_", IntToString(i), IntToString(j), ".pkl");
      IntToStringInjective(i, j);
    }
  }

  /** The index `-1` names the last gene as pivot but slices from the start,
      so the pivot is paired with itself and the run fails. */
  lemma LastPivotByNegativeIndex(argv: seq<string>, loaded: seq<Reaction>, genes: seq<string>,
                                 solve: Solver, geneDeletion: DoubleGeneDeletion, out: ClusterOutput)
    requires |argv| == 3 && Distinct(genes) && genes != []
    ensures DoubleKnockoutsOutput(argv, -1, loaded, genes, solve, geneDeletion, out).Err?
  {
    var ordered := SortedNames(genes);
    OrderedGenes(genes);
    var rs := OpenUptake(loaded, SdMinusHisExchanges());
    assert ListIndex(|ordered|, -1) == Ok(|ordered| - 1);
    assert ordered[SliceStart(|ordered|, 0)..] == ordered;
    assert ordered[|ordered| - 1] in ordered;
    DoubleFunctionKnockoutsEntries(rs, genes, ordered[|ordered| - 1], ordered, solve);
  }
}
