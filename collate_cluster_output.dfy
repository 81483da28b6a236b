/** `collate_cluster_output.py`: gather the per-environment and per-pivot
    pickles the cluster jobs left in `cluster_output` into the model
    directory's five tables.

    The carbon and nitrogen source lists (read from text files), the model
    (read from SBML) and the two directories are parameters; a directory is
    a map from file name to content. */
module Collate {
  import opened Common
  import opened Text
  import opened Sorting
  import opened Metabolic
  import opened FbaUtils
  import opened Files
  import opened SingleKnockouts
  import opened DoubleKnockouts

  /** A growth environment: carbon source, nitrogen source. */
  type Environment = (string, string)

  const NoGrowthPath: string := "minimal_media_no_growth.tsv"
  const FunctionLossCostsPath: string := "function_loss_costs.tsv"
  const GeneLossCostsPath: string := "gene_loss_costs.tsv"
  const DoubleGenePath: string := "double_gene_loss_growth.csv"
  const DoubleFunctionPath: string := "double_function_loss_growth.csv"

  /** `modelGeneNames`. */
  function GeneSet(genes: seq<string>): set<string> {
    set g | g in genes
  }

  // ---------------------------------------------------------------------
  // Environments and input file names

  /** The inner loop's environments for one carbon source. */
  function Row(carbon: string, nitrogens: seq<string>): (row: seq<Environment>)
    ensures |row| == |nitrogens|
    ensures forall j :: 0 <= j < |row| ==> row[j] == (carbon, nitrogens[j])
  {
    seq(|nitrogens|, j requires 0 <= j < |nitrogens| => (carbon, nitrogens[j]))
  }

  /** The environments in the order the two nested loops visit them. */
  function Environments(carbons: seq<string>, nitrogens: seq<string>): seq<Environment> {
    if carbons == [] then []
    else Environments(carbons[..|carbons| - 1], nitrogens) + Row(carbons[|carbons| - 1], nitrogens)
  }

  /** Every carbon source meets every nitrogen source, and nothing else is
      visited. */
  lemma {:induction false} EnvironmentsMembers(carbons: seq<string>, nitrogens: seq<string>)
    ensures forall e :: e in Environments(carbons, nitrogens) <==> e.0 in carbons && e.1 in nitrogens
    decreases |carbons|
  {
    if carbons != [] {
      var front := carbons[..|carbons| - 1];
      var last := carbons[|carbons| - 1];
      EnvironmentsMembers(front, nitrogens);
      assert forall c :: c in carbons <==> c in front || c == last by {
        assert carbons == front + [last];
      }
      forall e: Environment | e.0 == last && e.1 in nitrogens ensures e in Row(last, nitrogens) {
        var j :| 0 <= j < |nitrogens| && nitrogens[j] == e.1;
        assert Row(last, nitrogens)[j] == e;
      }
    }
  }

  lemma MultiplySuccessor(k: nat, n: nat)
    ensures (k + 1) * n == k * n + n
  {
  }

  /** Carbon-major order: the `j`-th nitrogen source of the `i`-th carbon
      source is visited at step `i * |nitrogens| + j`. */
  lemma {:induction false} EnvironmentsOrder(carbons: seq<string>, nitrogens: seq<string>, i: nat, j: nat)
    requires i < |carbons| && j < |nitrogens|
    ensures |Environments(carbons, nitrogens)| == |carbons| * |nitrogens|
    ensures i * |nitrogens| + j < |carbons| * |nitrogens|
    ensures Environments(carbons, nitrogens)[i * |nitrogens| + j] == (carbons[i], nitrogens[j])
    decreases |carbons|
  {
    var front := carbons[..|carbons| - 1];
    var k := |carbons| - 1;
    EnvironmentsLength(front, nitrogens);
    MultiplySuccessor(k, |nitrogens|);
    if i < k {
      EnvironmentsOrder(front, nitrogens, i, j);
      assert front[i] == carbons[i];
    } else {
      assert i * |nitrogens| + j == k * |nitrogens| + j;
    }
  }

  lemma {:induction false} EnvironmentsLength(carbons: seq<string>, nitrogens: seq<string>)
    ensures |Environments(carbons, nitrogens)| == |carbons| * |nitrogens|
    decreases |carbons|
  {
    if carbons != [] {
      EnvironmentsLength(carbons[..|carbons| - 1], nitrogens);
      MultiplySuccessor(|carbons| - 1, |nitrogens|);
    }
  }

  lemma {:induction false} EnvironmentsAppend(a: seq<string>, b: seq<string>, nitrogens: seq<string>)
    ensures Environments(a + b, nitrogens) == Environments(a, nitrogens) + Environments(b, nitrogens)
    decreases |b|
  {
    if b == [] {
      assert a + b == a;
    } else {
      var front := b[..|b| - 1];
      assert (a + b)[..|a + b| - 1] == a + front;
      assert (a + b)[|a + b| - 1] == b[|b| - 1];
      EnvironmentsAppend(a, front, nitrogens);
    }
  }

  /** Python's `(prefix + c + '_AND_' + n + '.pkl').replace(' ', '_')`. */
  function ClusterFileName(prefix: string, e: Environment): string {
    ReplaceChar(prefix + e.0 + "_AND_" + e.1 + ".pkl", ' ', '_')
  }

  function GeneLossInput(e: Environment): string {
    ClusterFileName("gene_loss_cost_", e)
  }

  function FunctionLossInput(e: Environment): string {
    ClusterFileName("function_loss_cost_", e)
  }

  /** The names read here are the names `single_knockouts.py` writes. */
  lemma InputNamesMatch(e: Environment)
    ensures GeneLossInput(e) == GeneLossCostFile(e.0, e.1)
    ensures FunctionLossInput(e) == FunctionLossCostFile(e.0, e.1)
  {
    assert ' ' !in "gene_loss_cost_" by {
      var p := "gene_loss_cost_";
      assert forall i :: 0 <= i < |p| ==> p[i] != ' ';
    }
    assert ' ' !in "function_loss_cost_" by {
      var p := "function_loss_cost_";
      assert forall i :: 0 <= i < |p| ==> p[i] != ' ';
    }
    SpacelessPrefix("gene_loss_cost_", e);
    SpacelessPrefix("function_loss_cost_", e);
  }

  lemma SpacelessPrefix(prefix: string, e: Environment)
    requires ' ' !in prefix
    ensures ClusterFileName(prefix, e) == prefix + OutputSuffix(e.0, e.1)
  {
    var suffix := e.0 + "_AND_" + e.1 + ".pkl";
    assert prefix + e.0 + "_AND_" + e.1 + ".pkl" == prefix + suffix;
    ReplaceCharConcat(prefix, suffix, ' ', '_');
    ReplaceCharAbsent(prefix, ' ', '_');
  }

  // ---------------------------------------------------------------------
  // The environment loop

  /** The loop's variables: the model's reactions (reassigned by
      `minimal_media`), `mediaWithGrowth`, `mediaNoGrowth`, `glc`, `flc`. */
  datatype Collected = Collected(
    rs: seq<Reaction>,
    withGrowth: seq<Environment>,
    noGrowth: seq<Environment>,
    glc: map<string, seq<real>>,
    flc: map<string, seq<real>>)

  function Start(loaded: seq<Reaction>): Collected {
    Collected(loaded, [], [], map[], map[])
  }

  /** `table[gene].append(cost)` for every entry of `costs`, `table` being a
      `defaultdict(list)`. */
  function AppendedCosts(table: map<string, seq<real>>, costs: map<string, real>): map<string, seq<real>> {
    map g | g in table.Keys + costs.Keys ::
      (if g in table then table[g] else []) + (if g in costs then [costs[g]] else [])
  }

  /** The `for geneName, cost in ....items()` loop; the iteration order of
      the dictionary is left open. */
  method AppendCosts(table: map<string, seq<real>>, costs: map<string, real>) returns (r: map<string, seq<real>>)
    ensures r == AppendedCosts(table, costs)
  {
    r := table;
    var todo := costs.Keys;
    assert Only(costs, costs.Keys - todo) == map[];
    assert AppendedCosts(table, map[]) == table by {
      var a := AppendedCosts(table, map[]);
      forall g | g in a ensures a[g] == table[g] {
        assert table[g] + [] == table[g];
      }
    }
    while todo != {}
      invariant todo <= costs.Keys
      invariant r == AppendedCosts(table, Only(costs, costs.Keys - todo))
      decreases todo
    {
      var g :| g in todo;
      assert Only(costs, costs.Keys - (todo - {g})) == Only(costs, costs.Keys - todo)[g := costs[g]];
      r := r[g := (if g in r then r[g] else []) + [costs[g]]];
      todo := todo - {g};
    }
    assert Only(costs, costs.Keys - {}) == costs;
  }

  /** The entries of `costs` whose keys are in `keys`. */
  function Only(costs: map<string, real>, keys: set<string>): map<string, real> {
    map g | g in keys && g in costs :: costs[g]
  }

  /** Open and unpickle a cost file, and check that it names exactly the
      model's genes. */
  function LoadCosts(cluster: ClusterOutput, path: string, genes: set<string>): (r: Result<map<string, real>>)
    ensures r.Ok? <==> path in cluster && cluster[path].GeneCosts? && cluster[path].costs.Keys == genes
    ensures r.Ok? ==> r.value == cluster[path].costs
  {
    if path !in cluster then Err(FileMissing(path))
    else if !cluster[path].GeneCosts? then Err(MalformedPickle(path))
    else if cluster[path].costs.Keys != genes then Err(UnknownOrMissingGenes(path))
    else Ok(cluster[path].costs)
  }

  /** One pass of the inner loop body. */
  function EnvStep(st: Collected, e: Environment, genes: set<string>, cluster: ClusterOutput, solve: Solver)
    : Result<Collected>
  {
    if GeneLossInput(e) !in cluster then
      var rs := MinimalMediaBounds(st.rs, e.0, e.1);
      if solve(rs) > GrowthThreshold then Err(GrowthButNoFile(e.0, e.1))
      else Ok(st.(rs := rs, noGrowth := st.noGrowth + [e]))
    else
      var g :- LoadCosts(cluster, GeneLossInput(e), genes);
      var f :- LoadCosts(cluster, FunctionLossInput(e), genes);
      Ok(st.(withGrowth := st.withGrowth + [e], glc := AppendedCosts(st.glc, g), flc := AppendedCosts(st.flc, f)))
  }

  /** The loop's state after the environments `envs`, or the first error. */
  function EnvLoop(start: Collected, envs: seq<Environment>, genes: set<string>, cluster: ClusterOutput,
                   solve: Solver): Result<Collected>
    decreases |envs|
  {
    if envs == [] then Ok(start)
    else
      var st :- EnvLoop(start, envs[..|envs| - 1], genes, cluster, solve);
      EnvStep(st, envs[|envs| - 1], genes, cluster, solve)
  }

  lemma EnvLoopSnoc(start: Collected, envs: seq<Environment>, e: Environment, genes: set<string>,
                    cluster: ClusterOutput, solve: Solver)
    ensures var before := EnvLoop(start, envs, genes, cluster, solve);
      EnvLoop(start, envs + [e], genes, cluster, solve) ==
        if before.Err? then before else EnvStep(before.value, e, genes, cluster, solve)
  {
    assert (envs + [e])[..|envs|] == envs;
  }

  /** Once an environment fails, the run stops with its error. */
  lemma {:induction false} EnvLoopErrorSticks(start: Collected, a: seq<Environment>, b: seq<Environment>,
                                              genes: set<string>, cluster: ClusterOutput, solve: Solver)
    requires EnvLoop(start, a, genes, cluster, solve).Err?
    ensures EnvLoop(start, a + b, genes, cluster, solve) == EnvLoop(start, a, genes, cluster, solve)
    decreases |b|
  {
    if b == [] {
      assert a + b == a;
    } else {
      var front := b[..|b| - 1];
      assert a + b == (a + front) + [b[|b| - 1]];
      EnvLoopErrorSticks(start, a, front, genes, cluster, solve);
      EnvLoopSnoc(start, a + front, b[|b| - 1], genes, cluster, solve);
    }
  }

  /** The model after `minimal_media` was applied for the environments
      `noGrowth` in turn: the loaded model, or the minimal medium of the
      last of them. */
  function CurrentMedium(loaded: seq<Reaction>, noGrowth: seq<Environment>): seq<Reaction> {
    if noGrowth == [] then loaded
    else MinimalMediaBounds(loaded, noGrowth[|noGrowth| - 1].0, noGrowth[|noGrowth| - 1].1)
  }

  /** Reassigning `model` inside the loop accumulates nothing: the growth
      check for an environment always sees that environment's minimal
      medium on the loaded model. */
  lemma {:induction false} EnvLoopReactions(loaded: seq<Reaction>, envs: seq<Environment>, genes: set<string>,
                                            cluster: ClusterOutput, solve: Solver)
    requires EnvLoop(Start(loaded), envs, genes, cluster, solve).Ok?
    ensures var st := EnvLoop(Start(loaded), envs, genes, cluster, solve).value;
      st.rs == CurrentMedium(loaded, st.noGrowth)
    decreases |envs|
  {
    if envs != [] {
      var front := envs[..|envs| - 1];
      var e := envs[|envs| - 1];
      EnvLoopReactions(loaded, front, genes, cluster, solve);
      var st := EnvLoop(Start(loaded), front, genes, cluster, solve).value;
      if st.noGrowth != [] {
        var last := st.noGrowth[|st.noGrowth| - 1];
        MinimalMediaLastWins(loaded, last.0, last.1, e.0, e.1);
      }
    }
  }

  /** What an environment needs for the run to get past it: both cost files
      when wild type grew, no growth above the threshold otherwise. */
  predicate EnvironmentReady(loaded: seq<Reaction>, e: Environment, genes: set<string>, cluster: ClusterOutput,
                             solve: Solver)
  {
    if GeneLossInput(e) in cluster then
      LoadCosts(cluster, GeneLossInput(e), genes).Ok? && LoadCosts(cluster, FunctionLossInput(e), genes).Ok?
    else solve(MinimalMediaBounds(loaded, e.0, e.1)) <= GrowthThreshold
  }

  predicate AllReady(loaded: seq<Reaction>, envs: seq<Environment>, genes: set<string>, cluster: ClusterOutput,
                     solve: Solver)
  {
    forall k :: 0 <= k < |envs| ==> EnvironmentReady(loaded, envs[k], genes, cluster, solve)
  }

  /** The environment loop succeeds exactly when every environment is ready. */
  lemma {:induction false} EnvLoopOk(loaded: seq<Reaction>, envs: seq<Environment>, genes: set<string>,
                                     cluster: ClusterOutput, solve: Solver)
    ensures EnvLoop(Start(loaded), envs, genes, cluster, solve).Ok? <==>
      forall k :: 0 <= k < |envs| ==> EnvironmentReady(loaded, envs[k], genes, cluster, solve)
    decreases |envs|
  {
    if envs != [] {
      var front := envs[..|envs| - 1];
      var e := envs[|envs| - 1];
      EnvLoopOk(loaded, front, genes, cluster, solve);
      assert forall k :: 0 <= k < |front| ==> front[k] == envs[k];
      var before := EnvLoop(Start(loaded), front, genes, cluster, solve);
      if before.Ok? {
        EnvLoopReactions(loaded, front, genes, cluster, solve);
        var st := before.value;
        if st.noGrowth != [] {
          var last := st.noGrowth[|st.noGrowth| - 1];
          MinimalMediaLastWins(loaded, last.0, last.1, e.0, e.1);
        }
        assert EnvStep(st, e, genes, cluster, solve).Ok? <==> EnvironmentReady(loaded, e, genes, cluster, solve);
      }
    }
  }

  /** The environments of `envs` whose gene-loss file is present (`present`)
      or absent, in visit order. */
  function WithFile(envs: seq<Environment>, cluster: ClusterOutput, present: bool): (r: seq<Environment>)
    ensures forall e :: e in r <==> e in envs && (GeneLossInput(e) in cluster <==> present)
    decreases |envs|
  {
    if envs == [] then []
    else
      var front := WithFile(envs[..|envs| - 1], cluster, present);
      var e := envs[|envs| - 1];
      assert forall x :: x in envs <==> x in envs[..|envs| - 1] || x == e by {
        assert envs == envs[..|envs| - 1] + [e];
      }
      if (GeneLossInput(e) in cluster) == present then front + [e] else front
  }

  /** The two environment lists split the visited environments: each lands
      in exactly one of them, in visit order. */
  lemma {:induction false} EnvLoopPartition(loaded: seq<Reaction>, envs: seq<Environment>, genes: set<string>,
                                            cluster: ClusterOutput, solve: Solver)
    requires EnvLoop(Start(loaded), envs, genes, cluster, solve).Ok?
    ensures var st := EnvLoop(Start(loaded), envs, genes, cluster, solve).value;
      && st.withGrowth == WithFile(envs, cluster, true)
      && st.noGrowth == WithFile(envs, cluster, false)
      && |st.withGrowth| + |st.noGrowth| == |envs|
    decreases |envs|
  {
    if envs != [] {
      EnvLoopPartition(loaded, envs[..|envs| - 1], genes, cluster, solve);
    }
  }

  /** A cost table as the loop builds it: one list per model gene (none
      before the first growth environment), whose slot `k` is the gene's
      cost in the `k`-th growth environment's file named with `prefix`. */
  predicate Aligned(table: map<string, seq<real>>, withGrowth: seq<Environment>, genes: set<string>,
                    cluster: ClusterOutput, prefix: string)
  {
    && table.Keys == (if withGrowth == [] then {} else genes)
    && (forall g :: g in table ==> |table[g]| == |withGrowth|)
    && (forall g, k :: g in table && 0 <= k < |withGrowth| ==> CostFrom(table, withGrowth, cluster, prefix, g, k))
  }

  /** Slot `k` of gene `g`'s list is its cost in the `k`-th growth
      environment's file. */
  predicate CostFrom(table: map<string, seq<real>>, withGrowth: seq<Environment>, cluster: ClusterOutput,
                     prefix: string, g: string, k: nat)
    requires g in table && k < |withGrowth|
  {
    var path := ClusterFileName(prefix, withGrowth[k]);
    && path in cluster && cluster[path].GeneCosts? && g in cluster[path].costs && k < |table[g]|
    && table[g][k] == cluster[path].costs[g]
  }

  lemma AlignedAppend(table: map<string, seq<real>>, withGrowth: seq<Environment>, genes: set<string>,
                      cluster: ClusterOutput, prefix: string, e: Environment)
    requires Aligned(table, withGrowth, genes, cluster, prefix)
    requires LoadCosts(cluster, ClusterFileName(prefix, e), genes).Ok?
    ensures Aligned(AppendedCosts(table, LoadCosts(cluster, ClusterFileName(prefix, e), genes).value),
                    withGrowth + [e], genes, cluster, prefix)
  {
    var costs := LoadCosts(cluster, ClusterFileName(prefix, e), genes).value;
    var next := AppendedCosts(table, costs);
    var ws := withGrowth + [e];
    assert next.Keys == genes;
    forall g, k | g in next && 0 <= k < |ws|
      ensures CostFrom(next, ws, cluster, prefix, g, k)
    {
      assert g in costs;
      if k < |withGrowth| {
        assert next[g] == table[g] + [costs[g]];
        assert ws[k] == withGrowth[k];
        assert CostFrom(table, withGrowth, cluster, prefix, g, k);
      } else {
        assert ws[k] == e;
        assert next[g][k] == costs[g];
      }
    }
  }

  /** Every gene's `glc` and `flc` list has one cost per growth
      environment, slot `k` taken from the `k`-th growth environment's
      files. */
  lemma {:induction false} EnvLoopAligned(loaded: seq<Reaction>, envs: seq<Environment>, genes: set<string>,
                                          cluster: ClusterOutput, solve: Solver)
    requires EnvLoop(Start(loaded), envs, genes, cluster, solve).Ok?
    ensures var st := EnvLoop(Start(loaded), envs, genes, cluster, solve).value;
      && Aligned(st.glc, st.withGrowth, genes, cluster, "gene_loss_cost_")
      && Aligned(st.flc, st.withGrowth, genes, cluster, "function_loss_cost_")
    decreases |envs|
  {
    if envs != [] {
      var front := envs[..|envs| - 1];
      var e := envs[|envs| - 1];
      EnvLoopAligned(loaded, front, genes, cluster, solve);
      var st := EnvLoop(Start(loaded), front, genes, cluster, solve).value;
      if GeneLossInput(e) in cluster {
        AlignedAppend(st.glc, st.withGrowth, genes, cluster, "gene_loss_cost_", e);
        AlignedAppend(st.flc, st.withGrowth, genes, cluster, "function_loss_cost_", e);
      }
    }
  }

  // ---------------------------------------------------------------------
  // Double function knock-outs

  /** `range(len(model.genes) - 1)` has this many pivots. */
  function Pivots(n: nat): nat {
    if n == 0 then 0 else n - 1
  }

  /** One file of the double-function loop: it must exist, hold the pivot's
      `n - i - 1` pairs, and share no pair with the earlier files. */
  function DoubleFunctionStep(table: map<(string, string), real>, cluster: ClusterOutput, n: nat, i: nat)
    : Result<map<(string, string), real>>
  {
    var path := FunctionKnockoutsFile(i);
    if path !in cluster then Err(FileMissing(path))
    else if !cluster[path].PairGrowth? then Err(MalformedPickle(path))
    else
      var batch := cluster[path].growth;
      if |batch| != n - i - 1 then Err(UnexpectedCount(path, |batch|, n - i - 1))
      else if exists k :: k in batch && k in table then Err(DuplicateEntries)
      else Ok(table + batch)
  }

  /** `dblFLC` after the first `k` files. */
  function DoubleFunctionLoad(cluster: ClusterOutput, n: nat, k: nat): Result<map<(string, string), real>> {
    if k == 0 then Ok(map[])
    else
      var table :- DoubleFunctionLoad(cluster, n, k - 1);
      DoubleFunctionStep(table, cluster, n, k - 1)
  }

  lemma {:induction false} DoubleFunctionLoadErrorSticks(cluster: ClusterOutput, n: nat, k: nat, m: nat)
    requires k <= m && DoubleFunctionLoad(cluster, n, k).Err?
    ensures DoubleFunctionLoad(cluster, n, m) == DoubleFunctionLoad(cluster, n, k)
    decreases m - k
  {
    if k < m {
      DoubleFunctionLoadErrorSticks(cluster, n, k, m - 1);
    }
  }

  /** `sum(n - i - 1 for i in range(k))`. */
  function Triangle(n: nat, k: nat): int {
    if k == 0 then 0 else Triangle(n, k - 1) + (n - (k - 1) - 1)
  }

  lemma {:induction false} TriangleClosed(n: nat, k: nat)
    ensures 2 * Triangle(n, k) == k * (2 * n - k - 1)
  {
    if k > 0 {
      TriangleClosed(n, k - 1);
      assert (k - 1) * (2 * n - k) == k * (2 * n - k) - (2 * n - k);
      assert k * (2 * n - k) == k * (2 * n - k - 1) + k;
    }
  }

  /** All pivots together give `n (n - 1) / 2` pairs. */
  lemma TriangleTotal(n: nat)
    ensures 2 * Triangle(n, Pivots(n)) == n * (n - 1)
  {
    TriangleClosed(n, Pivots(n));
    if n > 0 {
      assert (n - 1) * (2 * n - (n - 1) - 1) == (n - 1) * n;
    }
  }

  lemma DisjointUnionSize(table: map<(string, string), real>, batch: map<(string, string), real>)
    requires forall k :: k in batch ==> k !in table
    ensures |table + batch| == |table| + |batch|
  {
    assert (table + batch).Keys == table.Keys + batch.Keys;
    assert table.Keys * batch.Keys == {};
    assert |table.Keys + batch.Keys| == |table.Keys| + |batch.Keys|;
  }

  /** The files' counts add up: after `k` files there are
      `sum(n - i - 1 for i < k)` pairs, `n (n - 1) / 2` after all pivots. */
  lemma {:induction false} DoubleFunctionLoadSize(cluster: ClusterOutput, n: nat, k: nat)
    requires DoubleFunctionLoad(cluster, n, k).Ok?
    ensures |DoubleFunctionLoad(cluster, n, k).value| == Triangle(n, k)
    decreases k
  {
    if k > 0 {
      DoubleFunctionLoadSize(cluster, n, k - 1);
      var table := DoubleFunctionLoad(cluster, n, k - 1).value;
      var batch := cluster[FunctionKnockoutsFile(k - 1)].growth;
      DisjointUnionSize(table, batch);
    }
  }

  /** The `i`-th double-function file exists and holds a pair map. */
  predicate PairFile(cluster: ClusterOutput, i: nat) {
    FunctionKnockoutsFile(i) in cluster && cluster[FunctionKnockoutsFile(i)].PairGrowth?
  }

  /** Pair `p` is in the `i`-th double-function file. */
  predicate InBatch(cluster: ClusterOutput, i: nat, p: (string, string)) {
    FunctionKnockoutsFile(i) in cluster && cluster[FunctionKnockoutsFile(i)].PairGrowth? &&
    p in cluster[FunctionKnockoutsFile(i)].growth
  }

  lemma StepNeedsPairFile(table: map<(string, string), real>, cluster: ClusterOutput, n: nat, i: nat)
    requires DoubleFunctionStep(table, cluster, n, i).Ok?
    ensures PairFile(cluster, i)
  {
  }

  /** Every file up to `k` was present and held a pair map. */
  lemma {:induction false} DoubleFunctionLoadFiles(cluster: ClusterOutput, n: nat, k: nat)
    requires DoubleFunctionLoad(cluster, n, k).Ok?
    ensures forall i :: 0 <= i < k ==> PairFile(cluster, i)
    decreases k
  {
    if k > 0 {
      DoubleFunctionLoadFiles(cluster, n, k - 1);
      assert DoubleFunctionLoad(cluster, n, k - 1).Ok?;
      assert forall i :: 0 <= i < k - 1 ==> PairFile(cluster, i);
      StepNeedsPairFile(DoubleFunctionLoad(cluster, n, k - 1).value, cluster, n, k - 1);
      assert PairFile(cluster, k - 1);
    }
  }

  /** Every pair of every file is loaded with the growth its file gives:
      the duplicate check means no later file overwrites it. */
  lemma {:induction false} DoubleFunctionLoadKeeps(cluster: ClusterOutput, n: nat, k: nat)
    requires DoubleFunctionLoad(cluster, n, k).Ok?
    ensures var table := DoubleFunctionLoad(cluster, n, k).value;
      forall i, p :: 0 <= i < k && InBatch(cluster, i, p) ==>
        p in table && table[p] == cluster[FunctionKnockoutsFile(i)].growth[p]
    decreases k
  {
    if k > 0 {
      DoubleFunctionLoadKeeps(cluster, n, k - 1);
      var before := DoubleFunctionLoad(cluster, n, k - 1).value;
      var batch := cluster[FunctionKnockoutsFile(k - 1)].growth;
      var table := DoubleFunctionLoad(cluster, n, k).value;
      assert table == before + batch;
      forall i, p | 0 <= i < k && InBatch(cluster, i, p)
        ensures p in table && table[p] == cluster[FunctionKnockoutsFile(i)].growth[p]
      {
        if i < k - 1 {
          assert p in before;
          assert p !in batch;
        }
      }
    }
  }

  /** Every loaded pair comes from one of the files. */
  lemma {:induction false} DoubleFunctionLoadFrom(cluster: ClusterOutput, n: nat, k: nat)
    requires DoubleFunctionLoad(cluster, n, k).Ok?
    ensures forall p :: p in DoubleFunctionLoad(cluster, n, k).value ==> exists i :: 0 <= i < k && InBatch(cluster, i, p)
    decreases k
  {
    if k > 0 {
      DoubleFunctionLoadFrom(cluster, n, k - 1);
      var before := DoubleFunctionLoad(cluster, n, k - 1).value;
      var batch := cluster[FunctionKnockoutsFile(k - 1)].growth;
      forall p | p in DoubleFunctionLoad(cluster, n, k).value ensures exists i :: 0 <= i < k && InBatch(cluster, i, p) {
        if p in batch {
          assert InBatch(cluster, k - 1, p);
        } else {
          assert p in before;
        }
      }
    }
  }

  // ---------------------------------------------------------------------
  // Double gene knock-outs

  /** A pickle that is cobra's result dictionary with a proper 2-d array. */
  predicate Rectangular(p: Pickle) {
    p.GrowthMatrix? && forall i :: 0 <= i < |p.data| ==> |p.data[i]| == p.columns
  }

  /** The inner loop over a row's first `cols` columns:
      `dblGLC[(geneA, y[j])] = data[i, j]`. */
  function LoadRow(table: map<(string, string), real>, geneA: string, y: seq<string>, row: seq<real>, cols: nat)
    : Result<map<(string, string), real>>
    requires cols <= |row|
  {
    if cols == 0 then Ok(table)
    else
      var t :- LoadRow(table, geneA, y, row, cols - 1);
      if cols - 1 < |y| then Ok(t[(geneA, y[cols - 1]) := row[cols - 1]]) else Err(IndexOutOfRange)
  }

  /** The outer loop over the matrix's first `rows` rows; `geneA = x[i]` is
      read before the row's columns. */
  function LoadRows(table: map<(string, string), real>, m: Pickle, rows: nat): Result<map<(string, string), real>>
    requires Rectangular(m) && rows <= |m.data|
  {
    if rows == 0 then Ok(table)
    else
      var t :- LoadRows(table, m, rows - 1);
      if rows - 1 < |m.x| then LoadRow(t, m.x[rows - 1], m.y, m.data[rows - 1], m.columns)
      else Err(IndexOutOfRange)
  }

  lemma {:induction false} LoadRowOk(table: map<(string, string), real>, geneA: string, y: seq<string>,
                                     row: seq<real>, cols: nat)
    requires cols <= |row|
    ensures LoadRow(table, geneA, y, row, cols).Ok? <==> cols <= |y|
    decreases cols
  {
    if cols > 0 {
      LoadRowOk(table, geneA, y, row, cols - 1);
    }
  }

  /** A row writes only keys whose first gene is `geneA`, and leaves every
      other entry as it was. */
  lemma {:induction false} LoadRowFrame(table: map<(string, string), real>, geneA: string, y: seq<string>,
                                        row: seq<real>, cols: nat)
    requires cols <= |row| && LoadRow(table, geneA, y, row, cols).Ok?
    ensures var t := LoadRow(table, geneA, y, row, cols).value;
      && t.Keys == table.Keys + (set j | 0 <= j < cols && j < |y| :: (geneA, y[j]))
      && (forall p :: p in table && p.0 != geneA ==> t[p] == table[p])
    decreases cols
  {
    if cols > 0 {
      LoadRowFrame(table, geneA, y, row, cols - 1);
      var before := set j | 0 <= j < cols - 1 && j < |y| :: (geneA, y[j]);
      var after := set j | 0 <= j < cols && j < |y| :: (geneA, y[j]);
      assert after == before + {(geneA, y[cols - 1])};
    }
  }

  /** With distinct column genes, the row's entries are its cells. */
  lemma {:induction false} LoadRowEntries(table: map<(string, string), real>, geneA: string, y: seq<string>,
                                          row: seq<real>, cols: nat)
    requires cols <= |row| && LoadRow(table, geneA, y, row, cols).Ok? && Distinct(y)
    ensures forall j :: 0 <= j < cols ==>
      && j < |y| && (geneA, y[j]) in LoadRow(table, geneA, y, row, cols).value
      && LoadRow(table, geneA, y, row, cols).value[(geneA, y[j])] == row[j]
    decreases cols
  {
    if cols > 0 {
      LoadRowEntries(table, geneA, y, row, cols - 1);
      LoadRowOk(table, geneA, y, row, cols);
    }
  }

  /** The matrix loop fails exactly when it reads past `x` or, with at
      least one row, past `y`. */
  lemma {:induction false} LoadRowsOk(table: map<(string, string), real>, m: Pickle, rows: nat)
    requires Rectangular(m) && rows <= |m.data|
    ensures LoadRows(table, m, rows).Ok? <==> rows <= |m.x| && (rows == 0 || m.columns <= |m.y|)
    decreases rows
  {
    if rows > 0 {
      LoadRowsOk(table, m, rows - 1);
      if LoadRows(table, m, rows - 1).Ok? && rows - 1 < |m.x| {
        LoadRowOk(LoadRows(table, m, rows - 1).value, m.x[rows - 1], m.y, m.data[rows - 1], m.columns);
      }
    }
  }

  /** With distinct row and column genes, cell `(a, b)` of the matrix is
      the entry for `(x[a], y[b])`, whatever the table held before: later
      files overwrite earlier ones. */
  lemma {:induction false} LoadRowsEntries(table: map<(string, string), real>, m: Pickle, rows: nat)
    requires Rectangular(m) && rows <= |m.data| && LoadRows(table, m, rows).Ok?
    requires Distinct(m.x) && Distinct(m.y)
    ensures forall a, b :: 0 <= a < rows && 0 <= b < m.columns ==>
      a < |m.x| && b < |m.y| && (m.x[a], m.y[b]) in LoadRows(table, m, rows).value &&
      LoadRows(table, m, rows).value[(m.x[a], m.y[b])] == m.data[a][b]
    decreases rows
  {
    if rows > 0 {
      LoadRowsOk(table, m, rows);
      var before := LoadRows(table, m, rows - 1).value;
      var geneA := m.x[rows - 1];
      LoadRowsEntries(table, m, rows - 1);
      LoadRowFrame(before, geneA, m.y, m.data[rows - 1], m.columns);
      LoadRowEntries(before, geneA, m.y, m.data[rows - 1], m.columns);
      forall a, b | 0 <= a < rows - 1 && 0 <= b < m.columns
        ensures (m.x[a], m.y[b]).0 != geneA
      {
      }
    }
  }

  /** One file of the double-gene loop: only its existence is checked. */
  function DoubleGeneStep(table: map<(string, string), real>, cluster: ClusterOutput, i: nat)
    : Result<map<(string, string), real>>
  {
    var path := GeneKnockoutsFile(i);
    if path !in cluster then Err(FileMissing(path))
    else if !Rectangular(cluster[path]) then Err(MalformedPickle(path))
    else LoadRows(table, cluster[path], |cluster[path].data|)
  }

  /** `dblGLC` after the first `k` files. */
  function DoubleGeneLoad(cluster: ClusterOutput, k: nat): Result<map<(string, string), real>> {
    if k == 0 then Ok(map[])
    else
      var table :- DoubleGeneLoad(cluster, k - 1);
      DoubleGeneStep(table, cluster, k - 1)
  }

  lemma {:induction false} DoubleGeneLoadErrorSticks(cluster: ClusterOutput, k: nat, m: nat)
    requires k <= m && DoubleGeneLoad(cluster, k).Err?
    ensures DoubleGeneLoad(cluster, m) == DoubleGeneLoad(cluster, k)
    decreases m - k
  {
    if k < m {
      DoubleGeneLoadErrorSticks(cluster, k, m - 1);
    }
  }

  /** No count and no duplicate check: the last file's matrix decides its
      pairs, whatever the earlier files held. */
  lemma DoubleGeneLoadLastWins(cluster: ClusterOutput, k: nat)
    requires k > 0 && DoubleGeneLoad(cluster, k).Ok?
    requires GeneKnockoutsFile(k - 1) in cluster && cluster[GeneKnockoutsFile(k - 1)].GrowthMatrix?
    requires Distinct(cluster[GeneKnockoutsFile(k - 1)].x) && Distinct(cluster[GeneKnockoutsFile(k - 1)].y)
    ensures var m := cluster[GeneKnockoutsFile(k - 1)];
      forall a, b :: 0 <= a < |m.data| && 0 <= b < m.columns ==>
        a < |m.x| && b < |m.y| && (m.x[a], m.y[b]) in DoubleGeneLoad(cluster, k).value &&
        DoubleGeneLoad(cluster, k).value[(m.x[a], m.y[b])] == m.data[a][b]
  {
    var m := cluster[GeneKnockoutsFile(k - 1)];
    LoadRowsEntries(DoubleGeneLoad(cluster, k - 1).value, m, |m.data|);
  }

  // ---------------------------------------------------------------------
  // Writing the tables

  /** `if not os.path.exists(path): write`. */
  function WriteIfAbsent(dir: ModelDirectory, path: string, t: Table): ModelDirectory {
    if path in dir then dir else dir[path := t]
  }

  /** Write each output in turn, skipping those that exist. */
  function WriteAll(dir: ModelDirectory, outputs: seq<(string, Table)>): ModelDirectory
    decreases |outputs|
  {
    if outputs == [] then dir
    else WriteAll(WriteIfAbsent(dir, outputs[0].0, outputs[0].1), outputs[1..])
  }

  /** The cost tables' header row. */
  function Header(withGrowth: seq<Environment>): (h: seq<string>)
    ensures |h| == |withGrowth| + 1 && h[0] == "ORF ID"
    ensures forall k :: 0 <= k < |withGrowth| ==> h[k + 1] == withGrowth[k].0 + " AND " + withGrowth[k].1
  {
    ["ORF ID"] + seq(|withGrowth|, k requires 0 <= k < |withGrowth| => withGrowth[k].0 + " AND " + withGrowth[k].1)
  }

  /** The five outputs, in the order they are written. */
  function Outputs(st: Collected, dblGLC: map<(string, string), real>, dblFLC: map<(string, string), real>)
    : seq<(string, Table)>
  {
    [(NoGrowthPath, EnvironmentList(st.noGrowth)),
     (FunctionLossCostsPath, CostTable(Header(st.withGrowth), st.flc)),
     (GeneLossCostsPath, CostTable(Header(st.withGrowth), st.glc)),
     (DoubleGenePath, PairTable(dblGLC)),
     (DoubleFunctionPath, PairTable(dblFLC))]
  }

  /** No output before the `k`-th has its path. */
  predicate FirstWithPath(outputs: seq<(string, Table)>, k: nat)
    requires k < |outputs|
  {
    forall l :: 0 <= l < k ==> outputs[l].0 != outputs[k].0
  }

  /** Existing files are never overwritten; a missing file is written
      exactly when some output has its path, with the first such output. */
  lemma {:induction false} WriteAllKeeps(dir: ModelDirectory, outputs: seq<(string, Table)>)
    ensures var d := WriteAll(dir, outputs);
      && (forall p :: p in dir ==> p in d && d[p] == dir[p])
      && (forall p :: p !in dir ==> (p in d <==> exists k :: 0 <= k < |outputs| && outputs[k].0 == p))
      && (forall k :: 0 <= k < |outputs| && outputs[k].0 !in dir && FirstWithPath(outputs, k) ==>
            d[outputs[k].0] == outputs[k].1)
    decreases |outputs|
  {
    if outputs != [] {
      var first := WriteIfAbsent(dir, outputs[0].0, outputs[0].1);
      WriteAllKeeps(first, outputs[1..]);
      forall p | p !in dir && (exists k :: 0 <= k < |outputs| && outputs[k].0 == p)
        ensures p in WriteAll(dir, outputs)
      {
        var k :| 0 <= k < |outputs| && outputs[k].0 == p;
        if k > 0 {
          assert outputs[1..][k - 1].0 == p;
        }
      }
      forall p | p !in dir && p in WriteAll(dir, outputs)
        ensures exists k :: 0 <= k < |outputs| && outputs[k].0 == p
      {
        if p !in first {
          var k :| 0 <= k < |outputs[1..]| && outputs[1..][k].0 == p;
          assert outputs[k + 1].0 == p;
        }
      }
      forall k | 0 <= k < |outputs| && outputs[k].0 !in dir && FirstWithPath(outputs, k)
        ensures WriteAll(dir, outputs)[outputs[k].0] == outputs[k].1
      {
        if k > 0 {
          assert outputs[1..][k - 1] == outputs[k];
          assert forall l :: 0 <= l < k - 1 ==> outputs[1..][l] == outputs[l + 1];
        }
      }
    }
  }

  lemma {:induction false} WriteAllPresent(dir: ModelDirectory, outputs: seq<(string, Table)>)
    requires forall k :: 0 <= k < |outputs| ==> outputs[k].0 in dir
    ensures WriteAll(dir, outputs) == dir
    decreases |outputs|
  {
    if outputs != [] {
      WriteAllPresent(dir, outputs[1..]);
    }
  }

  /** A second run writes nothing: every path it would write now exists. */
  lemma WriteAllIdempotent(dir: ModelDirectory, first: seq<(string, Table)>, second: seq<(string, Table)>)
    requires |first| == |second| && forall k :: 0 <= k < |first| ==> first[k].0 == second[k].0
    ensures WriteAll(WriteAll(dir, first), second) == WriteAll(dir, first)
  {
    WriteAllKeeps(dir, first);
    WriteAllPresent(WriteAll(dir, first), second);
  }

  // ---------------------------------------------------------------------
  // The whole script

  /** The model directory after `collate_cluster_output`, or its error. */
  function CollateSpec(loaded: seq<Reaction>, genes: seq<string>, carbons: seq<string>, nitrogens: seq<string>,
                       cluster: ClusterOutput, dir: ModelDirectory, solve: Solver): Result<ModelDirectory>
  {
    var st :- EnvLoop(Start(loaded), Environments(carbons, nitrogens), GeneSet(genes), cluster, solve);
    var dblFLC :- DoubleFunctionLoad(cluster, |genes|, Pivots(|genes|));
    var dblGLC :- DoubleGeneLoad(cluster, Pivots(|genes|));
    Ok(WriteAll(dir, Outputs(st, dblGLC, dblFLC)))
  }

  /** The script fails exactly when some environment is not ready or a
      double-knock-out file is missing or malformed. */
  lemma CollateOk(loaded: seq<Reaction>, genes: seq<string>, carbons: seq<string>, nitrogens: seq<string>,
                  cluster: ClusterOutput, dir: ModelDirectory, solve: Solver)
    ensures CollateSpec(loaded, genes, carbons, nitrogens, cluster, dir, solve).Ok? <==>
      (&& AllReady(loaded, Environments(carbons, nitrogens), GeneSet(genes), cluster, solve)
       && DoubleFunctionLoad(cluster, |genes|, Pivots(|genes|)).Ok?
       && DoubleGeneLoad(cluster, Pivots(|genes|)).Ok?)
  {
    EnvLoopOk(loaded, Environments(carbons, nitrogens), GeneSet(genes), cluster, solve);
  }

  /** The five output paths are pairwise different. */
  lemma OutputPathsDistinct()
    ensures NoGrowthPath != FunctionLossCostsPath && NoGrowthPath != GeneLossCostsPath
    ensures NoGrowthPath != DoubleGenePath && NoGrowthPath != DoubleFunctionPath
    ensures FunctionLossCostsPath != GeneLossCostsPath && FunctionLossCostsPath != DoubleGenePath
    ensures FunctionLossCostsPath != DoubleFunctionPath && GeneLossCostsPath != DoubleGenePath
    ensures GeneLossCostsPath != DoubleFunctionPath && DoubleGenePath != DoubleFunctionPath
  {
    assert NoGrowthPath[0] == 'm' && FunctionLossCostsPath[0] == 'f' && GeneLossCostsPath[0] == 'g';
    assert DoubleGenePath[0] == 'd' && DoubleFunctionPath[0] == 'd';
    assert DoubleGenePath[7] == 'g' && DoubleFunctionPath[7] == 'f';
  }

  /** Writing the five outputs keeps every existing file and adds exactly
      the missing ones, each with its own content. */
  lemma OutputsWritten(dir: ModelDirectory, st: Collected, dblGLC: map<(string, string), real>,
                       dblFLC: map<(string, string), real>)
    ensures var d := WriteAll(dir, Outputs(st, dblGLC, dblFLC));
      && (forall p :: p in dir ==> p in d && d[p] == dir[p])
      && (forall p :: p !in dir ==>
            (p in d <==> (p == NoGrowthPath || p == FunctionLossCostsPath || p == GeneLossCostsPath ||
                          p == DoubleGenePath || p == DoubleFunctionPath)))
      && (NoGrowthPath !in dir ==> d[NoGrowthPath] == EnvironmentList(st.noGrowth))
      && (FunctionLossCostsPath !in dir ==> d[FunctionLossCostsPath] == CostTable(Header(st.withGrowth), st.flc))
      && (GeneLossCostsPath !in dir ==> d[GeneLossCostsPath] == CostTable(Header(st.withGrowth), st.glc))
      && (DoubleGenePath !in dir ==> d[DoubleGenePath] == PairTable(dblGLC))
      && (DoubleFunctionPath !in dir ==> d[DoubleFunctionPath] == PairTable(dblFLC))
  {
    var outputs := Outputs(st, dblGLC, dblFLC);
    var d := WriteAll(dir, outputs);
    WriteAllKeeps(dir, outputs);
    OutputsFirstWithPath(st, dblGLC, dblFLC);
    assert outputs[0].0 == NoGrowthPath && outputs[1].0 == FunctionLossCostsPath;
    assert outputs[2].0 == GeneLossCostsPath && outputs[3].0 == DoubleGenePath && outputs[4].0 == DoubleFunctionPath;
    forall p | p !in dir && p in d
      ensures p == NoGrowthPath || p == FunctionLossCostsPath || p == GeneLossCostsPath ||
              p == DoubleGenePath || p == DoubleFunctionPath
    {
      var k :| 0 <= k < |outputs| && outputs[k].0 == p;
    }
  }

  /** Each output is the first with its path. */
  lemma OutputsFirstWithPath(st: Collected, dblGLC: map<(string, string), real>, dblFLC: map<(string, string), real>)
    ensures var outputs := Outputs(st, dblGLC, dblFLC);
      forall k :: 0 <= k < |outputs| ==> FirstWithPath(outputs, k)
  {
    OutputPathsDistinct();
  }

  /** On success: files that existed are untouched, and each missing
      output is written with what the loops collected. */
  lemma CollateWrites(loaded: seq<Reaction>, genes: seq<string>, carbons: seq<string>, nitrogens: seq<string>,
                      cluster: ClusterOutput, dir: ModelDirectory, solve: Solver)
    requires CollateSpec(loaded, genes, carbons, nitrogens, cluster, dir, solve).Ok?
    ensures var d := CollateSpec(loaded, genes, carbons, nitrogens, cluster, dir, solve).value;
      var st := EnvLoop(Start(loaded), Environments(carbons, nitrogens), GeneSet(genes), cluster, solve).value;
      && (forall p :: p in dir ==> p in d && d[p] == dir[p])
      && NoGrowthPath in d && FunctionLossCostsPath in d && GeneLossCostsPath in d
      && DoubleGenePath in d && DoubleFunctionPath in d
      && (NoGrowthPath !in dir ==> d[NoGrowthPath] == EnvironmentList(st.noGrowth))
      && (FunctionLossCostsPath !in dir ==> d[FunctionLossCostsPath] == CostTable(Header(st.withGrowth), st.flc))
      && (GeneLossCostsPath !in dir ==> d[GeneLossCostsPath] == CostTable(Header(st.withGrowth), st.glc))
      && (DoubleGenePath !in dir ==> d[DoubleGenePath] == PairTable(DoubleGeneLoad(cluster, Pivots(|genes|)).value))
      && (DoubleFunctionPath !in dir ==>
            d[DoubleFunctionPath] == PairTable(DoubleFunctionLoad(cluster, |genes|, Pivots(|genes|)).value))
  {
    var st := EnvLoop(Start(loaded), Environments(carbons, nitrogens), GeneSet(genes), cluster, solve).value;
    OutputsWritten(dir, st, DoubleGeneLoad(cluster, Pivots(|genes|)).value,
                   DoubleFunctionLoad(cluster, |genes|, Pivots(|genes|)).value);
  }

  /** What the written tables hold: the no-growth list is the environments
      without a gene-loss file, the cost tables have one column per other
      environment in visit order and every model gene's costs aligned with
      them, and the double-function table has one entry per gene pair. */
  lemma CollatedTables(loaded: seq<Reaction>, genes: seq<string>, carbons: seq<string>, nitrogens: seq<string>,
                       cluster: ClusterOutput, solve: Solver)
    requires EnvLoop(Start(loaded), Environments(carbons, nitrogens), GeneSet(genes), cluster, solve).Ok?
    requires DoubleFunctionLoad(cluster, |genes|, Pivots(|genes|)).Ok?
    ensures var envs := Environments(carbons, nitrogens);
      var st := EnvLoop(Start(loaded), envs, GeneSet(genes), cluster, solve).value;
      && st.noGrowth == WithFile(envs, cluster, false)
      && st.withGrowth == WithFile(envs, cluster, true)
      && Aligned(st.glc, st.withGrowth, GeneSet(genes), cluster, "gene_loss_cost_")
      && Aligned(st.flc, st.withGrowth, GeneSet(genes), cluster, "function_loss_cost_")
      && 2 * |DoubleFunctionLoad(cluster, |genes|, Pivots(|genes|)).value| == |genes| * (|genes| - 1)
  {
    var envs := Environments(carbons, nitrogens);
    EnvLoopPartition(loaded, envs, GeneSet(genes), cluster, solve);
    EnvLoopAligned(loaded, envs, GeneSet(genes), cluster, solve);
    DoubleFunctionLoadSize(cluster, |genes|, Pivots(|genes|));
    TriangleTotal(|genes|);
  }

  /** Running the script again on the directory it produced changes
      nothing. */
  lemma CollateRerun(loaded: seq<Reaction>, genes: seq<string>, carbons: seq<string>, nitrogens: seq<string>,
                     cluster: ClusterOutput, dir: ModelDirectory, solve: Solver)
    requires CollateSpec(loaded, genes, carbons, nitrogens, cluster, dir, solve).Ok?
    ensures var d := CollateSpec(loaded, genes, carbons, nitrogens, cluster, dir, solve).value;
      CollateSpec(loaded, genes, carbons, nitrogens, cluster, d, solve) == Ok(d)
  {
    var st := EnvLoop(Start(loaded), Environments(carbons, nitrogens), GeneSet(genes), cluster, solve).value;
    var outputs := Outputs(st, DoubleGeneLoad(cluster, Pivots(|genes|)).value,
                           DoubleFunctionLoad(cluster, |genes|, Pivots(|genes|)).value);
    WriteAllIdempotent(dir, outputs, outputs);
  }

  // ---------------------------------------------------------------------
  // The script, step by step

  /** The model's reactions after the environment loop stopped, with or
      without error: the loaded model or one environment's minimal medium. */
  lemma {:induction false} EnvLoopMedium(loaded: seq<Reaction>, envs: seq<Environment>, genes: set<string>,
                                         cluster: ClusterOutput, solve: Solver)
    requires EnvLoop(Start(loaded), envs, genes, cluster, solve).Ok?
    ensures var rs := EnvLoop(Start(loaded), envs, genes, cluster, solve).value.rs;
      rs == loaded || exists e :: e in envs && rs == MinimalMediaBounds(loaded, e.0, e.1)
  {
    EnvLoopReactions(loaded, envs, genes, cluster, solve);
    EnvLoopPartition(loaded, envs, genes, cluster, solve);
    var st := EnvLoop(Start(loaded), envs, genes, cluster, solve).value;
    if st.noGrowth != [] {
      var last := st.noGrowth[|st.noGrowth| - 1];
      assert last in st.noGrowth;
    }
  }

  /** The environments of the first `i + 1` carbon sources. */
  lemma EnvironmentsNext(carbons: seq<string>, nitrogens: seq<string>, i: nat)
    requires i < |carbons|
    ensures Environments(carbons[..i + 1], nitrogens) == Environments(carbons[..i], nitrogens) + Row(carbons[i], nitrogens)
  {
    assert carbons[..i + 1][..i] == carbons[..i];
  }

  /** The environments the nested loops have visited before reaching the
      `j`-th nitrogen source of the `i`-th carbon source. */
  function Visited(carbons: seq<string>, nitrogens: seq<string>, i: nat, j: nat): seq<Environment>
    requires i < |carbons| && j <= |nitrogens|
  {
    Environments(carbons[..i], nitrogens) + Row(carbons[i], nitrogens)[..j]
  }

  lemma VisitedStart(carbons: seq<string>, nitrogens: seq<string>, i: nat)
    requires i < |carbons|
    ensures Visited(carbons, nitrogens, i, 0) == Environments(carbons[..i], nitrogens)
  {
    assert Row(carbons[i], nitrogens)[..0] == [];
  }

  lemma VisitedNext(carbons: seq<string>, nitrogens: seq<string>, i: nat, j: nat)
    requires i < |carbons| && j < |nitrogens|
    ensures Visited(carbons, nitrogens, i, j + 1) == Visited(carbons, nitrogens, i, j) + [(carbons[i], nitrogens[j])]
  {
    var row := Row(carbons[i], nitrogens);
    assert row[..j + 1] == row[..j] + [row[j]];
  }

  lemma VisitedRow(carbons: seq<string>, nitrogens: seq<string>, i: nat)
    requires i < |carbons|
    ensures Visited(carbons, nitrogens, i, |nitrogens|) == Environments(carbons[..i + 1], nitrogens)
  {
    var row := Row(carbons[i], nitrogens);
    assert row[..|nitrogens|] == row;
    EnvironmentsNext(carbons, nitrogens, i);
  }

  /** Everything visited so far is a prefix of the whole visit order. */
  lemma VisitedPrefix(carbons: seq<string>, nitrogens: seq<string>, i: nat, j: nat)
    requires i < |carbons| && j <= |nitrogens|
    ensures Visited(carbons, nitrogens, i, j) <= Environments(carbons, nitrogens)
  {
    var row := Row(carbons[i], nitrogens);
    var done := Environments(carbons[..i], nitrogens);
    assert carbons == carbons[..i + 1] + carbons[i + 1..];
    EnvironmentsAppend(carbons[..i + 1], carbons[i + 1..], nitrogens);
    EnvironmentsNext(carbons, nitrogens, i);
    assert done + row[..j] <= done + row;
  }

  /** Once a visited prefix fails, so does the whole loop, with the same error. */
  lemma VisitedErrorSticks(start: Collected, carbons: seq<string>, nitrogens: seq<string>, i: nat, j: nat,
                           genes: set<string>, cluster: ClusterOutput, solve: Solver)
    requires i < |carbons| && j <= |nitrogens|
    requires EnvLoop(start, Visited(carbons, nitrogens, i, j), genes, cluster, solve).Err?
    ensures EnvLoop(start, Environments(carbons, nitrogens), genes, cluster, solve) ==
      EnvLoop(start, Visited(carbons, nitrogens, i, j), genes, cluster, solve)
  {
    var envs := Environments(carbons, nitrogens);
    var prefix := Visited(carbons, nitrogens, i, j);
    VisitedPrefix(carbons, nitrogens, i, j);
    assert envs == prefix + envs[|prefix|..];
    EnvLoopErrorSticks(start, prefix, envs[|prefix|..], genes, cluster, solve);
  }

  /** An environment that fails ends the whole loop with its error, and the
      model it leaves behind is the loaded one or some environment's minimal
      medium. */
  lemma EnvLoopStopsAt(loaded: seq<Reaction>, carbons: seq<string>, nitrogens: seq<string>, i: nat, j: nat,
                       genes: set<string>, cluster: ClusterOutput, solve: Solver, st: Collected)
    requires i < |carbons| && j < |nitrogens|
    requires EnvLoop(Start(loaded), Visited(carbons, nitrogens, i, j), genes, cluster, solve) == Ok(st)
    requires EnvStep(st, (carbons[i], nitrogens[j]), genes, cluster, solve).Err?
    ensures EnvLoop(Start(loaded), Environments(carbons, nitrogens), genes, cluster, solve) ==
      EnvStep(st, (carbons[i], nitrogens[j]), genes, cluster, solve)
    ensures st.rs == loaded || exists e :: e in Environments(carbons, nitrogens) && st.rs == MinimalMediaBounds(loaded, e.0, e.1)
    ensures MinimalMediaBounds(st.rs, carbons[i], nitrogens[j]) == MinimalMediaBounds(loaded, carbons[i], nitrogens[j])
    ensures (carbons[i], nitrogens[j]) in Environments(carbons, nitrogens)
  {
    var e := (carbons[i], nitrogens[j]);
    var visited := Visited(carbons, nitrogens, i, j);
    VisitedNext(carbons, nitrogens, i, j);
    VisitedPrefix(carbons, nitrogens, i, j + 1);
    assert e in Visited(carbons, nitrogens, i, j + 1);
    EnvLoopSnoc(Start(loaded), visited, e, genes, cluster, solve);
    VisitedErrorSticks(Start(loaded), carbons, nitrogens, i, j + 1, genes, cluster, solve);
    EnvLoopMedium(loaded, visited, genes, cluster, solve);
    if st.rs != loaded {
      var e' :| e' in visited && st.rs == MinimalMediaBounds(loaded, e'.0, e'.1);
      VisitedPrefix(carbons, nitrogens, i, j);
      assert e' in Environments(carbons, nitrogens);
    }
    EnvLoopReactions(loaded, visited, genes, cluster, solve);
    if st.noGrowth != [] {
      var last := st.noGrowth[|st.noGrowth| - 1];
      MinimalMediaLastWins(loaded, last.0, last.1, e.0, e.1);
    }
  }

  /** One environment: a missing gene-loss file is an environment without
      growth (checked on its minimal medium), otherwise both cost files are
      loaded and appended. */
  method CollectEnvironment(model: Model, st: Collected, e: Environment, genes: set<string>,
                            cluster: ClusterOutput, solve: Solver) returns (r: Result<Collected>)
    requires model.reactions[..] == st.rs
    modifies model.reactions
    ensures r == EnvStep(st, e, genes, cluster, solve)
    ensures r.Ok? ==> model.reactions[..] == r.value.rs
    ensures r.Err? ==> model.reactions[..] == st.rs || model.reactions[..] == MinimalMediaBounds(st.rs, e.0, e.1)
  {
    var glcInPath := ReplaceChar("gene_loss_cost_" + e.0 + "_AND_" + e.1 + ".pkl", ' ', '_');
    if glcInPath !in cluster {
      MinimalMedia(model, e.0, e.1);
      if solve(model.reactions[..]) > GrowthThreshold {
        return Err(GrowthButNoFile(e.0, e.1));
      }
      return Ok(st.(rs := model.reactions[..], noGrowth := st.noGrowth + [e]));
    }
    var glcOneMedia := LoadCosts(cluster, glcInPath, genes);
    if glcOneMedia.Err? {
      return Err(glcOneMedia.error);
    }
    var glc := AppendCosts(st.glc, glcOneMedia.value);
    var flcInPath := ReplaceChar("function_loss_cost_" + e.0 + "_AND_" + e.1 + ".pkl", ' ', '_');
    var flcOneMedia := LoadCosts(cluster, flcInPath, genes);
    if flcOneMedia.Err? {
      return Err(flcOneMedia.error);
    }
    var flc := AppendCosts(st.flc, flcOneMedia.value);
    r := Ok(st.(withGrowth := st.withGrowth + [e], glc := glc, flc := flc));
  }

  /** The double-function loop. */
  method LoadDoubleFunctionKnockouts(cluster: ClusterOutput, n: nat) returns (r: Result<map<(string, string), real>>)
    ensures r == DoubleFunctionLoad(cluster, n, Pivots(n))
  {
    var dblFLC: map<(string, string), real> := map[];
    for i := 0 to Pivots(n)
      invariant DoubleFunctionLoad(cluster, n, i) == Ok(dblFLC)
    {
      var filePath := FunctionKnockoutsFile(i);
      var failure: Option<Error> := None;
      if filePath !in cluster {
        failure := Some(FileMissing(filePath));
      } else if !cluster[filePath].PairGrowth? {
        failure := Some(MalformedPickle(filePath));
      } else {
        var dblFunctionKO := cluster[filePath].growth;
        if |dblFunctionKO| != n - i - 1 {
          failure := Some(UnexpectedCount(filePath, |dblFunctionKO|, n - i - 1));
        } else if exists k :: k in dblFunctionKO && k in dblFLC {
          failure := Some(DuplicateEntries);
        } else {
          dblFLC := dblFLC + dblFunctionKO;
        }
      }
      if failure.Some? {
        DoubleFunctionLoadErrorSticks(cluster, n, i + 1, Pivots(n));
        return Err(failure.value);
      }
    }
    r := Ok(dblFLC);
  }

  /** The double-gene loop, with its loops over the rows and columns of
      each file's matrix. */
  method LoadDoubleGeneKnockouts(cluster: ClusterOutput, n: nat) returns (r: Result<map<(string, string), real>>)
    ensures r == DoubleGeneLoad(cluster, Pivots(n))
  {
    var dblGLC: map<(string, string), real> := map[];
    for i := 0 to Pivots(n)
      invariant DoubleGeneLoad(cluster, i) == Ok(dblGLC)
    {
      var filePath := GeneKnockoutsFile(i);
      if filePath !in cluster || !Rectangular(cluster[filePath]) {
        DoubleGeneLoadErrorSticks(cluster, i + 1, Pivots(n));
        return Err(if filePath !in cluster then FileMissing(filePath) else MalformedPickle(filePath));
      }
      var result := cluster[filePath];
      var rows := LoadMatrix(dblGLC, result);
      if rows.Err? {
        DoubleGeneLoadErrorSticks(cluster, i + 1, Pivots(n));
        return Err(rows.error);
      }
      dblGLC := rows.value;
    }
    r := Ok(dblGLC);
  }

  /** `for i in range(shape[0]): geneA = x[i]; for j in range(shape[1]): ...`. */
  method LoadMatrix(table: map<(string, string), real>, result: Pickle) returns (r: Result<map<(string, string), real>>)
    requires Rectangular(result)
    ensures r == LoadRows(table, result, |result.data|)
  {
    var dblGLC := table;
    for a := 0 to |result.data|
      invariant LoadRows(table, result, a) == Ok(dblGLC)
    {
      if a >= |result.x| {
        LoadRowsErrorSticks(table, result, a + 1, |result.data|);
        return Err(IndexOutOfRange);
      }
      var geneA := result.x[a];
      ghost var rowStart := dblGLC;
      for b := 0 to result.columns
        invariant LoadRow(rowStart, geneA, result.y, result.data[a], b) == Ok(dblGLC)
      {
        if b >= |result.y| {
          LoadRowErrorSticks(rowStart, geneA, result.y, result.data[a], b + 1, result.columns);
          LoadRowsErrorSticks(table, result, a + 1, |result.data|);
          return Err(IndexOutOfRange);
        }
        var geneB := result.y[b];
        dblGLC := dblGLC[(geneA, geneB) := result.data[a][b]];
      }
    }
    r := Ok(dblGLC);
  }

  lemma {:induction false} LoadRowErrorSticks(table: map<(string, string), real>, geneA: string, y: seq<string>,
                                              row: seq<real>, c: nat, d: nat)
    requires c <= d <= |row| && LoadRow(table, geneA, y, row, c).Err?
    ensures LoadRow(table, geneA, y, row, d) == LoadRow(table, geneA, y, row, c)
    decreases d - c
  {
    if c < d {
      LoadRowErrorSticks(table, geneA, y, row, c, d - 1);
    }
  }

  lemma {:induction false} LoadRowsErrorSticks(table: map<(string, string), real>, m: Pickle, a: nat, b: nat)
    requires Rectangular(m) && a <= b <= |m.data| && LoadRows(table, m, a).Err?
    ensures LoadRows(table, m, b) == LoadRows(table, m, a)
    decreases b - a
  {
    if a < b {
      LoadRowsErrorSticks(table, m, a, b - 1);
    }
  }

  lemma WriteAllFive(dir: ModelDirectory, outputs: seq<(string, Table)>)
    requires |outputs| == 5
    ensures WriteAll(dir, outputs) ==
      WriteIfAbsent(WriteIfAbsent(WriteIfAbsent(WriteIfAbsent(WriteIfAbsent(dir,
        outputs[0].0, outputs[0].1), outputs[1].0, outputs[1].1), outputs[2].0, outputs[2].1),
        outputs[3].0, outputs[3].1), outputs[4].0, outputs[4].1)
  {
    var d1 := WriteIfAbsent(dir, outputs[0].0, outputs[0].1);
    var d2 := WriteIfAbsent(d1, outputs[1].0, outputs[1].1);
    var d3 := WriteIfAbsent(d2, outputs[2].0, outputs[2].1);
    var d4 := WriteIfAbsent(d3, outputs[3].0, outputs[3].1);
    var d5 := WriteIfAbsent(d4, outputs[4].0, outputs[4].1);
    assert WriteAll(d5, outputs[5..]) == d5;
    assert WriteAll(d4, outputs[4..]) == d5;
    assert WriteAll(d3, outputs[3..]) == d5;
    assert WriteAll(d2, outputs[2..]) == d5;
    assert WriteAll(d1, outputs[1..]) == d5;
  }

  /** The two nested loops over carbon and nitrogen sources. */
  method CollectEnvironments(model: Model, carbons: seq<string>, nitrogens: seq<string>, genes: set<string>,
                             cluster: ClusterOutput, solve: Solver) returns (r: Result<Collected>)
    modifies model.reactions
    ensures r == EnvLoop(Start(old(model.reactions[..])), Environments(carbons, nitrogens), genes, cluster, solve)
    ensures r.Ok? ==> model.reactions[..] == r.value.rs
    ensures r.Err? ==>
              || model.reactions[..] == old(model.reactions[..])
              || exists e :: e in Environments(carbons, nitrogens) &&
                             model.reactions[..] == MinimalMediaBounds(old(model.reactions[..]), e.0, e.1)
  {
    ghost var loaded := model.reactions[..];
    var st := Start(model.reactions[..]);
    for i := 0 to |carbons|
      invariant model.reactions[..] == st.rs
      invariant EnvLoop(Start(loaded), Environments(carbons[..i], nitrogens), genes, cluster, solve) == Ok(st)
    {
      VisitedStart(carbons, nitrogens, i);
      for j := 0 to |nitrogens|
        invariant model.reactions[..] == st.rs
        invariant EnvLoop(Start(loaded), Visited(carbons, nitrogens, i, j), genes, cluster, solve) == Ok(st)
      {
        var e := (carbons[i], nitrogens[j]);
        VisitedNext(carbons, nitrogens, i, j);
        EnvLoopSnoc(Start(loaded), Visited(carbons, nitrogens, i, j), e, genes, cluster, solve);
        var next := CollectEnvironment(model, st, e, genes, cluster, solve);
        if next.Err? {
          EnvLoopStopsAt(loaded, carbons, nitrogens, i, j, genes, cluster, solve, st);
          assert model.reactions[..] == st.rs || model.reactions[..] == MinimalMediaBounds(loaded, e.0, e.1);
          return Err(next.error);
        }
        st := next.value;
      }
      VisitedRow(carbons, nitrogens, i);
    }
    assert carbons[..|carbons|] == carbons;
    r := Ok(st);
  }

  /** The five `if not os.path.exists(...)` writes. */
  method WriteOutputs(dir: ModelDirectory, st: Collected, dblGLC: map<(string, string), real>,
                      dblFLC: map<(string, string), real>) returns (written: ModelDirectory)
    ensures written == WriteAll(dir, Outputs(st, dblGLC, dblFLC))
  {
    written := dir;
    if NoGrowthPath !in written {
      written := written[NoGrowthPath := EnvironmentList(st.noGrowth)];
    }
    var header := Header(st.withGrowth);
    if FunctionLossCostsPath !in written {
      written := written[FunctionLossCostsPath := CostTable(header, st.flc)];
    }
    if GeneLossCostsPath !in written {
      written := written[GeneLossCostsPath := CostTable(header, st.glc)];
    }
    if DoubleGenePath !in written {
      written := written[DoubleGenePath := PairTable(dblGLC)];
    }
    if DoubleFunctionPath !in written {
      written := written[DoubleFunctionPath := PairTable(dblFLC)];
    }
    WriteAllFive(dir, Outputs(st, dblGLC, dblFLC));
  }

  /** `collate_cluster_output`. `model` is the model read from the SBML
      file, `cluster` the `cluster_output` directory, `dir` the model
      directory the tables go to. */
  method CollateClusterOutput(model: Model, carbons: seq<string>, nitrogens: seq<string>, cluster: ClusterOutput,
                              dir: ModelDirectory, solve: Solver) returns (r: Result<ModelDirectory>)
    modifies model.reactions
    ensures r == CollateSpec(old(model.reactions[..]), model.genes, carbons, nitrogens, cluster, dir, solve)
    ensures r.Ok? ==>
              model.reactions[..] ==
              CurrentMedium(old(model.reactions[..]), WithFile(Environments(carbons, nitrogens), cluster, false))
    ensures r.Err? ==>
              || model.reactions[..] == old(model.reactions[..])
              || exists e :: e in Environments(carbons, nitrogens) &&
                             model.reactions[..] == MinimalMediaBounds(old(model.reactions[..]), e.0, e.1)
  {
    ghost var loaded := model.reactions[..];
    var modelGeneNames := set g | g in model.genes;
    assert modelGeneNames == GeneSet(model.genes);
    var collected := CollectEnvironments(model, carbons, nitrogens, modelGeneNames, cluster, solve);
    if collected.Err? {
      return Err(collected.error);
    }
    var st := collected.value;
    EnvLoopMedium(loaded, Environments(carbons, nitrogens), modelGeneNames, cluster, solve);
    EnvLoopReactions(loaded, Environments(carbons, nitrogens), modelGeneNames, cluster, solve);
    EnvLoopPartition(loaded, Environments(carbons, nitrogens), modelGeneNames, cluster, solve);

    var dblFLC := LoadDoubleFunctionKnockouts(cluster, |model.genes|);
    if dblFLC.Err? {
      return Err(dblFLC.error);
    }
    var dblGLC := LoadDoubleGeneKnockouts(cluster, |model.genes|);
    if dblGLC.Err? {
      return Err(dblGLC.error);
    }
    var written := WriteOutputs(dir, st, dblGLC.value, dblFLC.value);
    r := Ok(written);
  }
}
