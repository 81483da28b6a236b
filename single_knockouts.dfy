/** `single_knockouts.py`: per-gene loss costs in one minimal medium.

    The gene-loss cost of a gene is the fraction of wild-type growth lost when
    cobra deletes the gene; the function-loss cost spreads the loss of each
    reaction rule over every gene the rule names; the modified loss cost knocks
    out every reaction whose rule mentions the gene, isoenzymes included. */
module SingleKnockouts {
  import opened Common
  import opened Text
  import opened Metabolic
  import opened FbaUtils
  import opened Files

  /** Wild-type growth below this counts as no growth. */
  const GrowthThreshold: real := 0.01

  /** `(wt - growth) / wt`: the fraction of wild-type growth a knock-out
      loses; Python raises ZeroDivisionError when `wt` is 0. */
  function LossCost(wt: real, growth: real): (r: Result<real>)
    ensures r.Err? <==> wt == 0.0
    ensures r.Err? ==> r.error == ZeroDivision
  {
    if wt == 0.0 then Err(ZeroDivision) else Ok((wt - growth) / wt)
  }

  /** `cost` is the growth lost, `wt - growth`, in units of wild-type growth. */
  predicate IsLossCost(cost: real, wt: real, growth: real) {
    cost * wt == wt - growth
  }

  /** The cost is the lost growth measured in units of wild-type growth:
      no loss costs 0, a knock-out that stops growth costs 1. */
  lemma LossCostValue(wt: real, growth: real)
    requires wt != 0.0
    ensures IsLossCost(LossCost(wt, growth).value, wt, growth)
    ensures growth == wt ==> LossCost(wt, growth).value == 0.0
    ensures growth == 0.0 ==> LossCost(wt, growth).value == 1.0
  {
    if growth == 0.0 {
      assert (wt - growth) / wt == wt / wt == 1.0;
    }
  }

  // ---------------------------------------------------------------------
  // single_knockout_modified_loss_cost

  /** The growth after closing every reaction whose rule mentions `gene`. */
  function GeneKnockoutGrowth(rs: seq<Reaction>, gene: string, solve: Solver): real {
    solve(ZeroBounds(rs, Mentioning(rs, {gene})))
  }

  /** The map `single_knockout_modified_loss_cost` returns after the first
      `|genes|` genes. */
  function ModifiedLossCosts(rs: seq<Reaction>, genes: seq<string>, solve: Solver): Result<map<string, real>>
    decreases |genes|
  {
    if genes == [] then Ok(map[])
    else
      var costs :- ModifiedLossCosts(rs, genes[..|genes| - 1], solve);
      var gene := genes[|genes| - 1];
      var cost :- LossCost(solve(rs), GeneKnockoutGrowth(rs, gene, solve));
      Ok(costs[gene := cost])
  }

  /** `single_knockout_modified_loss_cost`: knock out, solve and restore once
      per model gene; the model is left as it was found. */
  method SingleKnockoutModifiedLossCost(model: Model, solve: Solver) returns (r: Result<map<string, real>>)
    modifies model.reactions
    ensures model.reactions[..] == old(model.reactions[..])
    ensures r == ModifiedLossCosts(old(model.reactions[..]), model.genes, solve)
  {
    ghost var before := model.reactions[..];
    var wtGrowth := solve(model.reactions[..]);
    var lossCosts := map[];
    for i := 0 to |model.genes|
      invariant model.reactions[..] == before
      invariant ModifiedLossCosts(before, model.genes[..i], solve) == Ok(lossCosts)
    {
      var gene := model.genes[i];
      var toKnockOut := Mentioning(model.reactions[..], {gene});
      var growth := KnockOutAndSolve(model, toKnockOut, solve);
      assert growth == GeneKnockoutGrowth(before, gene, solve);
      assert model.genes[..i + 1][..i] == model.genes[..i];
      assert model.genes[..i + 1][i] == gene;
      var cost := LossCost(wtGrowth, growth);
      if cost.Err? {
        ModifiedLossCostsSpec(before, model.genes, solve);
        return Err(ZeroDivision);
      }
      lossCosts := lossCosts[gene := cost.value];
    }
    assert model.genes[..|model.genes|] == model.genes;
    r := Ok(lossCosts);
  }

  /** A zero wild-type growth is a division by zero as soon as there is a
      gene; otherwise there is one key per gene. */
  lemma {:induction false} ModifiedLossCostsSpec(rs: seq<Reaction>, genes: seq<string>, solve: Solver)
    ensures var r := ModifiedLossCosts(rs, genes, solve);
      && (r.Ok? <==> genes == [] || solve(rs) != 0.0)
      && (r.Err? ==> r.error == ZeroDivision)
      && (r.Ok? ==> r.value.Keys == set g | g in genes)
    decreases |genes|
  {
    if genes != [] {
      var front := genes[..|genes| - 1];
      ModifiedLossCostsSpec(rs, front, solve);
      assert genes == front + [genes[|genes| - 1]];
      assert (set g | g in genes) == (set g | g in front) + {genes[|genes| - 1]};
    }
  }

  /** Each gene's cost is the fraction of growth lost when exactly the
      reactions mentioning the gene are closed. */
  lemma {:induction false} ModifiedLossCostsValues(rs: seq<Reaction>, genes: seq<string>, solve: Solver)
    requires ModifiedLossCosts(rs, genes, solve).Ok?
    ensures var costs := ModifiedLossCosts(rs, genes, solve).value;
      forall g :: g in costs ==> IsLossCost(costs[g], solve(rs), GeneKnockoutGrowth(rs, g, solve))
    decreases |genes|
  {
    if genes != [] {
      var front := genes[..|genes| - 1];
      var last := genes[|genes| - 1];
      ModifiedLossCostsValues(rs, front, solve);
      LossCostValue(solve(rs), GeneKnockoutGrowth(rs, last, solve));
      var m := ModifiedLossCosts(rs, front, solve).value;
      var costs := ModifiedLossCosts(rs, genes, solve).value;
      assert costs == m[last := LossCost(solve(rs), GeneKnockoutGrowth(rs, last, solve)).value];
      forall g | g in costs
        ensures IsLossCost(costs[g], solve(rs), GeneKnockoutGrowth(rs, g, solve))
      {
        if g != last {
          assert costs[g] == m[g];
        }
      }
    }
  }

  // ---------------------------------------------------------------------
  // single_knockout_loss_costs

  /** What `single_knockout_loss_costs` returns: whether wild type grew,
      and the gene-loss and function-loss costs per gene. */
  datatype LossCosts = LossCosts(grew: bool, geneLossCost: map<string, real>, functionLossCost: map<string, real>)

  /** cobra's `single_gene_deletion`: growth per gene after deleting it. */
  type GeneDeletion = seq<Reaction> -> map<string, real>

  /** cobra's `single_reaction_deletion` over the given reactions: growth per
      reaction id, in the order the result dictionary yields them. */
  type ReactionDeletion = (seq<Reaction>, seq<Reaction>) -> seq<(string, real)>

  /** `reactionsWithGenesMapped`, by position. */
  function WithRules(rs: seq<Reaction>): (w: seq<nat>)
    ensures forall k :: k in w <==> 0 <= k < |rs| && rs[k].rule != ""
    ensures forall i :: 0 <= i < |w| ==> w[i] < |rs|
  {
    if rs == [] then []
    else
      var front := WithRules(rs[..|rs| - 1]);
      assert forall k :: 0 <= k < |rs| - 1 ==> rs[..|rs| - 1][k] == rs[k];
      if rs[|rs| - 1].rule != "" then front + [|rs| - 1] else front
  }

  /** `geneLossCost`. */
  function GeneLossCosts(wt: real, growth: map<string, real>): (glc: map<string, real>)
    requires wt != 0.0
    ensures glc.Keys == growth.Keys
    ensures forall g :: g in glc ==> IsLossCost(glc[g], wt, growth[g])
  {
    var glc := map g | g in growth :: (wt - growth[g]) / wt;
    assert forall g :: g in glc ==> IsLossCost(glc[g], wt, growth[g]) by {
      forall g | g in glc ensures IsLossCost(glc[g], wt, growth[g]) {
        LossCostValue(wt, growth[g]);
      }
    }
    glc
  }

  /** `ruleLossCost`: the loss cost of each deleted reaction, keyed by the
      reaction's rule; a later reaction with the same rule overwrites. */
  function RuleLossCosts(rs: seq<Reaction>, wt: real, deleted: seq<(string, real)>): Result<map<string, real>>
    decreases |deleted|
  {
    if deleted == [] then Ok(map[])
    else
      var costs :- RuleLossCosts(rs, wt, deleted[..|deleted| - 1]);
      var last := deleted[|deleted| - 1];
      var cost :- LossCost(wt, last.1);
      var k :- ById(rs, last.0);
      Ok(costs[rs[k].rule := cost])
  }

  /** Every deleted reaction id names a model reaction. */
  predicate AllKnown(rs: seq<Reaction>, deleted: seq<(string, real)>) {
    forall i :: 0 <= i < |deleted| ==> ById(rs, deleted[i].0).Ok?
  }

  /** The rules of the deleted reactions, in the order they are visited. */
  function DeletedRules(rs: seq<Reaction>, deleted: seq<(string, real)>): (rules: seq<string>)
    requires AllKnown(rs, deleted)
    ensures |rules| == |deleted|
  {
    seq(|deleted|, i requires 0 <= i < |deleted| => rs[ById(rs, deleted[i].0).value].rule)
  }

  /** The map is built exactly when every deleted reaction id is in the model. */
  lemma {:induction false} RuleLossCostsOk(rs: seq<Reaction>, wt: real, deleted: seq<(string, real)>)
    requires wt != 0.0
    ensures RuleLossCosts(rs, wt, deleted).Ok? <==> AllKnown(rs, deleted)
    decreases |deleted|
  {
    if deleted != [] {
      var n := |deleted| - 1;
      var front := deleted[..n];
      RuleLossCostsOk(rs, wt, front);
      assert forall i :: 0 <= i < n ==> front[i] == deleted[i];
    }
  }

  /** Its keys are the rules of the deleted reactions. */
  lemma {:induction false} RuleLossCostsKeys(rs: seq<Reaction>, wt: real, deleted: seq<(string, real)>)
    requires wt != 0.0 && AllKnown(rs, deleted)
    ensures RuleLossCosts(rs, wt, deleted).Ok?
    ensures RuleLossCosts(rs, wt, deleted).value.Keys == set rule | rule in DeletedRules(rs, deleted)
    decreases |deleted|
  {
    RuleLossCostsOk(rs, wt, deleted);
    if deleted != [] {
      var n := |deleted| - 1;
      var front := deleted[..n];
      assert forall i :: 0 <= i < n ==> front[i] == deleted[i];
      RuleLossCostsKeys(rs, wt, front);
      var rules := DeletedRules(rs, deleted);
      assert DeletedRules(rs, front) == rules[..n];
      var m := RuleLossCosts(rs, wt, front).value;
      assert RuleLossCosts(rs, wt, deleted).value.Keys == m.Keys + {rules[n]};
      assert rules == rules[..n] + [rules[n]];
      assert (set rule | rule in rules) == (set rule | rule in rules[..n]) + {rules[n]};
    }
  }

  /** No later entry of `rules` equals the `i`-th. */
  predicate LastOccurrence(rules: seq<string>, i: nat)
    requires i < |rules|
  {
    forall j :: i < j < |rules| ==> rules[j] != rules[i]
  }

  /** In `costs`, each of `rules` maps to the value paired with its last
      occurrence. */
  predicate LastWins(costs: map<string, real>, rules: seq<string>, values: seq<real>)
    requires |rules| == |values|
  {
    forall i :: 0 <= i < |rules| && LastOccurrence(rules, i) ==> rules[i] in costs && costs[rules[i]] == values[i]
  }

  /** Storing one more entry keeps `LastWins`. */
  lemma LastWinsSnoc(costs: map<string, real>, rules: seq<string>, values: seq<real>, rule: string, value: real)
    requires |rules| == |values| && LastWins(costs, rules, values)
    ensures LastWins(costs[rule := value], rules + [rule], values + [value])
  {
    var rules' := rules + [rule];
    forall i | 0 <= i < |rules'| && LastOccurrence(rules', i)
      ensures rules'[i] in costs[rule := value] && costs[rule := value][rules'[i]] == (values + [value])[i]
    {
      if i < |rules| {
        assert rules'[|rules|] == rule;
        assert LastOccurrence(rules, i) by {
          forall j | i < j < |rules| ensures rules[j] != rules[i] {
            assert rules'[j] == rules[j];
          }
        }
      }
    }
  }

  /** The loss cost of each deleted reaction, in visit order. */
  function DeletedCosts(wt: real, deleted: seq<(string, real)>): (costs: seq<real>)
    requires wt != 0.0
    ensures |costs| == |deleted|
  {
    seq(|deleted|, i requires 0 <= i < |deleted| => LossCost(wt, deleted[i].1).value)
  }

  /** Each rule maps to the cost of the last deleted reaction that carries
      it: reactions with identical rules collapse to one entry. */
  lemma {:induction false} RuleLossCostsLastWins(rs: seq<Reaction>, wt: real, deleted: seq<(string, real)>)
    requires wt != 0.0 && AllKnown(rs, deleted)
    ensures RuleLossCosts(rs, wt, deleted).Ok?
    ensures LastWins(RuleLossCosts(rs, wt, deleted).value, DeletedRules(rs, deleted), DeletedCosts(wt, deleted))
    decreases |deleted|
  {
    RuleLossCostsOk(rs, wt, deleted);
    if deleted != [] {
      var n := |deleted| - 1;
      var front := deleted[..n];
      assert forall i :: 0 <= i < n ==> front[i] == deleted[i];
      RuleLossCostsLastWins(rs, wt, front);
      var rules := DeletedRules(rs, deleted);
      var costs := DeletedCosts(wt, deleted);
      assert rules == DeletedRules(rs, front) + [rules[n]];
      assert costs == DeletedCosts(wt, front) + [costs[n]];
      var m := RuleLossCosts(rs, wt, front).value;
      assert RuleLossCosts(rs, wt, deleted).value == m[rules[n] := costs[n]];
      LastWinsSnoc(m, DeletedRules(rs, front), DeletedCosts(wt, front), rules[n], costs[n]);
    }
  }

  /** The part of a rule's cost that `gene` receives: all of it when the rule
      names the gene. */
  function Share(rule: string, cost: real, gene: string): real {
    var genes := GenesInRule(rule);
    if genes.Ok? && gene in genes.value then cost else 0.0
  }

  /** The sum of `gene`'s shares over all rules, taken in any order. */
  ghost function RuleSum(ruleCosts: map<string, real>, gene: string): real
    decreases |ruleCosts|
  {
    if ruleCosts == map[] then 0.0
    else
      var rule :| rule in ruleCosts;
      assert (ruleCosts - {rule}).Keys == ruleCosts.Keys - {rule};
      Share(rule, ruleCosts[rule], gene) + RuleSum(ruleCosts - {rule}, gene)
  }

  /** The sum does not depend on which rule is taken first. */
  lemma {:induction false} RuleSumRemove(ruleCosts: map<string, real>, gene: string, rule: string)
    requires rule in ruleCosts
    ensures RuleSum(ruleCosts, gene) == Share(rule, ruleCosts[rule], gene) + RuleSum(ruleCosts - {rule}, gene)
    decreases |ruleCosts|
  {
    var first :| first in ruleCosts &&
      RuleSum(ruleCosts, gene) == Share(first, ruleCosts[first], gene) + RuleSum(ruleCosts - {first}, gene);
    if first != rule {
      assert (ruleCosts - {first}).Keys == ruleCosts.Keys - {first};
      assert (ruleCosts - {rule}).Keys == ruleCosts.Keys - {rule};
      RuleSumRemove(ruleCosts - {first}, gene, rule);
      RuleSumRemove(ruleCosts - {rule}, gene, first);
      assert ruleCosts - {first} - {rule} == ruleCosts - {rule} - {first};
    }
  }

  /** A rule's cost is added to each gene it names: a new rule raises the
      sum of exactly those genes, by exactly its cost. */
  lemma RuleSumAdd(ruleCosts: map<string, real>, gene: string, rule: string, cost: real)
    requires rule !in ruleCosts
    ensures RuleSum(ruleCosts[rule := cost], gene) == RuleSum(ruleCosts, gene) + Share(rule, cost, gene)
  {
    RuleSumRemove(ruleCosts[rule := cost], gene, rule);
    assert ruleCosts[rule := cost] - {rule} == ruleCosts;
  }

  /** A gene that no rule names gets 0. */
  lemma {:induction false} RuleSumUnnamed(ruleCosts: map<string, real>, gene: string)
    requires forall rule :: rule in ruleCosts ==> Share(rule, ruleCosts[rule], gene) == 0.0
    ensures RuleSum(ruleCosts, gene) == 0.0
    decreases |ruleCosts|
  {
    if ruleCosts != map[] {
      var rule :| rule in ruleCosts;
      RuleSumRemove(ruleCosts, gene, rule);
      assert (ruleCosts - {rule}).Keys == ruleCosts.Keys - {rule};
      RuleSumUnnamed(ruleCosts - {rule}, gene);
    }
  }

  /** A rule `genes_in_rule` accepts, all of whose genes have a cost entry. */
  predicate WellFormedRule(rule: string, genes: set<string>) {
    GenesInRule(rule).Ok? && GenesInRule(rule).value <= genes
  }

  /** `funcLossCost`: every gene starts at 0 and receives the full cost of
      every rule that names it. A rule without genes, or naming a gene that
      has no entry, is an error. */
  ghost function FunctionLossCostsSpec(ruleCosts: map<string, real>, genes: set<string>): Result<map<string, real>> {
    if forall rule :: rule in ruleCosts ==> WellFormedRule(rule, genes) then
      Ok(map g | g in genes :: RuleSum(ruleCosts, g))
    else
      Err(MalformedRule)
  }

  /** The nested loop that accumulates `funcLossCost`, visiting the rules in
      whatever order the dictionary yields them. */
  method FunctionLossCosts(ruleCosts: map<string, real>, genes: set<string>) returns (r: Result<map<string, real>>)
    ensures r == FunctionLossCostsSpec(ruleCosts, genes)
  {
    var flc := map g | g in genes :: 0.0;
    var remaining := ruleCosts;
    while remaining != map[]
      invariant remaining.Keys <= ruleCosts.Keys
      invariant forall rule :: rule in remaining ==> remaining[rule] == ruleCosts[rule]
      invariant forall rule :: rule in ruleCosts && rule !in remaining ==> WellFormedRule(rule, genes)
      invariant SumsSoFar(flc, remaining, ruleCosts, genes)
      decreases |remaining|
    {
      var rule :| rule in remaining;
      var cost := remaining[rule];
      var ruleGenes := GenesInRule(rule);
      if ruleGenes.Err? {
        assert !WellFormedRule(rule, genes);
        assert FunctionLossCostsSpec(ruleCosts, genes) == Err(MalformedRule);
        return Err(MalformedRule);
      }
      var added := AddCost(flc, ruleGenes.value, cost);
      if added.Err? {
        assert !WellFormedRule(rule, genes);
        assert FunctionLossCostsSpec(ruleCosts, genes) == Err(MalformedRule);
        return Err(MalformedRule);
      }
      SumsSoFarStep(flc, added.value, remaining, rule, ruleCosts, genes);
      flc := added.value;
      remaining := remaining - {rule};
    }
    assert forall rule :: rule in ruleCosts ==> WellFormedRule(rule, genes);
    SumsSoFarDone(flc, ruleCosts, genes);
    assert flc == map g | g in genes :: RuleSum(ruleCosts, g);
    r := Ok(flc);
  }

  /** `funcLossCost` holds, for each gene, the sum over the rules already
      visited. */
  ghost predicate SumsSoFar(flc: map<string, real>, remaining: map<string, real>, ruleCosts: map<string, real>,
                            genes: set<string>)
  {
    && flc.Keys == genes
    && forall g :: g in genes ==> flc[g] + RuleSum(remaining, g) == RuleSum(ruleCosts, g)
  }

  lemma SumsSoFarStep(flc: map<string, real>, next: map<string, real>, remaining: map<string, real>, rule: string,
                      ruleCosts: map<string, real>, genes: set<string>)
    requires rule in remaining && GenesInRule(rule).Ok? && SumsSoFar(flc, remaining, ruleCosts, genes)
    requires next.Keys == flc.Keys
    requires forall g :: g in flc ==>
      next[g] == flc[g] + (if g in GenesInRule(rule).value then remaining[rule] else 0.0)
    ensures SumsSoFar(next, remaining - {rule}, ruleCosts, genes)
  {
    forall g | g in genes
      ensures next[g] + RuleSum(remaining - {rule}, g) == RuleSum(ruleCosts, g)
    {
      RuleSumRemove(remaining, g, rule);
    }
  }

  lemma SumsSoFarDone(flc: map<string, real>, ruleCosts: map<string, real>, genes: set<string>)
    requires SumsSoFar(flc, map[], ruleCosts, genes)
    ensures flc.Keys == genes && forall g :: g in genes ==> flc[g] == RuleSum(ruleCosts, g)
  {
    assert forall g :: RuleSum(map[], g) == 0.0;
  }

  /** `for gene in genes_in_rule(rule): funcLossCost[gene] += cost`; a gene
      without an entry raises `KeyError`. */
  method AddCost(flc: map<string, real>, ruleGenes: set<string>, cost: real) returns (r: Result<map<string, real>>)
    ensures r.Ok? <==> ruleGenes <= flc.Keys
    ensures r.Err? ==> r.error == MalformedRule
    ensures r.Ok? ==> r.value.Keys == flc.Keys
    ensures r.Ok? ==> forall g :: g in flc ==> r.value[g] == flc[g] + (if g in ruleGenes then cost else 0.0)
  {
    var sums := flc;
    var todo := ruleGenes;
    while todo != {}
      invariant todo <= ruleGenes
      invariant sums.Keys == flc.Keys
      invariant ruleGenes - todo <= flc.Keys
      invariant forall g :: g in flc ==> sums[g] == flc[g] + (if g in ruleGenes && g !in todo then cost else 0.0)
      decreases |todo|
    {
      var gene :| gene in todo;
      if gene !in sums {
        return Err(MalformedRule);
      }
      sums := sums[gene := sums[gene] + cost];
      todo := todo - {gene};
    }
    r := Ok(sums);
  }

  /** The result of `single_knockout_loss_costs` on a model whose reactions
      are `rs`. */
  ghost function LossCostsSpec(rs: seq<Reaction>, solve: Solver, geneDeletion: GeneDeletion,
                               reactionDeletion: ReactionDeletion): Result<LossCosts>
  {
    var withGenes := Select(rs, WithRules(rs));
    var wt := solve(rs);
    if wt < GrowthThreshold then Ok(LossCosts(false, map[], map[]))
    else
      var geneGrowth := geneDeletion(rs);
      var ruleCosts :- RuleLossCosts(rs, wt, reactionDeletion(rs, withGenes));
      var flc :- FunctionLossCostsSpec(ruleCosts, geneGrowth.Keys);
      Ok(LossCosts(true, GeneLossCosts(wt, geneGrowth), flc))
  }

  /** `single_knockout_loss_costs`. */
  method SingleKnockoutLossCosts(model: Model, solve: Solver, geneDeletion: GeneDeletion,
                                 reactionDeletion: ReactionDeletion) returns (r: Result<LossCosts>)
    ensures r == LossCostsSpec(model.reactions[..], solve, geneDeletion, reactionDeletion)
  {
    var rs := model.reactions[..];
    var withGenes := Select(rs, WithRules(rs));
    var wtGrowth := solve(rs);
    if wtGrowth < GrowthThreshold {
      return Ok(LossCosts(false, map[], map[]));
    }
    var geneGrowth := geneDeletion(rs);
    var reactionGrowth := reactionDeletion(rs, withGenes);
    var glc := GeneLossCosts(wtGrowth, geneGrowth);
    var ruleCosts := RuleLossCosts(rs, wtGrowth, reactionGrowth);
    if ruleCosts.Err? {
      return Err(ruleCosts.error);
    }
    var flc := FunctionLossCosts(ruleCosts.value, geneGrowth.Keys);
    if flc.Err? {
      return Err(flc.error);
    }
    r := Ok(LossCosts(true, glc, flc.value));
  }

  /** No growth is reported, with empty maps, exactly when wild-type growth is
      below the threshold; on growth, every gene of the gene-deletion result
      gets a gene-loss cost and a function-loss cost, the latter the sum of
      the costs of the rules naming it. */
  lemma LossCostsSpecGrowth(rs: seq<Reaction>, solve: Solver, geneDeletion: GeneDeletion,
                            reactionDeletion: ReactionDeletion)
    ensures var r := LossCostsSpec(rs, solve, geneDeletion, reactionDeletion);
      var wt := solve(rs);
      && (solve(rs) < GrowthThreshold <==> r == Ok(LossCosts(false, map[], map[])))
      && (r.Ok? && r.value.grew ==>
            && r.value.geneLossCost.Keys == geneDeletion(rs).Keys
            && r.value.functionLossCost.Keys == geneDeletion(rs).Keys
            && (forall g :: g in r.value.geneLossCost ==>
                  IsLossCost(r.value.geneLossCost[g], wt, geneDeletion(rs)[g])))
  {
  }

  // ---------------------------------------------------------------------
  // main

  /** The part of the output file names that names the environment. */
  function OutputSuffix(carbon: string, nitrogen: string): (s: string)
    ensures ' ' !in s
  {
    var suffix := ReplaceChar(carbon + "_AND_" + nitrogen + ".pkl", ' ', '_');
    assert forall i :: 0 <= i < |suffix| ==> suffix[i] != ' ';
    suffix
  }

  function GeneLossCostFile(carbon: string, nitrogen: string): string {
    "gene_loss_cost_" + OutputSuffix(carbon, nitrogen)
  }

  function FunctionLossCostFile(carbon: string, nitrogen: string): string {
    "function_loss_cost_" + OutputSuffix(carbon, nitrogen)
  }

  /** The two file names of an environment differ, so neither file
      overwrites the other. */
  lemma OutputFilesDistinct(carbon: string, nitrogen: string)
    ensures GeneLossCostFile(carbon, nitrogen) != FunctionLossCostFile(carbon, nitrogen)
  {
    assert GeneLossCostFile(carbon, nitrogen)[0] == 'g';
    assert FunctionLossCostFile(carbon, nitrogen)[0] == 'f';
  }

  /** `cluster_output` after `main` runs with `argv` on the model file whose
      reactions are `loaded`. */
  ghost function SingleKnockoutsOutput(argv: seq<string>, loaded: seq<Reaction>, solve: Solver,
                                       geneDeletion: GeneDeletion, reactionDeletion: ReactionDeletion,
                                       out: ClusterOutput): Result<ClusterOutput>
  {
    if |argv| != 4 then Err(WrongArgumentCount)
    else
      var carbon, nitrogen := argv[2], argv[3];
      var rs :- MinimalMediaModelBounds(loaded, carbon, nitrogen);
      var costs :- LossCostsSpec(rs, solve, geneDeletion, reactionDeletion);
      if costs.grew then
        Ok(out[GeneLossCostFile(carbon, nitrogen) := GeneCosts(costs.geneLossCost)]
              [FunctionLossCostFile(carbon, nitrogen) := GeneCosts(costs.functionLossCost)])
      else Ok(out)
  }

  /** `main`: `argv` is `sys.argv` (script, model path, carbon source,
      nitrogen source); `model` is the model read from the path. */
  method SingleKnockoutsMain(argv: seq<string>, model: Model, solve: Solver, geneDeletion: GeneDeletion,
                             reactionDeletion: ReactionDeletion, out: ClusterOutput)
    returns (r: Result<ClusterOutput>)
    modifies model.reactions
    ensures r == SingleKnockoutsOutput(argv, old(model.reactions[..]), solve, geneDeletion, reactionDeletion, out)
    ensures |argv| != 4 ==> model.reactions[..] == old(model.reactions[..])
    ensures |argv| == 4 && MinimalMediaModelBounds(old(model.reactions[..]), argv[2], argv[3]).Ok? ==>
      model.reactions[..] == MinimalMediaModelBounds(old(model.reactions[..]), argv[2], argv[3]).value
  {
    if |argv| != 4 {
      return Err(WrongArgumentCount);
    }
    var carbon, nitrogen := argv[2], argv[3];
    var loaded := MinimalMediaModel(model, carbon, nitrogen);
    if loaded.Err? {
      return Err(loaded.error);
    }
    var costs := SingleKnockoutLossCosts(model, solve, geneDeletion, reactionDeletion);
    if costs.Err? {
      return Err(costs.error);
    }
    if costs.value.grew {
      var suffix := OutputSuffix(carbon, nitrogen);
      r := Ok(out["gene_loss_cost_" + suffix := GeneCosts(costs.value.geneLossCost)]
                 ["function_loss_cost_" + suffix := GeneCosts(costs.value.functionLossCost)]);
    } else {
      r := Ok(out);
    }
  }

  /** `main` writes the environment's two files when wild type grew, and
      nothing otherwise; no other file changes. */
  lemma SingleKnockoutsWritesOnGrowth(argv: seq<string>, loaded: seq<Reaction>, solve: Solver,
                                      geneDeletion: GeneDeletion, reactionDeletion: ReactionDeletion,
                                      out: ClusterOutput)
    requires SingleKnockoutsOutput(argv, loaded, solve, geneDeletion, reactionDeletion, out).Ok?
    ensures |argv| == 4
    ensures var written := SingleKnockoutsOutput(argv, loaded, solve, geneDeletion, reactionDeletion, out).value;
      var rs := MinimalMediaModelBounds(loaded, argv[2], argv[3]).value;
      var costs := LossCostsSpec(rs, solve, geneDeletion, reactionDeletion).value;
      var files := {GeneLossCostFile(argv[2], argv[3]), FunctionLossCostFile(argv[2], argv[3])};
      && (forall f :: f !in files ==> (f in written <==> f in out) && (f in out ==> written[f] == out[f]))
      && (costs.grew <==> solve(rs) >= GrowthThreshold)
      && (costs.grew ==>
            written[GeneLossCostFile(argv[2], argv[3])] == GeneCosts(costs.geneLossCost) &&
            written[FunctionLossCostFile(argv[2], argv[3])] == GeneCosts(costs.functionLossCost))
      && (!costs.grew ==> written == out)
  {
    OutputFilesDistinct(argv[2], argv[3]);
  }
}
