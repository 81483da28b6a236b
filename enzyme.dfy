/** `enzyme.py`: one gene of the model, the rules of the reactions it takes
    part in, and its gene-loss and function-loss cost per growth environment.
    The class's methods only read its fields, so it is a value here. */
module Enzymes {
  import opened Common
  import opened Text

  /** `enzyme.tolerance`: how far apart two costs may be and still count as
      equal, the accuracy expected of the solver. */
  const Tolerance: real := 0.00004

  /** An `enzyme` object. The cost vectors are the numpy arrays callers
      assign after reading the cost tables. */
  datatype Enzyme = Enzyme(
    name: string,
    reactionRules: seq<string>,
    dndsRank: int,
    functionLossCosts: seq<real>,
    geneLossCosts: seq<real>,
    blocked: bool)

  /** `enzyme(name)`. */
  function NewEnzyme(name: string): (e: Enzyme)
    ensures e.name == name && e.reactionRules == [] && e.dndsRank == 0
    ensures e.functionLossCosts == [] && e.geneLossCosts == [] && !e.blocked
  {
    Enzyme(name, [], 0, [], [], false)
  }

  // ---------------------------------------------------------------------
  // Classification by reaction rules

  /** `number_reactions`. */
  function NumberReactions(e: Enzyme): (r: Result<nat>)
    ensures r.Ok? <==> e.reactionRules != []
    ensures r.Err? ==> r.error == NoReactionRules
    ensures r.Ok? ==> r.value == |e.reactionRules| && r.value >= 1
  {
    if |e.reactionRules| == 0 then Err(NoReactionRules) else Ok(|e.reactionRules|)
  }

  /** The loop of `is_isoenzyme`: true at the first rule containing `or`. */
  function AnyRuleWithOr(rules: seq<string>): (b: bool)
    ensures b <==> exists i :: 0 <= i < |rules| && Contains(rules[i], "or")
  {
    if rules == [] then false
    else if Contains(rules[0], "or") then true
    else
      var rest := AnyRuleWithOr(rules[1..]);
      assert forall i :: 0 < i < |rules| ==> rules[i] == rules[1..][i - 1];
      assert forall i :: 0 <= i < |rules| - 1 ==> rules[1..][i] == rules[i + 1];
      rest
  }

  /** `is_isoenzyme`: some reaction rule of the gene contains the substring
      `or` (which also matches inside a gene name). */
  function IsIsoenzyme(e: Enzyme): (r: Result<bool>)
    ensures r.Ok? <==> e.reactionRules != []
    ensures r.Err? ==> r.error == NoReactionRules
    ensures r.Ok? ==> (r.value <==> exists i :: 0 <= i < |e.reactionRules| && Contains(e.reactionRules[i], "or"))
  {
    if |e.reactionRules| == 0 then Err(NoReactionRules) else Ok(AnyRuleWithOr(e.reactionRules))
  }

  /** `is_multifunctional`. */
  function IsMultifunctional(e: Enzyme): (r: Result<bool>)
    ensures r.Ok? <==> e.reactionRules != []
    ensures r.Err? ==> r.error == NoReactionRules
    ensures r.Ok? ==> (r.value <==> |e.reactionRules| > 1)
  {
    if |e.reactionRules| == 0 then Err(NoReactionRules) else Ok(|e.reactionRules| > 1)
  }

  /** `is_simple_single_function`. */
  function IsSimpleSingleFunction(e: Enzyme): (r: Result<bool>)
    ensures r.Ok? <==> e.reactionRules != []
    ensures r.Err? ==> r.error == NoReactionRules
    ensures r.Ok? ==> (r.value <==> e.reactionRules == [e.name])
  {
    if |e.reactionRules| == 0 then Err(NoReactionRules)
    else Ok(|e.reactionRules| == 1 && e.reactionRules[0] == e.name)
  }

  /** A freshly made enzyme cannot be classified: every query raises. */
  lemma NewEnzymeUnclassified(name: string)
    ensures NumberReactions(NewEnzyme(name)) == Err(NoReactionRules)
    ensures IsIsoenzyme(NewEnzyme(name)) == Err(NoReactionRules)
    ensures IsMultifunctional(NewEnzyme(name)) == Err(NoReactionRules)
    ensures IsSimpleSingleFunction(NewEnzyme(name)) == Err(NoReactionRules)
  {
  }

  /** A simple single-function gene takes part in exactly one reaction, so
      it is not multifunctional. */
  lemma SimpleNotMultifunctional(e: Enzyme)
    requires IsSimpleSingleFunction(e) == Ok(true)
    ensures IsMultifunctional(e) == Ok(false)
    ensures NumberReactions(e) == Ok(1)
  {
  }

  /** A simple single-function gene is an isoenzyme exactly when its own
      name contains `or`: the test's claim that no gene is both holds for
      every gene whose name does not contain `or`, and fails for the others. */
  lemma SimpleIsoenzymeIffNameHasOr(e: Enzyme)
    requires IsSimpleSingleFunction(e) == Ok(true)
    ensures IsIsoenzyme(e) == Ok(Contains(e.name, "or"))
  {
    assert e.reactionRules[0] == e.name;
  }

  // ---------------------------------------------------------------------
  // Comparing the two cost vectors

  function Abs(x: real): real {
    if x < 0.0 then -x else x
  }

  /** The length numpy broadcasts two 1-d arrays to, or the error it raises:
      equal lengths stay, a length-1 array is stretched to the other. */
  function BroadcastLength(a: seq<real>, b: seq<real>): (r: Result<nat>)
    ensures r.Ok? <==> |a| == |b| || |a| == 1 || |b| == 1
    ensures r.Err? ==> r.error == ShapeMismatch
    ensures r.Ok? ==> (|a| == 1 || |a| == r.value) && (|b| == 1 || |b| == r.value)
  {
    if |a| == |b| then Ok(|a|)
    else if |a| == 1 then Ok(|b|)
    else if |b| == 1 then Ok(|a|)
    else Err(ShapeMismatch)
  }

  /** Element `i` of `a` after broadcasting. */
  function At(a: seq<real>, i: nat): real
    requires i < |a| || |a| == 1
  {
    if |a| == 1 then a[0] else a[i]
  }

  /** Environment `i` has costs further apart than the tolerance. */
  predicate Disagrees(f: seq<real>, g: seq<real>, i: nat)
    requires (i < |f| || |f| == 1) && (i < |g| || |g| == 1)
  {
    Abs(At(g, i) - At(f, i)) > Tolerance
  }

  /** How many of the first `n` environments disagree. */
  function CountDisagreeing(f: seq<real>, g: seq<real>, n: nat): (c: nat)
    requires (|f| == 1 || n <= |f|) && (|g| == 1 || n <= |g|)
    ensures c <= n
    ensures c == 0 <==> forall i :: 0 <= i < n ==> !Disagrees(f, g, i)
  {
    if n == 0 then 0
    else CountDisagreeing(f, g, n - 1) + (if Disagrees(f, g, n - 1) then 1 else 0)
  }

  /** `old_and_new_costs_identical`: `np.allclose` with no relative
      tolerance, true when every pair of broadcast costs is within the
      tolerance. */
  function OldAndNewCostsIdentical(e: Enzyme): (r: Result<bool>)
    ensures r.Ok? <==> BroadcastLength(e.functionLossCosts, e.geneLossCosts).Ok?
    ensures r.Err? ==> r.error == ShapeMismatch
  {
    var n :- BroadcastLength(e.functionLossCosts, e.geneLossCosts);
    Ok(forall i :: 0 <= i < n ==> Abs(At(e.functionLossCosts, i) - At(e.geneLossCosts, i)) <= Tolerance)
  }

  /** `num_environments_disagree`: the number of environments whose costs
      differ by more than the tolerance. */
  function NumEnvironmentsDisagree(e: Enzyme): (r: Result<nat>)
    ensures r.Ok? <==> BroadcastLength(e.geneLossCosts, e.functionLossCosts).Ok?
    ensures r.Err? ==> r.error == ShapeMismatch
    ensures r.Ok? ==> r.value <= BroadcastLength(e.geneLossCosts, e.functionLossCosts).value
  {
    var n :- BroadcastLength(e.geneLossCosts, e.functionLossCosts);
    Ok(CountDisagreeing(e.functionLossCosts, e.geneLossCosts, n))
  }

  /** The two comparisons agree: they fail together, and the costs are
      "identical" exactly when no environment disagrees. */
  lemma IdenticalIffNoneDisagree(e: Enzyme)
    ensures OldAndNewCostsIdentical(e).Ok? <==> NumEnvironmentsDisagree(e).Ok?
    ensures OldAndNewCostsIdentical(e).Ok? ==>
      (OldAndNewCostsIdentical(e).value <==> NumEnvironmentsDisagree(e).value == 0)
  {
    var f, g := e.functionLossCosts, e.geneLossCosts;
    if BroadcastLength(f, g).Ok? {
      var n := BroadcastLength(f, g).value;
      assert BroadcastLength(g, f) == Ok(n);
      var close := forall i :: 0 <= i < n ==> Abs(At(f, i) - At(g, i)) <= Tolerance;
      assert OldAndNewCostsIdentical(e) == Ok(close);
      assert NumEnvironmentsDisagree(e) == Ok(CountDisagreeing(f, g, n));
      assert close <==> forall i :: 0 <= i < n ==> !Disagrees(f, g, i) by {
        forall i | 0 <= i < n
          ensures Abs(At(f, i) - At(g, i)) <= Tolerance <==> !Disagrees(f, g, i)
        {
          assert Abs(At(f, i) - At(g, i)) == Abs(At(g, i) - At(f, i));
        }
      }
    }
  }

  /** On equal-length vectors, "identical" means every environment's two
      costs are within the tolerance. */
  lemma IdenticalPointwise(e: Enzyme)
    requires |e.functionLossCosts| == |e.geneLossCosts|
    ensures OldAndNewCostsIdentical(e) == Ok(forall i :: 0 <= i < |e.geneLossCosts| ==>
      Abs(e.functionLossCosts[i] - e.geneLossCosts[i]) <= Tolerance)
  {
    var f, g := e.functionLossCosts, e.geneLossCosts;
    assert BroadcastLength(f, g) == Ok(|g|);
    assert forall i :: 0 <= i < |g| ==> At(f, i) == f[i] && At(g, i) == g[i];
  }

  // ---------------------------------------------------------------------
  // Hybrid costs

  /** `hybrid_cost_1`. */
  function HybridCost1(e: Enzyme): (r: Result<seq<real>>)
    ensures r.Ok? <==> e.reactionRules != []
    ensures r.Err? ==> r.error == NoReactionRules
  {
    var multi :- IsMultifunctional(e);
    Ok(if multi then e.functionLossCosts else e.geneLossCosts)
  }

  /** `hybrid_cost_2`. */
  function HybridCost2(e: Enzyme): (r: Result<seq<real>>)
    ensures r.Ok? <==> e.reactionRules != []
    ensures r.Err? ==> r.error == NoReactionRules
  {
    var iso :- IsIsoenzyme(e);
    Ok(if iso then e.functionLossCosts else e.geneLossCosts)
  }

  /** Hybrid cost 1 is the function-loss cost of genes in several reactions
      and the gene-loss cost of genes in one. */
  lemma HybridCost1Choice(e: Enzyme)
    requires e.reactionRules != []
    ensures |e.reactionRules| > 1 ==> HybridCost1(e) == Ok(e.functionLossCosts)
    ensures |e.reactionRules| == 1 ==> HybridCost1(e) == Ok(e.geneLossCosts)
  {
  }

  /** Hybrid cost 2 is the function-loss cost of isoenzymes and the
      gene-loss cost of the rest. */
  lemma HybridCost2Choice(e: Enzyme)
    requires e.reactionRules != []
    ensures (exists i :: 0 <= i < |e.reactionRules| && Contains(e.reactionRules[i], "or")) ==>
      HybridCost2(e) == Ok(e.functionLossCosts)
    ensures (forall i :: 0 <= i < |e.reactionRules| ==> !Contains(e.reactionRules[i], "or")) ==>
      HybridCost2(e) == Ok(e.geneLossCosts)
  {
  }

  /** For a simple single-function gene whose name has no `or`, both hybrid
      costs are its gene-loss cost. */
  lemma HybridCostsOfSimpleGene(e: Enzyme)
    requires IsSimpleSingleFunction(e) == Ok(true) && !Contains(e.name, "or")
    ensures HybridCost1(e) == Ok(e.geneLossCosts)
    ensures HybridCost2(e) == Ok(e.geneLossCosts)
  {
    SimpleIsoenzymeIffNameHasOr(e);
  }
}
