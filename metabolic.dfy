/** The parts of a cobra metabolic model the pipeline touches: reactions with
    a gene-reaction rule and a flux-bound interval, the model's gene ids, and
    the scoped knock-out protocol (save the bounds of the selected reactions,
    close them, solve, put the saved bounds back).

    The linear program itself is not modelled: a `Solver` is any function from
    the reactions' current state to the optimal growth (`model.optimize().f`). */
module Metabolic {
  import opened Text

  /** One reaction of the model. `exchange` says whether the reaction is an
      exchange (uptake) reaction, which the source derives from the
      stoichiometric matrix (a column with a single non-zero entry). */
  datatype Reaction = Reaction(
    id: string,
    name: string,
    rule: string,
    lowerBound: real,
    upperBound: real,
    exchange: bool)

  /** `model.optimize().f`, as a function of the reactions' bounds. */
  type Solver = seq<Reaction> -> real

  /** A loaded model. Reaction objects are the slots of `reactions`; the
      pipeline changes their bounds in place. */
  class Model {
    const genes: seq<string>
    const reactions: array<Reaction>

    constructor (genes: seq<string>, reactions: seq<Reaction>)
      ensures this.genes == genes && this.reactions[..] == reactions
      ensures fresh(this.reactions)
    {
      this.genes := genes;
      this.reactions := new Reaction[|reactions|](i requires 0 <= i < |reactions| => reactions[i]);
    }
  }

  /** The reactions (by position) whose rule mentions one of `genes` as a
      substring: `[r for r in model.reactions if g in r.gene_reaction_rule]`
      for one gene, and with `or` for two. */
  function Mentioning(rs: seq<Reaction>, genes: set<string>): (ko: seq<nat>)
    ensures forall k :: k in ko <==> 0 <= k < |rs| && MentionsAny(rs[k].rule, genes)
    ensures forall i :: 0 <= i < |ko| ==> ko[i] < |rs|
    ensures forall i, j :: 0 <= i < j < |ko| ==> ko[i] < ko[j]
  {
    if rs == [] then []
    else
      var front := Mentioning(rs[..|rs| - 1], genes);
      assert forall k :: 0 <= k < |rs| - 1 ==> rs[..|rs| - 1][k] == rs[k];
      assert forall i :: 0 <= i < |front| ==> front[i] in front && front[i] < |rs| - 1;
      if MentionsAny(rs[|rs| - 1].rule, genes) then front + [|rs| - 1] else front
  }

  predicate MentionsAny(rule: string, genes: set<string>) {
    exists g :: g in genes && Contains(rule, g)
  }

  /** The model after closing the reactions at positions `ko`: both bounds 0,
      everything else as it was. */
  function ZeroBounds(rs: seq<Reaction>, ko: seq<nat>): (r: seq<Reaction>)
    ensures |r| == |rs|
  {
    seq(|rs|, k requires 0 <= k < |rs| =>
      if k in ko then rs[k].(lowerBound := 0.0, upperBound := 0.0) else rs[k])
  }

  /** Save the bounds of the reactions at `ko`, close them, solve, and restore
      the saved bounds. The model is left exactly as it was found. */
  method KnockOutAndSolve(model: Model, ko: seq<nat>, solve: Solver) returns (growth: real)
    requires forall k :: 0 <= k < |ko| ==> ko[k] < model.reactions.Length
    modifies model.reactions
    ensures model.reactions[..] == old(model.reactions[..])
    ensures growth == solve(ZeroBounds(old(model.reactions[..]), ko))
  {
    var rs := model.reactions;
    ghost var before := rs[..];
    // oldBounds = [(r.lower_bound, r.upper_bound) for r in toKO]
    var saved := seq(|ko|, k requires 0 <= k < |ko| reads rs =>
      (rs[ko[k]].lowerBound, rs[ko[k]].upperBound));
    var i := 0;
    while i < |ko|
      invariant 0 <= i <= |ko|
      invariant rs[..] == ZeroBounds(before, ko[..i])
    {
      rs[ko[i]] := rs[ko[i]].(lowerBound := 0.0, upperBound := 0.0);
      assert forall k :: k in ko[..i + 1] <==> k in ko[..i] || k == ko[i] by {
        assert ko[..i + 1] == ko[..i] + [ko[i]];
      }
      i := i + 1;
    }
    assert ko[..|ko|] == ko;
    growth := solve(rs[..]);
    ghost var closed := rs[..];
    i := 0;
    while i < |ko|
      invariant 0 <= i <= |ko|
      invariant forall k :: 0 <= k < rs.Length ==>
        rs[k] == if k in ko[..i] then before[k] else closed[k]
    {
      rs[ko[i]] := rs[ko[i]].(lowerBound := saved[i].0, upperBound := saved[i].1);
      assert forall k :: k in ko[..i + 1] <==> k in ko[..i] || k == ko[i] by {
        assert ko[..i + 1] == ko[..i] + [ko[i]];
      }
      i := i + 1;
    }
  }
}
