/** Gene-rule parsing, reaction lookup by name, and the media bound policies
    of `fba_utils.py`. Reactions are identified by their position in the list
    they are looked up in; "the exchange reactions" are the positions whose
    `exchange` flag is set. */
module FbaUtils {
  import opened Common
  import opened Text
  import opened Metabolic

  // ---------------------------------------------------------------------
  // genes_in_rule

  /** The rule with every `and`, `or`, `(` and `)` deleted, in that order. */
  function StripConnectives(rule: string): string {
    DeleteAll(DeleteAll(DeleteAll(DeleteAll(rule, "and"), "or"), "("), ")")
  }

  /** `genes_in_rule`: the set of white-space separated tokens left after the
      connectives are deleted; an error when no token is left. */
  function GenesInRule(rule: string): (r: Result<set<string>>)
    ensures r.Ok? <==> Words(StripConnectives(rule)) != []
    ensures r.Err? ==> r.error == NoGenesInRule
    ensures r.Ok? ==> r.value != {} && forall g :: g in r.value ==>
      g != [] && forall c :: c in g ==> !IsSpace(c) && c != '(' && c != ')'
  {
    var stripped := StripConnectives(rule);
    var words := Words(stripped);
    WordsShape(stripped);
    DeleteAllChar(DeleteAll(DeleteAll(rule, "and"), "or"), '(');
    DeleteAllChar(DeleteAll(DeleteAll(DeleteAll(rule, "and"), "or"), "("), ')');
    DeleteAllChars(DeleteAll(DeleteAll(DeleteAll(rule, "and"), "or"), "("), ")");
    var genes := set w | w in words;
    WordSetEmpty(words);
    if genes == {} then Err(NoGenesInRule) else Ok(genes)
  }

  lemma WordSetEmpty(words: seq<string>)
    ensures (set w | w in words) == {} <==> words == []
  {
    var ws := set w | w in words;
    if words != [] {
      assert words[0] in ws;
      assert ws != {};
    }
  }

  /** A gene id as it appears in a rule: non-empty, no white space or
      parentheses, and not containing the connectives as substrings. */
  predicate PlainGene(g: string) {
    && g != []
    && (forall c :: c in g ==> !IsSpace(c) && c != '(' && c != ')')
    && !Contains(g, "and") && !Contains(g, "or")
  }

  lemma {:induction false} ContainsChar(s: string, c: char)
    requires Contains(s, [c])
    ensures c in s
    decreases |s|
  {
    if StartsWith(s, [c]) {
      assert s[0] == s[..1][0];
    } else {
      ContainsChar(s[1..], c);
      assert forall d :: d in s[1..] ==> d in s;
    }
  }

  /** A plain gene is left as it is by the deletions. */
  lemma StripPlainGene(g: string)
    requires PlainGene(g)
    ensures StripConnectives(g) == g
  {
    DeleteAllAbsent(g, "and");
    DeleteAllAbsent(g, "or");
    if Contains(g, "(") { ContainsChar(g, '('); }
    DeleteAllAbsent(g, "(");
    if Contains(g, ")") { ContainsChar(g, ')'); }
    DeleteAllAbsent(g, ")");
  }

  /** A rule that is one plain gene names exactly that gene. */
  lemma GenesInSingleGeneRule(g: string)
    requires PlainGene(g)
    ensures GenesInRule(g) == Ok({g})
  {
    StripPlainGene(g);
    WordsSingle(g);
    assert (set w | w in [g]) == {g};
  }

  /** `x + " " + y` for plain genes contains none of the connectives. */
  lemma PlainGenesJoined(a: string, b: string, p: string)
    requires PlainGene(a) && PlainGene(b)
    requires p in ["and", "or", "(", ")"]
    ensures !Contains(a + " " + b, p) && !Contains(" " + b, p) && !Contains(a, p) && !Contains(b, p)
  {
    if p == "(" || p == ")" {
      if Contains(a, p) { ContainsChar(a, p[0]); }
      if Contains(b, p) { ContainsChar(b, p[0]); }
    }
    ContainsAcrossSpace(a, b, p);
    ContainsAcrossSpace([], b, p);
    assert [] + " " + b == " " + b;
  }

  lemma ConnectivesDistinct()
    ensures !Contains("or", "and") && !Contains("and", "or")
  {
    assert !StartsWith("or", "and") && !StartsWith("r", "and") && !StartsWith("", "and");
    assert "or"[1..] == "r" && "r"[1..] == "";
    assert "and"[..2][0] == 'a' && "nd"[..2][0] == 'n' && "or"[0] == 'o';
    assert !StartsWith("and", "or") && !StartsWith("nd", "or") && !StartsWith("d", "or");
    assert !StartsWith("", "or");
    assert "and"[1..] == "nd" && "nd"[1..] == "d" && "d"[1..] == "";
  }

  /** Deleting the connective of `a conn b` leaves the spaces around it. */
  lemma DeleteConnective(a: string, conn: string, b: string)
    requires PlainGene(a) && PlainGene(b)
    requires conn == "or" || conn == "and"
    ensures DeleteAll(a + " " + (conn + " " + b), conn) == a + " " + (" " + b)
  {
    PlainGenesJoined(a, b, conn);
    DeleteAllAcrossSpace(a, conn + " " + b, conn);
    assert StartsWith(conn + " " + b, conn);
    assert (conn + " " + b)[|conn|..] == " " + b;
    DeleteAllAcrossSpace([], b, conn);
    assert [] + " " + b == " " + b;
    DeleteAllAbsent(b, conn);
  }

  /** The other connective does not occur in `a conn b`. */
  lemma OtherConnectiveAbsent(a: string, conn: string, other: string, b: string)
    requires PlainGene(a) && PlainGene(b)
    requires (conn == "or" && other == "and") || (conn == "and" && other == "or")
    ensures DeleteAll(a + " " + (conn + " " + b), other) == a + " " + (conn + " " + b)
  {
    PlainGenesJoined(a, b, other);
    ConnectivesDistinct();
    ContainsAcrossSpace(conn, b, other);
    ContainsAcrossSpace(a, conn + " " + b, other);
    DeleteAllAbsent(a + " " + (conn + " " + b), other);
  }

  /** `a  b` (two spaces) contains none of the deleted patterns. */
  lemma SpacedPairClean(a: string, b: string, p: string)
    requires PlainGene(a) && PlainGene(b)
    requires p in ["and", "or", "(", ")"]
    ensures DeleteAll(a + " " + (" " + b), p) == a + " " + (" " + b)
  {
    PlainGenesJoined(a, b, p);
    ContainsAcrossSpace(a, " " + b, p);
    DeleteAllAbsent(a + " " + (" " + b), p);
  }

  lemma SpacedPairWords(a: string, b: string)
    requires PlainGene(a) && PlainGene(b)
    ensures Words(a + " " + (" " + b)) == [a, b]
  {
    WordsSeparated(a, " " + b);
    assert Words(" " + b) == Words(b) by {
      assert (" " + b)[1..] == b;
    }
    WordsSingle(b);
  }

  /** The two-gene rules `a or b` (isoenzymes) and `a and b` (a complex)
      both name exactly the genes `a` and `b`. */
  lemma GenesInBinaryRule(a: string, conn: string, b: string)
    requires PlainGene(a) && PlainGene(b)
    requires conn == "or" || conn == "and"
    ensures GenesInRule(a + " " + conn + " " + b) == Ok({a, b})
  {
    var rule := a + " " + (conn + " " + b);
    assert rule == a + " " + conn + " " + b;
    var spaced := a + " " + (" " + b);
    if conn == "or" {
      OtherConnectiveAbsent(a, conn, "and", b);
      DeleteConnective(a, conn, b);
    } else {
      DeleteConnective(a, conn, b);
      SpacedPairClean(a, b, "or");
    }
    assert DeleteAll(DeleteAll(rule, "and"), "or") == spaced;
    SpacedPairClean(a, b, "(");
    SpacedPairClean(a, b, ")");
    assert StripConnectives(rule) == spaced;
    SpacedPairWords(a, b);
    assert (set w | w in [a, b]) == {a, b};
  }

  // ---------------------------------------------------------------------
  // get_reaction_from_name, find_media_reactions

  /** The positions of the reactions called `name`. */
  function NamedAt(rs: seq<Reaction>, name: string): (m: seq<nat>)
    ensures forall k :: k in m <==> 0 <= k < |rs| && rs[k].name == name
    ensures forall i :: 0 <= i < |m| ==> m[i] < |rs|
    ensures forall i, j :: 0 <= i < j < |m| ==> m[i] < m[j]
  {
    if rs == [] then []
    else
      var front := NamedAt(rs[..|rs| - 1], name);
      assert forall k :: 0 <= k < |rs| - 1 ==> rs[..|rs| - 1][k] == rs[k];
      assert forall i :: 0 <= i < |front| ==> front[i] in front && front[i] < |rs| - 1;
      if rs[|rs| - 1].name == name then front + [|rs| - 1] else front
  }

  /** `get_reaction_from_name`: the one reaction (by position) called `name`;
      an error when there are several or none. */
  function GetReactionFromName(rs: seq<Reaction>, name: string): (r: Result<nat>)
  {
    var matches := NamedAt(rs, name);
    if |matches| > 1 then Err(DuplicateReactions)
    else if |matches| == 0 then Err(ReactionNotFound(name))
    else Ok(matches[0])
  }

  lemma NamedAtNone(rs: seq<Reaction>, name: string)
    ensures NamedAt(rs, name) == [] <==> forall k :: 0 <= k < |rs| ==> rs[k].name != name
  {
    var m := NamedAt(rs, name);
    if m != [] {
      assert m[0] in m;
    } else {
      forall k | 0 <= k < |rs| ensures rs[k].name != name {
        assert k !in m;
      }
    }
  }

  lemma NamedAtMany(rs: seq<Reaction>, name: string)
    ensures |NamedAt(rs, name)| > 1 <==>
      exists i, j :: 0 <= i < j < |rs| && rs[i].name == name && rs[j].name == name
  {
    var m := NamedAt(rs, name);
    if |m| > 1 {
      assert m[0] in m && m[1] in m;
    }
    if i, j :| 0 <= i < j < |rs| && rs[i].name == name && rs[j].name == name {
      assert i in m && j in m;
      var a :| 0 <= a < |m| && m[a] == i;
      var b :| 0 <= b < |m| && m[b] == j;
      assert a != b;
    }
  }

  lemma NamedAtOne(rs: seq<Reaction>, name: string)
    ensures |NamedAt(rs, name)| == 1 <==>
      exists k :: 0 <= k < |rs| && rs[k].name == name &&
        forall j :: 0 <= j < |rs| && rs[j].name == name ==> j == k
  {
    var m := NamedAt(rs, name);
    if |m| == 1 {
      assert m[0] in m;
      forall j | 0 <= j < |rs| && rs[j].name == name ensures j == m[0] {
        assert j in m;
      }
    }
    if k :| 0 <= k < |rs| && rs[k].name == name &&
            forall j :: 0 <= j < |rs| && rs[j].name == name ==> j == k {
      assert k in m;
      NamedAtMany(rs, name);
      forall i, j | 0 <= i < j < |rs| && rs[i].name == name ensures rs[j].name != name {
        assert i == k;
      }
    }
  }

  /** The lookup succeeds exactly when one reaction has the name, and then
      returns that reaction. */
  lemma GetReactionFromNameFound(rs: seq<Reaction>, name: string)
    ensures var r := GetReactionFromName(rs, name);
      && (r.Ok? <==> exists k :: 0 <= k < |rs| && rs[k].name == name &&
                       forall j :: 0 <= j < |rs| && rs[j].name == name ==> j == k)
      && (r.Ok? ==> r.value < |rs| && rs[r.value].name == name)
  {
    var m := NamedAt(rs, name);
    NamedAtOne(rs, name);
    if |m| == 1 {
      assert m[0] in m;
    }
  }

  /** Otherwise it says which of the two failures it is. */
  lemma GetReactionFromNameFailures(rs: seq<Reaction>, name: string)
    ensures var r := GetReactionFromName(rs, name);
      && (r == Err(ReactionNotFound(name)) <==> forall k :: 0 <= k < |rs| ==> rs[k].name != name)
      && (r == Err(DuplicateReactions) <==>
            exists i, j :: 0 <= i < j < |rs| && rs[i].name == name && rs[j].name == name)
  {
    NamedAtNone(rs, name);
    NamedAtMany(rs, name);
  }

  /** The reaction that takes up a nutrient is called `<nutrient> exchange`. */
  function ExchangeName(nutrient: string): string {
    nutrient + " exchange"
  }

  /** `find_media_reactions`, as a function of the nutrients read so far:
      each nutrient with one exchange reaction adds it, in order; a nutrient
      without one is skipped (the source only warns); two are an error. */
  function MediaReactions(nutrients: seq<string>, exchangeReactions: seq<Reaction>): Result<seq<Reaction>>
    decreases |nutrients|
  {
    if nutrients == [] then Ok([])
    else
      var found :- MediaReactions(nutrients[..|nutrients| - 1], exchangeReactions);
      var matches := NamedAt(exchangeReactions, ExchangeName(nutrients[|nutrients| - 1]));
      if |matches| > 1 then Err(DuplicateReactions)
      else if |matches| == 0 then Ok(found)
      else Ok(found + [exchangeReactions[matches[0]]])
  }

  /** `find_media_reactions`. */
  method FindMediaReactions(nutrients: seq<string>, exchangeReactions: seq<Reaction>)
    returns (r: Result<seq<Reaction>>)
    ensures r == MediaReactions(nutrients, exchangeReactions)
  {
    var reactions := [];
    for i := 0 to |nutrients|
      invariant MediaReactions(nutrients[..i], exchangeReactions) == Ok(reactions)
    {
      assert nutrients[..i + 1][..i] == nutrients[..i];
      var matches := NamedAt(exchangeReactions, ExchangeName(nutrients[i]));
      if |matches| > 1 {
        MediaReactionsErrorSticks(nutrients, exchangeReactions, i + 1);
        return Err(DuplicateReactions);
      } else if |matches| == 1 {
        reactions := reactions + [exchangeReactions[matches[0]]];
      }
    }
    assert nutrients[..|nutrients|] == nutrients;
    r := Ok(reactions);
  }

  /** Once a prefix of the nutrients fails, the whole list fails. */
  lemma {:induction false} MediaReactionsErrorSticks(nutrients: seq<string>, exchangeReactions: seq<Reaction>, i: nat)
    requires i <= |nutrients| && MediaReactions(nutrients[..i], exchangeReactions).Err?
    ensures MediaReactions(nutrients, exchangeReactions) == Err(DuplicateReactions)
    decreases |nutrients| - i
  {
    if i < |nutrients| {
      assert nutrients[..i + 1][..i] == nutrients[..i];
      MediaReactionsErrorSticks(nutrients, exchangeReactions, i + 1);
    } else {
      assert nutrients[..i] == nutrients;
      MediaReactionsErrorIsDuplicate(nutrients, exchangeReactions);
    }
  }

  lemma {:induction false} MediaReactionsErrorIsDuplicate(nutrients: seq<string>, exchangeReactions: seq<Reaction>)
    ensures MediaReactions(nutrients, exchangeReactions).Err? ==>
      MediaReactions(nutrients, exchangeReactions).error == DuplicateReactions
    decreases |nutrients|
  {
    if nutrients != [] {
      MediaReactionsErrorIsDuplicate(nutrients[..|nutrients| - 1], exchangeReactions);
    }
  }

  /** The nutrient has exactly one `<nutrient> exchange` reaction. */
  predicate HasOneExchange(exchangeReactions: seq<Reaction>, nutrient: string) {
    |NamedAt(exchangeReactions, ExchangeName(nutrient))| == 1
  }

  /** The positions of the nutrients that have exactly one exchange
      reaction, in increasing order. */
  function UniquelyExchanged(nutrients: seq<string>, exchangeReactions: seq<Reaction>): (idx: seq<nat>)
    ensures forall k :: k in idx <==> 0 <= k < |nutrients| && HasOneExchange(exchangeReactions, nutrients[k])
    ensures forall i :: 0 <= i < |idx| ==> idx[i] < |nutrients|
    ensures forall i, j :: 0 <= i < j < |idx| ==> idx[i] < idx[j]
    decreases |nutrients|
  {
    if nutrients == [] then []
    else
      var n := |nutrients| - 1;
      var front := UniquelyExchanged(nutrients[..n], exchangeReactions);
      assert forall k :: 0 <= k < n ==> nutrients[..n][k] == nutrients[k];
      assert forall i :: 0 <= i < |front| ==> front[i] in front;
      if HasOneExchange(exchangeReactions, nutrients[n]) then front + [n] else front
  }

  /** The exchange reaction of a nutrient that has exactly one. */
  function OnlyExchange(exchangeReactions: seq<Reaction>, nutrient: string): Reaction
    requires HasOneExchange(exchangeReactions, nutrient)
  {
    exchangeReactions[NamedAt(exchangeReactions, ExchangeName(nutrient))[0]]
  }

  /** What `find_media_reactions` returns when it succeeds: in the
      nutrients' order, the one `<nutrient> exchange` reaction of every
      nutrient that has exactly one, and nothing else. */
  lemma {:induction false} MediaReactionsInOrder(nutrients: seq<string>, exchangeReactions: seq<Reaction>)
    ensures var r := MediaReactions(nutrients, exchangeReactions);
      r.Ok? ==> var idx := UniquelyExchanged(nutrients, exchangeReactions);
        && |r.value| == |idx|
        && forall j :: 0 <= j < |idx| ==> r.value[j] == OnlyExchange(exchangeReactions, nutrients[idx[j]])
    decreases |nutrients|
  {
    if nutrients != [] {
      var n := |nutrients| - 1;
      var front := nutrients[..n];
      MediaReactionsInOrder(front, exchangeReactions);
      var idxFront := UniquelyExchanged(front, exchangeReactions);
      forall j | 0 <= j < |idxFront| ensures nutrients[idxFront[j]] == front[idxFront[j]] {
        assert idxFront[j] in idxFront;
      }
      assert forall k :: 0 <= k < n ==> nutrients[..n][k] == nutrients[k];
    }
  }

  /** What `find_media_reactions` promises: it fails exactly when some
      nutrient has two exchange reactions; otherwise it returns at most one
      reaction per nutrient, each the `<nutrient> exchange` reaction of one of
      them, and no more reactions than nutrients. */
  lemma {:induction false} MediaReactionsSpec(nutrients: seq<string>, exchangeReactions: seq<Reaction>)
    ensures var r := MediaReactions(nutrients, exchangeReactions);
      && (r.Err? <==>
            exists i :: 0 <= i < |nutrients| && |NamedAt(exchangeReactions, ExchangeName(nutrients[i]))| > 1)
      && (r.Ok? ==> |r.value| <= |nutrients|)
      && (r.Ok? ==> forall x :: x in r.value ==>
            && x in exchangeReactions
            && exists i :: 0 <= i < |nutrients| && x.name == ExchangeName(nutrients[i]))
    decreases |nutrients|
  {
    if nutrients != [] {
      var front := nutrients[..|nutrients| - 1];
      var last := nutrients[|nutrients| - 1];
      MediaReactionsSpec(front, exchangeReactions);
      MediaReactionsErrorIsDuplicate(front, exchangeReactions);
      var matches := NamedAt(exchangeReactions, ExchangeName(last));
      if |matches| == 1 {
        assert matches[0] in matches;
      }
      var r := MediaReactions(nutrients, exchangeReactions);
      if r.Ok? {
        forall x | x in r.value
          ensures exists i :: 0 <= i < |nutrients| && x.name == ExchangeName(nutrients[i])
        {
          if x in MediaReactions(front, exchangeReactions).value {
            var i :| 0 <= i < |front| && x.name == ExchangeName(front[i]);
            assert nutrients[i] == front[i];
          } else {
            assert x.name == ExchangeName(nutrients[|nutrients| - 1]);
          }
        }
      }
      if MediaReactions(front, exchangeReactions).Err? {
        var i :| 0 <= i < |front| && |NamedAt(exchangeReactions, ExchangeName(front[i]))| > 1;
        assert nutrients[i] == front[i];
      } else {
        forall i | 0 <= i < |nutrients| - 1
          ensures |NamedAt(exchangeReactions, ExchangeName(nutrients[i]))| <= 1
        {
          assert nutrients[i] == front[i];
        }
      }
    }
  }

  // ---------------------------------------------------------------------
  // Exchange reactions

  /** `get_exchange_reactions`, by position. */
  function Exchanges(rs: seq<Reaction>): (ex: seq<nat>)
    ensures forall k :: k in ex <==> 0 <= k < |rs| && rs[k].exchange
    ensures forall i :: 0 <= i < |ex| ==> ex[i] < |rs|
    ensures forall i, j :: 0 <= i < j < |ex| ==> ex[i] < ex[j]
  {
    if rs == [] then []
    else
      var front := Exchanges(rs[..|rs| - 1]);
      assert forall k :: 0 <= k < |rs| - 1 ==> rs[..|rs| - 1][k] == rs[k];
      assert forall i :: 0 <= i < |front| ==> front[i] < |rs| - 1;
      if rs[|rs| - 1].exchange then front + [|rs| - 1] else front
  }

  /** The reactions at the given positions, as the list the source builds. */
  function Select(rs: seq<Reaction>, ps: seq<nat>): (r: seq<Reaction>)
    requires forall i :: 0 <= i < |ps| ==> ps[i] < |rs|
    ensures |r| == |ps|
  {
    seq(|ps|, i requires 0 <= i < |ps| => rs[ps[i]])
  }

  /** The model after setting one reaction's lower bound. */
  function WithLowerBound(rs: seq<Reaction>, k: nat, lb: real): (r: seq<Reaction>)
    requires k < |rs|
    ensures |r| == |rs| && r[k].lowerBound == lb
    ensures forall j :: 0 <= j < |rs| ==> r[j].(lowerBound := rs[j].lowerBound) == rs[j]
    ensures forall j :: 0 <= j < |rs| && j != k ==> r[j] == rs[j]
  {
    rs[k := rs[k].(lowerBound := lb)]
  }

  // ---------------------------------------------------------------------
  // minimal_media

  const StandardNutrients: seq<string> :=
    ["H+", "iron(2+)", "oxygen", "phosphate", "potassium", "sodium", "sulphate", "water"]

  /** Uptake allowed for a source that is both the carbon and the nitrogen source. */
  const SingleSourceUptake: real := -20.0
  /** Uptake allowed for each of two different sources. */
  const DualSourceUptake: real := -10.0
  /** Uptake the loop first gives a standard nutrient. */
  const UnlimitedUptake: real := -1000.0

  /** The lower bound `minimal_media` leaves on an exchange reaction named
      `name`. The standard-nutrient bound is written first and then always
      overwritten, so it does not appear here. */
  function MinimalMediaLowerBound(name: string, carbon: string, nitrogen: string): real {
    if name == ExchangeName(carbon) || name == ExchangeName(nitrogen) then
      (if carbon == nitrogen then SingleSourceUptake else DualSourceUptake)
    else 0.0
  }

  /** The model after `minimal_media(model, carbon, nitrogen)`. */
  function MinimalMediaBounds(rs: seq<Reaction>, carbon: string, nitrogen: string): (r: seq<Reaction>)
    ensures |r| == |rs|
  {
    seq(|rs|, k requires 0 <= k < |rs| =>
      if rs[k].exchange then rs[k].(lowerBound := MinimalMediaLowerBound(rs[k].name, carbon, nitrogen))
      else rs[k])
  }

  /** `minimal_media`: every exchange reaction's lower bound is rewritten. */
  method MinimalMedia(model: Model, carbon: string, nitrogen: string)
    modifies model.reactions
    ensures model.reactions[..] == MinimalMediaBounds(old(model.reactions[..]), carbon, nitrogen)
  {
    var rs := model.reactions;
    ghost var before := rs[..];
    var standard := set s | s in StandardNutrients :: ExchangeName(s);
    for k := 0 to rs.Length
      invariant forall j :: 0 <= j < k ==> rs[j] == MinimalMediaBounds(before, carbon, nitrogen)[j]
      invariant forall j :: k <= j < rs.Length ==> rs[j] == before[j]
    {
      if rs[k].exchange {
        var name := rs[k].name;
        if name in standard {
          rs[k] := rs[k].(lowerBound := UnlimitedUptake);
        }
        if name == ExchangeName(carbon) || name == ExchangeName(nitrogen) {
          if carbon == nitrogen {
            rs[k] := rs[k].(lowerBound := SingleSourceUptake);
          } else {
            rs[k] := rs[k].(lowerBound := DualSourceUptake);
          }
        } else {
          rs[k] := rs[k].(lowerBound := 0.0);
        }
      }
    }
  }

  lemma ExchangeNameInjective(a: string, b: string)
    requires ExchangeName(a) == ExchangeName(b)
    ensures a == b
  {
    assert |a| == |b|;
    assert a == ExchangeName(a)[..|a|];
  }

  /** The source bounds of `minimal_media`: the chosen exchange reaction(s)
      get -20 when carbon and nitrogen source coincide and -10 each otherwise;
      every other exchange reaction is closed, the standard nutrients
      included. */
  lemma MinimalMediaExchangeBounds(rs: seq<Reaction>, carbon: string, nitrogen: string, k: nat)
    requires k < |rs| && rs[k].exchange
    ensures var lb := MinimalMediaBounds(rs, carbon, nitrogen)[k].lowerBound;
      && (rs[k].name == ExchangeName(carbon) && carbon == nitrogen ==> lb == -20.0)
      && (rs[k].name in {ExchangeName(carbon), ExchangeName(nitrogen)} && carbon != nitrogen ==> lb == -10.0)
      && (rs[k].name !in {ExchangeName(carbon), ExchangeName(nitrogen)} ==> lb == 0.0)
      && (forall s :: (s in StandardNutrients && rs[k].name == ExchangeName(s) &&
            s != carbon && s != nitrogen) ==> lb == 0.0)
  {
    forall s | s in StandardNutrients && rs[k].name == ExchangeName(s) && s != carbon && s != nitrogen
      ensures MinimalMediaBounds(rs, carbon, nitrogen)[k].lowerBound == 0.0
    {
      if rs[k].name == ExchangeName(carbon) { ExchangeNameInjective(s, carbon); }
      if rs[k].name == ExchangeName(nitrogen) { ExchangeNameInjective(s, nitrogen); }
    }
  }

  /** `minimal_media` writes only lower bounds, and only of exchange reactions. */
  lemma MinimalMediaFrame(rs: seq<Reaction>, carbon: string, nitrogen: string)
    ensures var r := MinimalMediaBounds(rs, carbon, nitrogen);
      forall k :: 0 <= k < |rs| ==>
        && r[k].(lowerBound := rs[k].lowerBound) == rs[k]
        && (!rs[k].exchange ==> r[k] == rs[k])
  {
  }

  /** The outcome of `minimal_media` does not depend on the exchange lower
      bounds it finds, so a later call undoes an earlier one entirely. */
  lemma MinimalMediaLastWins(rs: seq<Reaction>, c1: string, n1: string, c2: string, n2: string)
    ensures MinimalMediaBounds(MinimalMediaBounds(rs, c1, n1), c2, n2) == MinimalMediaBounds(rs, c2, n2)
  {
    var l := MinimalMediaBounds(MinimalMediaBounds(rs, c1, n1), c2, n2);
    var r := MinimalMediaBounds(rs, c2, n2);
    forall k | 0 <= k < |rs| ensures l[k] == r[k] {
    }
  }

  lemma MinimalMediaIdempotent(rs: seq<Reaction>, carbon: string, nitrogen: string)
    ensures var once := MinimalMediaBounds(rs, carbon, nitrogen);
      MinimalMediaBounds(once, carbon, nitrogen) == once
  {
    MinimalMediaLastWins(rs, carbon, nitrogen, carbon, nitrogen);
  }

  // ---------------------------------------------------------------------
  // minimal_media_model

  /** `model.reactions.get_by_id(id)`, by position. */
  function ById(rs: seq<Reaction>, id: string): (r: Result<nat>)
    ensures r.Ok? ==> r.value < |rs| && rs[r.value].id == id
    ensures r.Err? <==> forall k :: 0 <= k < |rs| ==> rs[k].id != id
  {
    if rs == [] then Err(UnknownReaction(id))
    else if rs[0].id == id then Ok(0)
    else
      var r := ById(rs[1..], id);
      if r.Err? then r else Ok(r.value + 1)
  }

  /** `[r.id for r in exchangeReactions if r.name == name][0]`, then
      `get_by_id` of it: the first exchange reaction called `name`. */
  function FirstExchangeNamed(rs: seq<Reaction>, name: string): (r: Result<nat>)
    ensures r.Ok? ==> r.value < |rs|
  {
    var ex := Exchanges(rs);
    var matches := NamedAt(Select(rs, ex), name);
    if matches == [] then Err(IndexOutOfRange)
    else ById(rs, rs[ex[matches[0]]].id)
  }

  /** `get_reaction_from_name(exchangeReactions, name)`, as a position in the model. */
  function ExchangeNamed(rs: seq<Reaction>, name: string): (r: Result<nat>)
    ensures r.Ok? ==> r.value < |rs|
  {
    var ex := Exchanges(rs);
    var k :- GetReactionFromName(Select(rs, ex), name);
    GetReactionFromNameFound(Select(rs, ex), name);
    Ok(ex[k])
  }

  /** The model `minimal_media_model` returns, given the model it loads:
      glucose and ammonium uptake closed, then the chosen source(s) opened. */
  function MinimalMediaModelBounds(rs: seq<Reaction>, carbon: string, nitrogen: string): Result<seq<Reaction>>
  {
    var glucose :- FirstExchangeNamed(rs, "D-glucose exchange");
    var rs1 := WithLowerBound(rs, glucose, 0.0);
    var ammonium :- FirstExchangeNamed(rs, "ammonium exchange");
    var rs2 := WithLowerBound(rs1, ammonium, 0.0);
    if carbon == nitrogen then
      var k :- ExchangeNamed(rs, ExchangeName(carbon));
      Ok(WithLowerBound(rs2, k, SingleSourceUptake))
    else
      var kc :- ExchangeNamed(rs, ExchangeName(carbon));
      var kn :- ExchangeNamed(rs, ExchangeName(nitrogen));
      Ok(WithLowerBound(WithLowerBound(rs2, kc, DualSourceUptake), kn, DualSourceUptake))
  }

  /** `minimal_media_model`, applied to the model it has just read. */
  method MinimalMediaModel(model: Model, carbon: string, nitrogen: string) returns (r: Result<()>)
    modifies model.reactions
    ensures var spec := MinimalMediaModelBounds(old(model.reactions[..]), carbon, nitrogen);
      && (r.Ok? <==> spec.Ok?)
      && (r.Ok? ==> model.reactions[..] == spec.value)
      && (r.Err? ==> r.error == spec.error)
  {
    var rs := model.reactions;
    var loaded := rs[..];
    var glucose := FirstExchangeNamed(loaded, "D-glucose exchange");
    if glucose.Err? {
      return Err(glucose.error);
    }
    rs[glucose.value] := rs[glucose.value].(lowerBound := 0.0);
    var ammonium := FirstExchangeNamed(loaded, "ammonium exchange");
    if ammonium.Err? {
      return Err(ammonium.error);
    }
    rs[ammonium.value] := rs[ammonium.value].(lowerBound := 0.0);
    if carbon == nitrogen {
      var k := ExchangeNamed(loaded, ExchangeName(carbon));
      if k.Err? {
        return Err(k.error);
      }
      rs[k.value] := rs[k.value].(lowerBound := SingleSourceUptake);
    } else {
      var kc := ExchangeNamed(loaded, ExchangeName(carbon));
      if kc.Err? {
        return Err(kc.error);
      }
      rs[kc.value] := rs[kc.value].(lowerBound := DualSourceUptake);
      var kn := ExchangeNamed(loaded, ExchangeName(nitrogen));
      if kn.Err? {
        return Err(kn.error);
      }
      rs[kn.value] := rs[kn.value].(lowerBound := DualSourceUptake);
    }
    r := Ok(());
  }

  lemma ExchangeNamedFound(rs: seq<Reaction>, name: string)
    requires ExchangeNamed(rs, name).Ok?
    ensures var k := ExchangeNamed(rs, name).value;
      rs[k].exchange && rs[k].name == name
  {
    var ex := Exchanges(rs);
    GetReactionFromNameFound(Select(rs, ex), name);
    assert ex[GetReactionFromName(Select(rs, ex), name).value] in ex;
  }

  /** What `minimal_media_model` promises about the sources: they are
      exchange reactions with the expected names, and get -20 (one source)
      or -10 each (two). */
  lemma MinimalMediaModelSources(rs: seq<Reaction>, carbon: string, nitrogen: string)
    requires MinimalMediaModelBounds(rs, carbon, nitrogen).Ok?
    ensures var r := MinimalMediaModelBounds(rs, carbon, nitrogen).value;
      var kc := ExchangeNamed(rs, ExchangeName(carbon)).value;
      var kn := ExchangeNamed(rs, ExchangeName(nitrogen)).value;
      && |r| == |rs|
      && rs[kc].exchange && rs[kc].name == ExchangeName(carbon)
      && rs[kn].exchange && rs[kn].name == ExchangeName(nitrogen)
      && (carbon == nitrogen ==> r[kc].lowerBound == SingleSourceUptake)
      && (carbon != nitrogen ==> r[kc].lowerBound == DualSourceUptake && r[kn].lowerBound == DualSourceUptake)
  {
    ExchangeNamedFound(rs, ExchangeName(carbon));
    ExchangeNamedFound(rs, ExchangeName(nitrogen));
  }

  /** What `minimal_media_model` promises about everything else: glucose and
      ammonium uptake is closed unless one of them is a chosen source, and
      every other reaction is as loaded; only lower bounds change. */
  lemma MinimalMediaModelFrame(rs: seq<Reaction>, carbon: string, nitrogen: string)
    requires MinimalMediaModelBounds(rs, carbon, nitrogen).Ok?
    ensures var r := MinimalMediaModelBounds(rs, carbon, nitrogen).value;
      var g := FirstExchangeNamed(rs, "D-glucose exchange").value;
      var a := FirstExchangeNamed(rs, "ammonium exchange").value;
      var kc := ExchangeNamed(rs, ExchangeName(carbon)).value;
      var kn := ExchangeNamed(rs, ExchangeName(nitrogen)).value;
      && |r| == |rs|
      && (g != kc && g != kn ==> r[g].lowerBound == 0.0)
      && (a != kc && a != kn ==> r[a].lowerBound == 0.0)
      && (forall k :: 0 <= k < |rs| && k != g && k != a && k != kc && k != kn ==> r[k] == rs[k])
      && (forall k :: 0 <= k < |rs| ==> r[k].(lowerBound := rs[k].lowerBound) == rs[k])
  {
    var g := FirstExchangeNamed(rs, "D-glucose exchange").value;
    var a := FirstExchangeNamed(rs, "ammonium exchange").value;
    var kc := ExchangeNamed(rs, ExchangeName(carbon)).value;
    var kn := ExchangeNamed(rs, ExchangeName(nitrogen)).value;
    var rs2 := WithLowerBound(WithLowerBound(rs, g, 0.0), a, 0.0);
    var lb := if carbon == nitrogen then SingleSourceUptake else DualSourceUptake;
    assert MinimalMediaModelBounds(rs, carbon, nitrogen).value ==
      WithLowerBound(WithLowerBound(rs2, kc, lb), kn, lb) by {
      if carbon == nitrogen {
        var once := WithLowerBound(rs2, kc, lb);
        assert WithLowerBound(once, kc, lb) == once;
      }
    }
    CloseThenOpenFrame(rs, g, a, kc, kn, lb);
  }

  /** Closing two reactions and then setting two lower bounds changes only
      those lower bounds. */
  lemma CloseThenOpenFrame(rs: seq<Reaction>, g: nat, a: nat, kc: nat, kn: nat, lb: real)
    requires g < |rs| && a < |rs| && kc < |rs| && kn < |rs|
    ensures var r := WithLowerBound(WithLowerBound(WithLowerBound(WithLowerBound(rs, g, 0.0), a, 0.0), kc, lb), kn, lb);
      && |r| == |rs|
      && (g != kc && g != kn ==> r[g].lowerBound == 0.0)
      && (a != kc && a != kn ==> r[a].lowerBound == 0.0)
      && (forall k :: 0 <= k < |rs| && k != g && k != a && k != kc && k != kn ==> r[k] == rs[k])
      && (forall k :: 0 <= k < |rs| ==> r[k].(lowerBound := rs[k].lowerBound) == rs[k])
  {
  }

  /** No exchange reaction is called `name`. */
  predicate NoExchangeNamed(rs: seq<Reaction>, name: string) {
    forall k :: 0 <= k < |rs| && rs[k].exchange ==> rs[k].name != name
  }

  /** Two exchange reactions are called `name`. */
  predicate TwoExchangesNamed(rs: seq<Reaction>, name: string) {
    exists i, j :: 0 <= i < j < |rs| && rs[i].exchange && rs[j].exchange && rs[i].name == name && rs[j].name == name
  }

  /** No reaction of `rs` is called `name`. */
  predicate NoneNamed(rs: seq<Reaction>, name: string) {
    forall k :: 0 <= k < |rs| ==> rs[k].name != name
  }

  /** Two reactions of `rs` are called `name`. */
  predicate TwoNamed(rs: seq<Reaction>, name: string) {
    exists i, j :: 0 <= i < j < |rs| && rs[i].name == name && rs[j].name == name
  }

  /** The list of exchange reactions has a reaction called `name` exactly
      when the model has an exchange reaction called so. */
  lemma ExchangesNamedNone(rs: seq<Reaction>, name: string)
    ensures NoneNamed(Select(rs, Exchanges(rs)), name) <==> NoExchangeNamed(rs, name)
  {
    var ex := Exchanges(rs);
    var sel := Select(rs, ex);
    if !NoExchangeNamed(rs, name) {
      var k :| 0 <= k < |rs| && rs[k].exchange && rs[k].name == name;
      assert k in ex;
      var p :| 0 <= p < |ex| && ex[p] == k;
      assert sel[p].name == name;
    } else {
      forall i | 0 <= i < |sel| ensures sel[i].name != name {
        assert ex[i] in ex;
      }
    }
  }

  /** It has two reactions called `name` exactly when the model has two
      exchange reactions called so. */
  lemma ExchangesNamedTwo(rs: seq<Reaction>, name: string)
    ensures TwoNamed(Select(rs, Exchanges(rs)), name) <==> TwoExchangesNamed(rs, name)
  {
    var ex := Exchanges(rs);
    var sel := Select(rs, ex);
    if TwoExchangesNamed(rs, name) {
      var i, j :| 0 <= i < j < |rs| && rs[i].exchange && rs[j].exchange && rs[i].name == name && rs[j].name == name;
      assert i in ex && j in ex;
      var p :| 0 <= p < |ex| && ex[p] == i;
      var q :| 0 <= q < |ex| && ex[q] == j;
      assert p < q && sel[p].name == name && sel[q].name == name;
    }
    if TwoNamed(sel, name) {
      var p, q :| 0 <= p < q < |sel| && sel[p].name == name && sel[q].name == name;
      assert ex[p] in ex && ex[q] in ex;
      assert ex[p] < ex[q];
    }
  }

  /** `get_reaction_from_name` on the exchange reactions fails with not-found
      exactly when no exchange reaction has the name, with a duplicate error
      exactly when two have it, and succeeds otherwise. */
  lemma ExchangeNamedFailures(rs: seq<Reaction>, name: string)
    ensures ExchangeNamed(rs, name) == Err(ReactionNotFound(name)) <==> NoExchangeNamed(rs, name)
    ensures ExchangeNamed(rs, name) == Err(DuplicateReactions) <==> TwoExchangesNamed(rs, name)
    ensures ExchangeNamed(rs, name).Ok? <==> !NoExchangeNamed(rs, name) && !TwoExchangesNamed(rs, name)
  {
    GetReactionFromNameFailures(Select(rs, Exchanges(rs)), name);
    ExchangesNamedNone(rs, name);
    ExchangesNamedTwo(rs, name);
  }

  /** The `[... if r.name == name][0]` lookup fails, with an index error,
      exactly when no exchange reaction has the name. */
  lemma FirstExchangeNamedFailures(rs: seq<Reaction>, name: string)
    ensures FirstExchangeNamed(rs, name).Err? <==> NoExchangeNamed(rs, name)
    ensures FirstExchangeNamed(rs, name).Err? ==> FirstExchangeNamed(rs, name) == Err(IndexOutOfRange)
  {
    var ex := Exchanges(rs);
    var sel := Select(rs, ex);
    var matches := NamedAt(sel, name);
    NamedAtNone(sel, name);
    ExchangesNamedNone(rs, name);
    if matches != [] {
      assert matches[0] in matches;
      assert ById(rs, rs[ex[matches[0]]].id).Ok?;
    }
  }

  /** `minimal_media_model` fails exactly when glucose or ammonium uptake,
      or a chosen source, has no exchange reaction, or a source has two;
      and it fails with the error of the first lookup that fails. */
  lemma MinimalMediaModelFailures(rs: seq<Reaction>, carbon: string, nitrogen: string)
    ensures var r := MinimalMediaModelBounds(rs, carbon, nitrogen);
      var g := "D-glucose exchange";
      var a := "ammonium exchange";
      var c := ExchangeName(carbon);
      var n := ExchangeName(nitrogen);
      && (r.Err? <==>
            || NoExchangeNamed(rs, g) || NoExchangeNamed(rs, a)
            || NoExchangeNamed(rs, c) || TwoExchangesNamed(rs, c)
            || NoExchangeNamed(rs, n) || TwoExchangesNamed(rs, n))
      && (NoExchangeNamed(rs, g) ==> r == Err(IndexOutOfRange))
      && (!NoExchangeNamed(rs, g) && NoExchangeNamed(rs, a) ==> r == Err(IndexOutOfRange))
      && (!NoExchangeNamed(rs, g) && !NoExchangeNamed(rs, a) ==>
            && (NoExchangeNamed(rs, c) ==> r == Err(ReactionNotFound(c)))
            && (TwoExchangesNamed(rs, c) ==> r == Err(DuplicateReactions))
            && (!NoExchangeNamed(rs, c) && !TwoExchangesNamed(rs, c) ==>
                  && (NoExchangeNamed(rs, n) ==> r == Err(ReactionNotFound(n)))
                  && (TwoExchangesNamed(rs, n) ==> r == Err(DuplicateReactions))))
  {
    FirstExchangeNamedFailures(rs, "D-glucose exchange");
    FirstExchangeNamedFailures(rs, "ammonium exchange");
    ExchangeNamedFailures(rs, ExchangeName(carbon));
    ExchangeNamedFailures(rs, ExchangeName(nitrogen));
  }

  // ---------------------------------------------------------------------
  // load_sd_minus_his, load_media

  /** The SD medium without histidine (Costanzo et al. 2009). */
  const SdMinusHis: seq<string> :=
    ["biotin", "choline", "myo-inositol", "uracil",
     "L-alanine", "L-arginine", "L-asparagine", "L-aspartate",
     "L-cystein", "glycine", "L-glutamate", "L-glutamine",
     "L-isoleucine", "L-leucine", "L-lysine", "L-methionine",
     "L-phenylalanine", "L-proline", "L-serine", "L-threonine",
     "L-tryptophan", "L-tyrosine", "L-valine"]

  /** YPD: SD minus His plus these. */
  const YpdExtra: seq<string> :=
    ["L-histodine", "riboflavin", "thiamine(1+)", "thymidine", "nicotinate",
     "4-aminobenzoate", "(R)-pantothenate", "pyridoxine"]

  /** The uptake `load_sd_minus_his` and `load_media` allow a listed nutrient. */
  const MediaUptake: real := -10.0

  /** The model after every exchange reaction whose name is in `names` gets
      the lower bound -10. */
  function OpenUptake(rs: seq<Reaction>, names: set<string>): (r: seq<Reaction>)
    ensures |r| == |rs|
  {
    seq(|rs|, k requires 0 <= k < |rs| =>
      if rs[k].exchange && rs[k].name in names then rs[k].(lowerBound := MediaUptake) else rs[k])
  }

  /** Loops over the exchange reactions opening those named in `names`. */
  method OpenUptakeLoop(model: Model, names: set<string>)
    modifies model.reactions
    ensures model.reactions[..] == OpenUptake(old(model.reactions[..]), names)
  {
    var rs := model.reactions;
    ghost var before := rs[..];
    for k := 0 to rs.Length
      invariant forall j :: 0 <= j < k ==> rs[j] == OpenUptake(before, names)[j]
      invariant forall j :: k <= j < rs.Length ==> rs[j] == before[j]
    {
      if rs[k].exchange && rs[k].name in names {
        rs[k] := rs[k].(lowerBound := MediaUptake);
      }
    }
  }

  /** The reaction names `load_sd_minus_his` opens: `<nutrient> exchange`
      for each SD-His nutrient. */
  function SdMinusHisExchanges(): (names: set<string>)
    ensures forall n :: n in SdMinusHis ==> ExchangeName(n) in names
  {
    set n | n in SdMinusHis :: ExchangeName(n)
  }

  /** `load_sd_minus_his`, applied to the model it has just read: it opens
      the `<nutrient> exchange` reactions of the SD-His nutrients. */
  method LoadSdMinusHis(model: Model)
    modifies model.reactions
    ensures model.reactions[..] ==
      OpenUptake(old(model.reactions[..]), SdMinusHisExchanges())
  {
    OpenUptakeLoop(model, SdMinusHisExchanges());
  }

  /** The model `load_media` returns. The set it compares reaction names
      against is the bare SD-His nutrient names whichever medium is chosen;
      the `<nutrient> exchange` set it builds for the chosen medium is unused. */
  function LoadMediaBounds(rs: seq<Reaction>, mediaName: string): Result<seq<Reaction>> {
    if mediaName !in {"sd_minus_his", "ypd"} then Err(MediaNotAvailable(mediaName))
    else Ok(OpenUptake(rs, set n | n in SdMinusHis))
  }

  /** `load_media`, applied to the model it has just read. */
  method LoadMedia(model: Model, mediaName: string) returns (r: Result<()>)
    modifies model.reactions
    ensures var spec := LoadMediaBounds(old(model.reactions[..]), mediaName);
      && (r.Ok? <==> spec.Ok?)
      && (r.Ok? ==> model.reactions[..] == spec.value)
      && (r.Err? ==> r.error == spec.error && model.reactions[..] == old(model.reactions[..]))
  {
    var ypd := set n | n in SdMinusHis + YpdExtra;
    var nutrients := map["sd_minus_his" := set n | n in SdMinusHis, "ypd" := ypd];
    if mediaName !in nutrients {
      return Err(MediaNotAvailable(mediaName));
    }
    OpenUptakeLoop(model, set n | n in SdMinusHis);
    r := Ok(());
  }

  /** `load_media` ignores which medium was chosen. */
  lemma LoadMediaIgnoresChoice(rs: seq<Reaction>)
    ensures LoadMediaBounds(rs, "ypd") == LoadMediaBounds(rs, "sd_minus_his")
    ensures LoadMediaBounds(rs, "ypd").Ok?
  {
  }

  /** An exchange reaction named `biotin exchange` is opened by
      `load_sd_minus_his` and left closed by `load_media`. */
  lemma LoadMediaMissesExchangeNames(r: Reaction)
    requires r.exchange && r.name == "biotin exchange" && r.lowerBound == 0.0
    ensures OpenUptake([r], SdMinusHisExchanges())[0].lowerBound == -10.0
    ensures LoadMediaBounds([r], "ypd").value[0].lowerBound == 0.0
  {
    assert ExchangeName("biotin") == "biotin exchange";
    assert "biotin" in SdMinusHis;
    assert r.name !in set n | n in SdMinusHis by {
      assert r.name[6] == ' ';
      forall n | n in SdMinusHis ensures n != r.name {
        assert |n| != 15 || n[6] != ' ';
      }
    }
  }

  /** The nutrients of each medium `load_media` offers. */
  function MediaNutrients(mediaName: string): Option<seq<string>> {
    if mediaName == "sd_minus_his" then Some(SdMinusHis)
    else if mediaName == "ypd" then Some(SdMinusHis + YpdExtra)
    else None
  }

  /** `load_media` as its `nutrientRxns` set shows it was meant to work:
      open the `<nutrient> exchange` reaction of every nutrient of the chosen
      medium. */
  function IntendedMediaBounds(rs: seq<Reaction>, mediaName: string): (r: Result<seq<Reaction>>)
    ensures r.Ok? <==> mediaName == "sd_minus_his" || mediaName == "ypd"
    ensures r.Err? ==> r.error == MediaNotAvailable(mediaName)
  {
    match MediaNutrients(mediaName)
    case None => Err(MediaNotAvailable(mediaName))
    case Some(nutrients) => Ok(OpenUptake(rs, set n | n in nutrients :: ExchangeName(n)))
  }

  /** The exchange reaction of a nutrient of the chosen medium `n` gets
      uptake -10; every other reaction is left as loaded. */
  lemma IntendedMediaOpensNutrients(rs: seq<Reaction>, mediaName: string, k: nat)
    requires IntendedMediaBounds(rs, mediaName).Ok? && k < |rs|
    ensures var r := IntendedMediaBounds(rs, mediaName).value;
      var nutrients := MediaNutrients(mediaName).value;
      && |r| == |rs|
      && (rs[k].exchange && (exists n :: n in nutrients && rs[k].name == ExchangeName(n)) ==>
            r[k] == rs[k].(lowerBound := MediaUptake))
      && (!rs[k].exchange || (forall n :: n in nutrients ==> rs[k].name != ExchangeName(n)) ==>
            r[k] == rs[k])
  {
  }

  /** Choosing SD minus His opens what `load_sd_minus_his` opens, and YPD
      opens every reaction SD minus His opens. */
  lemma IntendedMediaAgreesWithSdMinusHis(rs: seq<Reaction>, k: nat)
    requires k < |rs|
    ensures IntendedMediaBounds(rs, "sd_minus_his") == Ok(OpenUptake(rs, SdMinusHisExchanges()))
    ensures OpenUptake(rs, SdMinusHisExchanges())[k].lowerBound == MediaUptake && rs[k].lowerBound != MediaUptake ==>
      IntendedMediaBounds(rs, "ypd").value[k].lowerBound == MediaUptake
  {
    var sd := SdMinusHisExchanges();
    var ypd := set n | n in SdMinusHis + YpdExtra :: ExchangeName(n);
    assert sd <= ypd;
  }
}
