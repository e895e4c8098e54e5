/** What `generate_minizinc` (src/main.rs) writes, as structured statements: which
    variables, constraints, objective and output directive a program and a target give,
    with every linear expression kept as a list of terms over reaction indices. The
    text of each statement is in module Render. */
module Compile {
  import opened Strings
  import opened Ast

  /** Which side of a reaction a symbol is looked up on. */
  datatype Side = Inputs | Outputs

  function SideOf(r: Reaction, side: Side): Terms {
    match side
    case Inputs => r.inputs
    case Outputs => r.outputs
  }

  /** Whether reaction `r` has symbol `s` on the given side. */
  predicate Uses(r: Reaction, side: Side, s: Symbol) {
    s in AsMap(SideOf(r, side))
  }

  /** How a term is scaled: divided by the reaction's cost (constraints), or multiplied
      by a resource's weight (the resource objective). */
  datatype Scale = PerCost | Weight(w: nat)

  /** One summand of a linear expression over the reaction variables:
      `mult * var(reaction) / cost` or `mult * var(reaction) * weight`. */
  datatype LinTerm =
    | Rate(mult: nat, reaction: nat, cost: int)
    | Weighted(mult: nat, reaction: nat, weight: nat)

  function MakeTerm(scale: Scale, mult: nat, i: nat, r: Reaction): LinTerm {
    match scale
    case PerCost => Rate(mult, i, r.cost.value)
    case Weight(w) => Weighted(mult, i, w)
  }

  predicate TermsIndexed(ts: seq<LinTerm>, n: nat) {
    forall i :: 0 <= i < |ts| ==> ts[i].reaction < n
  }

  /** The terms symbol `s` receives from the reactions on one side: one for each reaction
      whose `side` holds `s`, in reaction order, carrying that reaction's multiplicity
      of `s`. */
  function Contributions(rs: seq<Reaction>, s: Symbol, side: Side, scale: Scale): (c: seq<LinTerm>)
    ensures TermsIndexed(c, |rs|)
    decreases |rs|
  {
    if |rs| == 0 then []
    else
      var k := |rs| - 1;
      Contributions(rs[..k], s, side, scale)
        + match Get(SideOf(rs[k], side), s)
          case Some(m) => [MakeTerm(scale, m, k, rs[k])]
          case None => []
  }

  /** Contributions of a longer reaction list extend those of its prefix. */
  lemma ContributionsStep(rs: seq<Reaction>, s: Symbol, side: Side, scale: Scale)
    requires |rs| > 0
    ensures var k := |rs| - 1;
      Contributions(rs, s, side, scale) == Contributions(rs[..k], s, side, scale)
        + (if Uses(rs[k], side, s) then [MakeTerm(scale, AsMap(SideOf(rs[k], side))[s], k, rs[k])] else [])
  {
  }

  /** The contributions of the first `i + 1` reactions: those of the first `i`, then the
      term of reaction `i` if its side holds `s`. */
  lemma ContributionsNext(rs: seq<Reaction>, i: nat, s: Symbol, side: Side, scale: Scale)
    requires i < |rs|
    ensures Contributions(rs[..i + 1], s, side, scale) == Contributions(rs[..i], s, side, scale)
      + match Get(SideOf(rs[i], side), s)
        case Some(m) => [MakeTerm(scale, m, i, rs[i])]
        case None => []
  {
    assert rs[..i + 1][..i] == rs[..i];
    assert rs[..i + 1][i] == rs[i];
  }

  /** Term `t` is what reaction `t.reaction` of `rs` gives symbol `s` on `side`. */
  predicate FromReaction(rs: seq<Reaction>, s: Symbol, side: Side, scale: Scale, t: LinTerm) {
    t.reaction < |rs| && Uses(rs[t.reaction], side, s)
    && t == MakeTerm(scale, AsMap(SideOf(rs[t.reaction], side))[s], t.reaction, rs[t.reaction])
  }

  lemma FromReactionExtends(rs: seq<Reaction>, k: nat, s: Symbol, side: Side, scale: Scale, t: LinTerm)
    requires k <= |rs| && FromReaction(rs[..k], s, side, scale, t)
    ensures FromReaction(rs, s, side, scale, t)
  {
    assert rs[..k][t.reaction] == rs[t.reaction];
  }

  /** Every term for `s` comes from a reaction that has `s` on that side, and carries that
      reaction's multiplicity of `s` and its cost or the weight. */
  lemma ContributionsSound(rs: seq<Reaction>, s: Symbol, side: Side, scale: Scale)
    ensures forall t :: t in Contributions(rs, s, side, scale) ==> FromReaction(rs, s, side, scale, t)
  {
    forall t | t in Contributions(rs, s, side, scale)
      ensures FromReaction(rs, s, side, scale, t)
    {
      ContributionFrom(rs, s, side, scale, t);
    }
  }

  lemma {:induction false} ContributionFrom(rs: seq<Reaction>, s: Symbol, side: Side, scale: Scale, t: LinTerm)
    requires t in Contributions(rs, s, side, scale)
    ensures FromReaction(rs, s, side, scale, t)
    decreases |rs|
  {
    var k := |rs| - 1;
    ContributionsStep(rs, s, side, scale);
    var front := Contributions(rs[..k], s, side, scale);
    var last := if Uses(rs[k], side, s) then [MakeTerm(scale, AsMap(SideOf(rs[k], side))[s], k, rs[k])] else [];
    assert Contributions(rs, s, side, scale) == front + last;
    if t in front {
      ContributionFrom(rs[..k], s, side, scale, t);
      FromReactionExtends(rs, k, s, side, scale, t);
    } else {
      assert t in last;
    }
  }

  /** The terms for `s` follow reaction order, one reaction at most once. */
  lemma {:induction false} ContributionsOrdered(rs: seq<Reaction>, s: Symbol, side: Side, scale: Scale)
    ensures var c := Contributions(rs, s, side, scale);
      forall j, j' :: 0 <= j < j' < |c| ==> c[j].reaction < c[j'].reaction
    decreases |rs|
  {
    if |rs| > 0 {
      var k := |rs| - 1;
      ContributionsOrdered(rs[..k], s, side, scale);
      ContributionsStep(rs, s, side, scale);
    }
  }

  /** Reaction `i`, when it has `s` on that side, gives its term for `s`. */
  lemma {:induction false} ContributionOf(rs: seq<Reaction>, i: nat, s: Symbol, side: Side, scale: Scale)
    requires i < |rs| && Uses(rs[i], side, s)
    ensures MakeTerm(scale, AsMap(SideOf(rs[i], side))[s], i, rs[i]) in Contributions(rs, s, side, scale)
    decreases |rs|
  {
    var k := |rs| - 1;
    var t := MakeTerm(scale, AsMap(SideOf(rs[i], side))[s], i, rs[i]);
    ContributionsStep(rs, s, side, scale);
    var front := Contributions(rs[..k], s, side, scale);
    var last := if Uses(rs[k], side, s) then [MakeTerm(scale, AsMap(SideOf(rs[k], side))[s], k, rs[k])] else [];
    assert Contributions(rs, s, side, scale) == front + last;
    if i < k {
      assert rs[..k][i] == rs[i];
      ContributionOf(rs[..k], i, s, side, scale);
      assert t in front;
    } else {
      assert last == [t];
    }
  }

  /** Every reaction that has `s` on that side gives a term for `s`. */
  lemma ContributionsComplete(rs: seq<Reaction>, s: Symbol, side: Side, scale: Scale)
    ensures forall i :: 0 <= i < |rs| && Uses(rs[i], side, s) ==>
      MakeTerm(scale, AsMap(SideOf(rs[i], side))[s], i, rs[i]) in Contributions(rs, s, side, scale)
  {
    forall i | 0 <= i < |rs| && Uses(rs[i], side, s)
      ensures MakeTerm(scale, AsMap(SideOf(rs[i], side))[s], i, rs[i]) in Contributions(rs, s, side, scale)
    {
      ContributionOf(rs, i, s, side, scale);
    }
  }

  /** The terms for `s` come from exactly the reactions that have `s` on that side, once
      each, in reaction order, each with its multiplicity and its cost or weight. */
  lemma ContributionsExact(rs: seq<Reaction>, s: Symbol, side: Side, scale: Scale)
    ensures var c := Contributions(rs, s, side, scale);
      && (forall t :: t in c ==> FromReaction(rs, s, side, scale, t))
      && (forall j, j' :: 0 <= j < j' < |c| ==> c[j].reaction < c[j'].reaction)
      && (forall i :: 0 <= i < |rs| && Uses(rs[i], side, s) ==>
            MakeTerm(scale, AsMap(SideOf(rs[i], side))[s], i, rs[i]) in c)
  {
    ContributionsSound(rs, s, side, scale);
    ContributionsOrdered(rs, s, side, scale);
    ContributionsComplete(rs, s, side, scale);
  }

  /** A term is among the contributions for `s` exactly when it is what some reaction
      gives `s` on that side. */
  lemma ContributionsIff(rs: seq<Reaction>, s: Symbol, side: Side, scale: Scale)
    ensures forall t :: t in Contributions(rs, s, side, scale) <==> FromReaction(rs, s, side, scale, t)
  {
    ContributionsExact(rs, s, side, scale);
  }

  /** Every symbol on either side of any reaction (the `symbols` set). */
  function AllSymbols(rs: seq<Reaction>): set<Symbol>
    decreases |rs|
  {
    if |rs| == 0 then {}
    else
      var k := |rs| - 1;
      AllSymbols(rs[..k]) + AsMap(rs[k].inputs).Keys + AsMap(rs[k].outputs).Keys
  }

  /** A symbol on either side of reaction `i` is in the set. */
  lemma {:induction false} AllSymbolsHas(rs: seq<Reaction>, i: nat, s: Symbol)
    requires i < |rs| && (Uses(rs[i], Inputs, s) || Uses(rs[i], Outputs, s))
    ensures s in AllSymbols(rs)
    decreases |rs|
  {
    var k := |rs| - 1;
    var newer := AsMap(rs[k].inputs).Keys + AsMap(rs[k].outputs).Keys;
    assert AllSymbols(rs) == AllSymbols(rs[..k]) + newer;
    if i < k {
      assert rs[..k][i] == rs[i];
      AllSymbolsHas(rs[..k], i, s);
    } else {
      assert SideOf(rs[k], Inputs) == rs[k].inputs && SideOf(rs[k], Outputs) == rs[k].outputs;
      assert s in newer;
    }
  }

  /** Every symbol of the set is on some side of some reaction. */
  lemma {:induction false} AllSymbolsFrom(rs: seq<Reaction>, s: Symbol) returns (i: nat)
    requires s in AllSymbols(rs)
    ensures i < |rs| && (Uses(rs[i], Inputs, s) || Uses(rs[i], Outputs, s))
    decreases |rs|
  {
    var k := |rs| - 1;
    if s in AllSymbols(rs[..k]) {
      i := AllSymbolsFrom(rs[..k], s);
      assert rs[..k][i] == rs[i];
    } else {
      i := k;
    }
  }

  /** A symbol is in the set exactly when some reaction has it as an input or an output. */
  lemma AllSymbolsExact(rs: seq<Reaction>, s: Symbol)
    ensures s in AllSymbols(rs) <==> exists i :: 0 <= i < |rs| && (Uses(rs[i], Inputs, s) || Uses(rs[i], Outputs, s))
  {
    if s in AllSymbols(rs) {
      var i := AllSymbolsFrom(rs, s);
    }
    if i :| 0 <= i < |rs| && (Uses(rs[i], Inputs, s) || Uses(rs[i], Outputs, s)) {
      AllSymbolsHas(rs, i, s);
    }
  }

  /** Whether `s` is spared a balance constraint: a free input of the target, or, under a
      resource goal, one of the resources being minimised. */
  predicate Exempt(goal: Goal, inputs: seq<Symbol>, s: Symbol) {
    match goal
    case Reactions => s in inputs
    case Resources(rt) => s in inputs || s in AsMap(rt)
  }

  /** The symbols that get a balance constraint. */
  function BalanceSet(rs: seq<Reaction>, goal: Goal, inputs: seq<Symbol>): set<Symbol> {
    set s | s in AllSymbols(rs) && !Exempt(goal, inputs, s)
  }

  /** A resource goal exempts exactly its weighted symbols on top of what a reactions goal
      exempts, which is the free inputs alone. */
  lemma BalanceSetByGoal(rs: seq<Reaction>, rt: Terms, inputs: seq<Symbol>)
    ensures BalanceSet(rs, Reactions, inputs) == AllSymbols(rs) - set s | s in inputs
    ensures BalanceSet(rs, Resources(rt), inputs) == BalanceSet(rs, Reactions, inputs) - AsMap(rt).Keys
  {
  }

  predicate Distinct<T(==)>(xs: seq<T>) {
    forall i, j :: 0 <= i < j < |xs| ==> xs[i] != xs[j]
  }

  /** `order` lists every element of `s` once: one way of iterating a `HashSet`. */
  ghost predicate IsEnumeration(order: seq<Symbol>, s: set<Symbol>) {
    Distinct(order) && forall x :: x in order <==> x in s
  }

  /** The symbols of `order` that are not exempt, in order (the loop's `continue`). */
  function Kept(goal: Goal, inputs: seq<Symbol>, order: seq<Symbol>): seq<Symbol>
    decreases |order|
  {
    if |order| == 0 then []
    else
      var k := |order| - 1;
      Kept(goal, inputs, order[..k]) + (if Exempt(goal, inputs, order[k]) then [] else [order[k]])
  }

  /** Filtering keeps exactly the non-exempt symbols of the order, each once. */
  lemma {:induction false} KeptExact(goal: Goal, inputs: seq<Symbol>, order: seq<Symbol>)
    requires Distinct(order)
    ensures Distinct(Kept(goal, inputs, order))
    ensures forall s :: s in Kept(goal, inputs, order) <==> s in order && !Exempt(goal, inputs, s)
    decreases |order|
  {
    if |order| > 0 {
      var k := |order| - 1;
      var front := order[..k];
      assert Distinct(front);
      KeptExact(goal, inputs, front);
      assert order == front + [order[k]];
      assert order[k] !in front;
    }
  }

  /** A line of the generated model. */
  datatype Statement =
    | Comment(text: string)
    | Blank
    | VarDecl(reaction: nat)
    | NonNegative(reaction: nat)
    | AtLeast(symbol: Symbol, production: seq<LinTerm>, consumption: seq<LinTerm>, amount: nat, inTime: nat)
    | Balanced(symbol: Symbol, production: seq<LinTerm>, consumption: seq<LinTerm>)
    | MinimizeDraw(consumption: seq<LinTerm>, production: seq<LinTerm>)
    | MinimizeActivity(reactions: seq<nat>)
    | Output(entries: seq<OutputEntry>)

  /** One reaction's part of the output directive: its index, its shown name, and the
      width that name is padded to. */
  datatype OutputEntry = OutputEntry(reaction: nat, name: string, width: nat)

  /** Every reaction index a statement mentions is below `n`. */
  predicate Indexed(st: Statement, n: nat) {
    match st
    case VarDecl(i) => i < n
    case NonNegative(i) => i < n
    case AtLeast(_, p, c, _, _) => TermsIndexed(p, n) && TermsIndexed(c, n)
    case Balanced(_, p, c) => TermsIndexed(p, n) && TermsIndexed(c, n)
    case MinimizeDraw(c, p) => TermsIndexed(c, n) && TermsIndexed(p, n)
    case MinimizeActivity(ids) => forall i :: i in ids ==> i < n
    case Output(es) => forall e :: e in es ==> e.reaction < n
    case _ => true
  }

  predicate AllIndexed(stmts: seq<Statement>, n: nat) {
    forall st :: st in stmts ==> Indexed(st, n)
  }

  /** The target constraint for `s`: net production at least `amount / inTime`. */
  function TargetConstraint(rs: seq<Reaction>, s: Symbol, amount: nat, inTime: nat): Statement {
    AtLeast(s, Contributions(rs, s, Outputs, PerCost), Contributions(rs, s, Inputs, PerCost), amount, inTime)
  }

  /** The balance constraint for `s`: production at least consumption. */
  function BalanceConstraint(rs: seq<Reaction>, s: Symbol): Statement {
    Balanced(s, Contributions(rs, s, Outputs, PerCost), Contributions(rs, s, Inputs, PerCost))
  }

  /** The target constraint for `s`: production terms from exactly the reactions whose
      outputs hold `s`, consumption terms from exactly those whose inputs hold it, each
      as (multiplicity, reaction, cost) and each reaction once in reaction order; and
      `amount / inTime` as the bound. */
  lemma TargetConstraintExact(rs: seq<Reaction>, s: Symbol, amount: nat, inTime: nat)
    ensures var st := TargetConstraint(rs, s, amount, inTime);
      && st.AtLeast? && st.symbol == s && st.amount == amount && st.inTime == inTime
      && (forall t :: t in st.production <==> FromReaction(rs, s, Outputs, PerCost, t))
      && (forall t :: t in st.consumption <==> FromReaction(rs, s, Inputs, PerCost, t))
      && (forall j, j' :: 0 <= j < j' < |st.production| ==> st.production[j].reaction < st.production[j'].reaction)
      && (forall j, j' :: 0 <= j < j' < |st.consumption| ==> st.consumption[j].reaction < st.consumption[j'].reaction)
  {
    ContributionsIff(rs, s, Outputs, PerCost);
    ContributionsIff(rs, s, Inputs, PerCost);
    ContributionsOrdered(rs, s, Outputs, PerCost);
    ContributionsOrdered(rs, s, Inputs, PerCost);
    var st := TargetConstraint(rs, s, amount, inTime);
    assert st.production == Contributions(rs, s, Outputs, PerCost);
    assert st.consumption == Contributions(rs, s, Inputs, PerCost);
  }

  /** The balance constraint for `s`: the same production and consumption terms, with
      production required to cover consumption. */
  lemma BalanceConstraintExact(rs: seq<Reaction>, s: Symbol)
    ensures var st := BalanceConstraint(rs, s);
      && st.Balanced? && st.symbol == s
      && (forall t :: t in st.production <==> FromReaction(rs, s, Outputs, PerCost, t))
      && (forall t :: t in st.consumption <==> FromReaction(rs, s, Inputs, PerCost, t))
  {
    ContributionsIff(rs, s, Outputs, PerCost);
    ContributionsIff(rs, s, Inputs, PerCost);
  }

  /** The weighted terms of the resource objective on one side: for each weighted symbol
      in iteration order, its contributions scaled by its weight. */
  function WeightedTerms(rs: seq<Reaction>, weights: seq<(Symbol, nat)>, side: Side): (c: seq<LinTerm>)
    ensures TermsIndexed(c, |rs|)
    decreases |weights|
  {
    if |weights| == 0 then []
    else
      var k := |weights| - 1;
      WeightedTerms(rs, weights[..k], side) + Contributions(rs, weights[k].0, side, Weight(weights[k].1))
  }

  /** The weighted terms of two runs of weights, one after the other, are those of the
      first run followed by those of the second. */
  lemma {:induction false} WeightedTermsConcat(rs: seq<Reaction>, a: seq<(Symbol, nat)>, b: seq<(Symbol, nat)>, side: Side)
    ensures WeightedTerms(rs, a + b, side) == WeightedTerms(rs, a, side) + WeightedTerms(rs, b, side)
    decreases |b|
  {
    if |b| == 0 {
      assert a + b == a;
    } else {
      var k := |b| - 1;
      WeightedTermsConcat(rs, a, b[..k], side);
      SnocSplit(a, b);
      WeightedTermsSnoc(rs, a + b[..k], b[k], side);
      WeightedTermsSnoc(rs, b[..k], b[k], side);
      var block := Contributions(rs, b[k].0, side, Weight(b[k].1));
      BlockAppended(WeightedTerms(rs, a + b, side), WeightedTerms(rs, a + b[..k], side), WeightedTerms(rs, a, side),
        WeightedTerms(rs, b[..k], side), WeightedTerms(rs, b, side), block);
    }
  }

  lemma SnocSplit<T>(a: seq<T>, b: seq<T>)
    requires |b| > 0
    ensures a + b == (a + b[..|b| - 1]) + [b[|b| - 1]] && b == b[..|b| - 1] + [b[|b| - 1]]
  {
  }

  lemma WeightedTermsSnoc(rs: seq<Reaction>, front: seq<(Symbol, nat)>, x: (Symbol, nat), side: Side)
    ensures WeightedTerms(rs, front + [x], side) == WeightedTerms(rs, front, side) + Contributions(rs, x.0, side, Weight(x.1))
  {
    assert (front + [x])[..|front|] == front;
  }

  lemma BlockAppended(whole: seq<LinTerm>, front: seq<LinTerm>, p: seq<LinTerm>, q: seq<LinTerm>,
                      tail: seq<LinTerm>, block: seq<LinTerm>)
    requires whole == front + block && front == p + q && tail == q + block
    ensures whole == p + tail
  {
  }

  /** The weighted terms are, in weight order, one block per weighted symbol: the block of
      `weights[w]` is that symbol's contributions scaled by its weight, preceded by the
      blocks of the earlier weights and followed by those of the later ones. With
      `ContributionsExact`, every (weighted symbol, reaction using it) pair gives exactly
      one term, even when two pairs give equal terms. */
  lemma WeightedTermsBlocks(rs: seq<Reaction>, weights: seq<(Symbol, nat)>, side: Side, w: nat)
    requires w < |weights|
    ensures WeightedTerms(rs, weights, side)
      == WeightedTerms(rs, weights[..w], side)
         + Contributions(rs, weights[w].0, side, Weight(weights[w].1))
         + WeightedTerms(rs, weights[w + 1..], side)
  {
    var one := [weights[w]];
    assert weights == weights[..w] + one + weights[w + 1..];
    WeightedTermsConcat(rs, weights[..w] + one, weights[w + 1..], side);
    WeightedTermsConcat(rs, weights[..w], one, side);
    assert one[..0] == [];
  }

  /** Each weighted term is a reaction that has a weighted symbol on that side, with that
      symbol's multiplicity and weight; and every such pair gives a term. */
  lemma WeightedTermsExact(rs: seq<Reaction>, weights: seq<(Symbol, nat)>, side: Side)
    ensures var c := WeightedTerms(rs, weights, side);
      && (forall t :: t in c ==>
            t.Weighted? && t.reaction < |rs|
            && (exists w :: 0 <= w < |weights| && Uses(rs[t.reaction], side, weights[w].0)
                 && t == Weighted(AsMap(SideOf(rs[t.reaction], side))[weights[w].0], t.reaction, weights[w].1)))
      && (forall w, i :: 0 <= w < |weights| && 0 <= i < |rs| && Uses(rs[i], side, weights[w].0) ==>
            Weighted(AsMap(SideOf(rs[i], side))[weights[w].0], i, weights[w].1) in c)
  {
    WeightedTermsSound(rs, weights, side);
    forall w, i | 0 <= w < |weights| && 0 <= i < |rs| && Uses(rs[i], side, weights[w].0)
      ensures Weighted(AsMap(SideOf(rs[i], side))[weights[w].0], i, weights[w].1) in WeightedTerms(rs, weights, side)
    {
      WeightedTermOf(rs, weights, side, w, i);
    }
  }

  /** Every weighted term is what some weighted resource gets from one reaction. */
  lemma {:induction false} WeightedTermsSound(rs: seq<Reaction>, weights: seq<(Symbol, nat)>, side: Side)
    ensures forall t :: t in WeightedTerms(rs, weights, side) ==> WeightedFrom(rs, weights, side, t)
    decreases |weights|
  {
    if |weights| > 0 {
      var k := |weights| - 1;
      var front := weights[..k];
      var (s, weight) := weights[k];
      WeightedTermsSound(rs, front, side);
      ContributionsSound(rs, s, side, Weight(weight));
      forall t | t in WeightedTerms(rs, weights, side)
        ensures WeightedFrom(rs, weights, side, t)
      {
        if t in WeightedTerms(rs, front, side) {
          var w :| 0 <= w < k && Uses(rs[t.reaction], side, front[w].0)
            && t == Weighted(AsMap(SideOf(rs[t.reaction], side))[front[w].0], t.reaction, front[w].1);
          assert front[w] == weights[w];
        } else {
          assert FromReaction(rs, s, side, Weight(weight), t);
          assert Uses(rs[t.reaction], side, weights[k].0);
        }
      }
    }
  }

  /** Reaction `i`, when it has weighted resource `w` on that side, gives a weighted term. */
  lemma WeightedTermOf(rs: seq<Reaction>, weights: seq<(Symbol, nat)>, side: Side, w: nat, i: nat)
    requires w < |weights| && i < |rs| && Uses(rs[i], side, weights[w].0)
    ensures Weighted(AsMap(SideOf(rs[i], side))[weights[w].0], i, weights[w].1) in WeightedTerms(rs, weights, side)
  {
    ContributionOf(rs, i, weights[w].0, side, Weight(weights[w].1));
    InWeightedTerms(rs, weights, side, w, MakeTerm(Weight(weights[w].1), AsMap(SideOf(rs[i], side))[weights[w].0], i, rs[i]));
  }

  /** Every contribution of a weighted resource is a weighted term. */
  lemma InWeightedTerms(rs: seq<Reaction>, weights: seq<(Symbol, nat)>, side: Side, w: nat, t: LinTerm)
    requires w < |weights| && t in Contributions(rs, weights[w].0, side, Weight(weights[w].1))
    ensures t in WeightedTerms(rs, weights, side)
  {
    var upTo := weights[..w + 1];
    assert upTo[..w] == weights[..w] && upTo[w] == weights[w];
    assert WeightedTerms(rs, upTo, side)
      == WeightedTerms(rs, weights[..w], side) + Contributions(rs, weights[w].0, side, Weight(weights[w].1));
    WeightedTermsGrow(rs, weights, side, w + 1);
  }

  /** The terms of a prefix of the weights are among the terms of all of them. */
  lemma {:induction false} WeightedTermsGrow(rs: seq<Reaction>, weights: seq<(Symbol, nat)>, side: Side, j: nat)
    requires j <= |weights|
    ensures forall t :: t in WeightedTerms(rs, weights[..j], side) ==> t in WeightedTerms(rs, weights, side)
    decreases |weights|
  {
    if j < |weights| {
      var k := |weights| - 1;
      assert weights[..k][..j] == weights[..j];
      WeightedTermsGrow(rs, weights[..k], side, j);
      var front := WeightedTerms(rs, weights[..k], side);
      assert WeightedTerms(rs, weights, side) == front + Contributions(rs, weights[k].0, side, Weight(weights[k].1));
    } else {
      assert weights[..j] == weights;
    }
  }

  /** The one objective: weighted consumption minus weighted production of the goal's
      resources, or the sum of all reaction variables in reaction order. */
  function Objective(rs: seq<Reaction>, goal: Goal): Statement {
    match goal
    case Resources(rt) => MinimizeDraw(WeightedTerms(rs, rt, Inputs), WeightedTerms(rs, rt, Outputs))
    case Reactions => MinimizeActivity(seq(|rs|, i => i))
  }

  /** Term `t` is what some weighted resource gets from one reaction on `side`: that
      reaction's multiplicity of the resource, times the resource's weight. */
  ghost predicate WeightedFrom(rs: seq<Reaction>, weights: seq<(Symbol, nat)>, side: Side, t: LinTerm) {
    t.Weighted? && t.reaction < |rs|
    && exists w :: 0 <= w < |weights| && Uses(rs[t.reaction], side, weights[w].0)
         && t == Weighted(AsMap(SideOf(rs[t.reaction], side))[weights[w].0], t.reaction, weights[w].1)
  }

  /** The objective of a reactions goal sums every reaction's variable once, in reaction
      order; that of a resource goal has as consumption exactly the weighted input terms
      and as production exactly the weighted output terms of its resources. */
  lemma ObjectiveExact(rs: seq<Reaction>, goal: Goal)
    ensures goal.Reactions? ==> var o := Objective(rs, goal);
      o.MinimizeActivity? && |o.reactions| == |rs| && forall i :: 0 <= i < |rs| ==> o.reactions[i] == i
    ensures goal.Resources? ==> var o := Objective(rs, goal);
      && o.MinimizeDraw?
      && (forall t :: t in o.consumption <==> WeightedFrom(rs, goal.weights, Inputs, t))
      && (forall t :: t in o.production <==> WeightedFrom(rs, goal.weights, Outputs, t))
    ensures goal.Resources? ==> var o := Objective(rs, goal); var ws := goal.weights;
      forall w :: 0 <= w < |ws| ==>
        && o.consumption == WeightedTerms(rs, ws[..w], Inputs) + Contributions(rs, ws[w].0, Inputs, Weight(ws[w].1))
             + WeightedTerms(rs, ws[w + 1..], Inputs)
        && o.production == WeightedTerms(rs, ws[..w], Outputs) + Contributions(rs, ws[w].0, Outputs, Weight(ws[w].1))
             + WeightedTerms(rs, ws[w + 1..], Outputs)
  {
    if goal.Resources? {
      WeightedTermsIff(rs, goal.weights, Inputs);
      WeightedTermsIff(rs, goal.weights, Outputs);
      forall w | 0 <= w < |goal.weights|
        ensures && WeightedTerms(rs, goal.weights, Inputs)
                     == WeightedTerms(rs, goal.weights[..w], Inputs)
                        + Contributions(rs, goal.weights[w].0, Inputs, Weight(goal.weights[w].1))
                        + WeightedTerms(rs, goal.weights[w + 1..], Inputs)
                && WeightedTerms(rs, goal.weights, Outputs)
                     == WeightedTerms(rs, goal.weights[..w], Outputs)
                        + Contributions(rs, goal.weights[w].0, Outputs, Weight(goal.weights[w].1))
                        + WeightedTerms(rs, goal.weights[w + 1..], Outputs)
      {
        WeightedTermsBlocks(rs, goal.weights, Inputs, w);
        WeightedTermsBlocks(rs, goal.weights, Outputs, w);
      }
    }
  }

  lemma WeightedTermsIff(rs: seq<Reaction>, weights: seq<(Symbol, nat)>, side: Side)
    ensures forall t :: t in WeightedTerms(rs, weights, side) <==> WeightedFrom(rs, weights, side, t)
  {
    WeightedTermsExact(rs, weights, side);
    forall t | WeightedFrom(rs, weights, side, t)
      ensures t in WeightedTerms(rs, weights, side)
    {
      var w :| 0 <= w < |weights| && Uses(rs[t.reaction], side, weights[w].0)
         && t == Weighted(AsMap(SideOf(rs[t.reaction], side))[weights[w].0], t.reaction, weights[w].1);
    }
  }

  /** The name a reaction is shown by in the solver's output: its label, else its identifier. */
  function DisplayName(r: Reaction): string {
    match r.labelText
    case Some(l) => l
    case None => VarName(r)
  }

  /** `max_width`: the longest shown name, in characters, or 0 without reactions. */
  function MaxWidth(rs: seq<Reaction>): (w: nat)
    ensures forall i :: 0 <= i < |rs| ==> |DisplayName(rs[i])| <= w
    ensures |rs| == 0 ==> w == 0
    ensures |rs| > 0 ==> exists i :: 0 <= i < |rs| && |DisplayName(rs[i])| == w
    decreases |rs|
  {
    if |rs| == 0 then 0
    else
      var k := |rs| - 1;
      var front := MaxWidth(rs[..k]);
      assert forall i :: 0 <= i < k ==> rs[..k][i] == rs[i];
      if |DisplayName(rs[k])| > front then |DisplayName(rs[k])| else front
  }

  /** One output entry per reaction, in reaction order, all padded to the same width. */
  function OutputEntries(rs: seq<Reaction>): seq<OutputEntry> {
    seq(|rs|, i requires 0 <= i < |rs| => OutputEntry(i, DisplayName(rs[i]), MaxWidth(rs)))
  }

  /** Every shown name, once padded, is exactly as wide as the widest one, and starts with
      the name itself: the output lines up in one column. */
  lemma OutputAligned(rs: seq<Reaction>)
    ensures forall i :: 0 <= i < |rs| ==>
      var e := OutputEntries(rs)[i];
      |PadRight(e.name, e.width)| == MaxWidth(rs) && PadRight(e.name, e.width)[..|e.name|] == DisplayName(rs[i])
  {
  }

  function EchoSection(input: string): (sec: seq<Statement>)
    ensures AllIndexed(sec, 0)
  {
    var ls := SourceLines(input);
    seq(|ls|, i requires 0 <= i < |ls| => Comment(ls[i]))
  }

  function VariableSection(rs: seq<Reaction>): (sec: seq<Statement>)
    ensures AllIndexed(sec, |rs|)
  {
    [Blank, Comment("variables")] + seq(|rs|, i requires 0 <= i < |rs| => VarDecl(i))
  }

  function NonNegativeSection(rs: seq<Reaction>): (sec: seq<Statement>)
    ensures AllIndexed(sec, |rs|)
  {
    [Blank, Comment("non-negative constraints")] + seq(|rs|, i requires 0 <= i < |rs| => NonNegative(i))
  }

  function TargetSection(rs: seq<Reaction>, target: Target): (sec: seq<Statement>)
    ensures AllIndexed(sec, |rs|)
  {
    var c := target.constraints;
    [Blank, Comment("target constraints")]
      + seq(|c|, i requires 0 <= i < |c| => TargetConstraint(rs, c[i].0, c[i].1, target.inTime))
  }

  /** One balance constraint per symbol of `order` that is not exempt, in that order. */
  function BalanceConstraints(rs: seq<Reaction>, goal: Goal, inputs: seq<Symbol>, order: seq<Symbol>): (sec: seq<Statement>)
    ensures AllIndexed(sec, |rs|)
  {
    var kept := Kept(goal, inputs, order);
    seq(|kept|, i requires 0 <= i < |kept| => BalanceConstraint(rs, kept[i]))
  }

  /** Visiting one more symbol adds its balance constraint, unless it is exempt. */
  lemma BalanceConstraintsStep(rs: seq<Reaction>, goal: Goal, inputs: seq<Symbol>, order: seq<Symbol>, s: Symbol)
    ensures BalanceConstraints(rs, goal, inputs, order + [s])
      == BalanceConstraints(rs, goal, inputs, order) + (if Exempt(goal, inputs, s) then [] else [BalanceConstraint(rs, s)])
  {
    assert (order + [s])[..|order|] == order;
  }

  /** For any iteration order of the symbol set, the symbols given a balance constraint
      are exactly the balance set, each once. */
  lemma BalanceSymbolsExact(rs: seq<Reaction>, goal: Goal, inputs: seq<Symbol>, order: seq<Symbol>)
    requires IsEnumeration(order, AllSymbols(rs))
    ensures Distinct(Kept(goal, inputs, order))
    ensures forall s :: s in Kept(goal, inputs, order) <==> s in BalanceSet(rs, goal, inputs)
  {
    KeptExact(goal, inputs, order);
  }

  function BalanceSection(rs: seq<Reaction>, goal: Goal, inputs: seq<Symbol>, order: seq<Symbol>): (sec: seq<Statement>)
    ensures AllIndexed(sec, |rs|)
  {
    [Blank, Comment("balance constraints")] + BalanceConstraints(rs, goal, inputs, order)
  }

  function ClosingSection(rs: seq<Reaction>, goal: Goal): (sec: seq<Statement>)
    ensures AllIndexed(sec, |rs|)
  {
    [Blank, Objective(rs, goal), Output(OutputEntries(rs))]
  }

  /** The whole model for a target with goal `goal`, when the reaction symbols are
      iterated in `order`. */
  function Model(input: string, rs: seq<Reaction>, target: Target, goal: Goal, order: seq<Symbol>): (m: seq<Statement>)
    ensures AllIndexed(m, |rs|)
  {
    var echo := EchoSection(input);
    assert AllIndexed(echo, |rs|);
    echo
      + VariableSection(rs)
      + NonNegativeSection(rs)
      + TargetSection(rs, target)
      + BalanceSection(rs, goal, target.inputs, order)
      + ClosingSection(rs, goal)
  }
}
