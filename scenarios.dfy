/** A small example network: R1 turns 2 A into 1 B at cost 1,
    R2 turns 1 B into 1 C at cost 2, and the target has free input A and needs 1 C
    over 10 time units. */
module Scenarios {
  import opened Strings
  import opened Ast
  import opened Compile

  const A := Symbol("A")
  const B := Symbol("B")
  const C := Symbol("C")

  function R1(): Reaction {
    Reaction([(A, 2)], [(B, 1)], Cost(1), None)
  }

  function R2(): Reaction {
    Reaction([(B, 1)], [(C, 1)], Cost(2), None)
  }

  function Network(): seq<Reaction> {
    [R1(), R2()]
  }

  lemma Single(s: Symbol, n: nat)
    ensures AsMap([(s, n)]) == map[s := n]
  {
    assert [(s, n)][..0] == [];
  }

  lemma NetworkSymbols()
    ensures AllSymbols(Network()) == {A, B, C}
  {
    var rs := Network();
    Single(A, 2);
    Single(B, 1);
    Single(C, 1);
    assert rs[..1] == [R1()] && rs[..1][..0] == [];
    assert AllSymbols(rs[..1]) == {A, B};
  }

  /** Under a reactions goal only the free input A is spared: B and C are balanced, C
      although it also has its own target constraint. */
  lemma BalanceUnderReactions()
    ensures BalanceSet(Network(), Reactions, [A]) == {B, C}
  {
    NetworkSymbols();
  }

  /** Under a resource goal on C, C is spared as well, and only B is balanced. */
  lemma BalanceUnderResources()
    ensures BalanceSet(Network(), Resources([(C, 1)]), [A]) == {B}
  {
    NetworkSymbols();
    Single(C, 1);
  }

  /** The target constraint for C: produced by R2 only (multiplicity 1, cost 2), consumed
      by nothing, at least 1 / 10. */
  lemma TargetForC()
    ensures TargetConstraint(Network(), C, 1, 10) == AtLeast(C, [Rate(1, 1, 2)], [], 1, 10)
  {
    var rs := Network();
    Single(A, 2);
    Single(B, 1);
    Single(C, 1);
    assert rs[..1] == [R1()] && rs[..1][..0] == [];
    assert Contributions(rs[..1], C, Outputs, PerCost) == [];
    assert Contributions(rs[..1], C, Inputs, PerCost) == [];
  }

  /** The resource objective on C minimises C's consumption (none) minus its weighted
      production (R2's, weight 1). */
  lemma ResourceObjective()
    ensures Objective(Network(), Resources([(C, 1)])) == MinimizeDraw([], [Weighted(1, 1, 1)])
  {
    var rs := Network();
    var rt: Terms := [(C, 1)];
    Single(A, 2);
    Single(B, 1);
    Single(C, 1);
    assert rs[..1] == [R1()] && rs[..1][..0] == [];
    assert rt[..0] == [];
    assert Contributions(rs[..1], C, Outputs, Weight(1)) == [];
    assert Contributions(rs[..1], C, Inputs, Weight(1)) == [];
    assert Contributions(rs, C, Outputs, Weight(1)) == [Weighted(1, 1, 1)];
    assert Contributions(rs, C, Inputs, Weight(1)) == [];
    assert WeightedTerms(rs, rt, Outputs) == WeightedTerms(rs, rt[..0], Outputs) + [Weighted(1, 1, 1)];
    assert WeightedTerms(rs, rt, Inputs) == WeightedTerms(rs, rt[..0], Inputs) + [];
    assert Objective(rs, Resources(rt)) == MinimizeDraw(WeightedTerms(rs, rt, Inputs), WeightedTerms(rs, rt, Outputs));
  }

  /** Under a reactions goal the objective is the sum of both reactions' variables. */
  lemma ActivityObjective()
    ensures Objective(Network(), Reactions) == MinimizeActivity([0, 1])
  {
  }

  lemma SingleSide(s: Symbol, n: nat, digit: char)
    requires n < 10 && digit == "0123456789"[n]
    requires '-' !in s.name
    ensures SideText([(s, n)]) == [digit] + s.name
  {
    assert NatToString(n) == [digit];
    assert ReplaceDash(s.name) == s.name;
  }

  /** The identifiers the two reactions get. */
  lemma NetworkNames()
    ensures VarName(R1()) == "machine_2A_into_1B"
    ensures VarName(R2()) == "machine_1B_into_1C"
  {
    SingleSide(A, 2, '2');
    SingleSide(B, 1, '1');
    SingleSide(C, 1, '1');
  }

  /** A reaction taking one A and one B, under a resource goal weighting both by 1: its
      input side contributes one term per weighted resource, so the draw holds two equal
      summands for the same reaction variable, in weight order. */
  lemma DuplicateSummands()
    ensures var rs := [Reaction([(A, 1), (B, 1)], [], Cost(1), None)];
      WeightedTerms(rs, [(A, 1), (B, 1)], Inputs) == [Weighted(1, 0, 1), Weighted(1, 0, 1)]
  {
    var rs := [Reaction([(A, 1), (B, 1)], [], Cost(1), None)];
    var ab: Terms := [(A, 1), (B, 1)];
    Single(A, 1);
    assert ab[..1] == [(A, 1)] && ab[..1][..0] == [] && ab[..0] == [];
    assert AsMap(ab) == map[A := 1, B := 1];
    assert rs[..0] == [];
    assert Contributions(rs, A, Inputs, Weight(1)) == [Weighted(1, 0, 1)];
    assert Contributions(rs, B, Inputs, Weight(1)) == [Weighted(1, 0, 1)];
    assert WeightedTerms(rs, ab[..1], Inputs) == WeightedTerms(rs, ab[..0], Inputs) + [Weighted(1, 0, 1)];
  }
}
