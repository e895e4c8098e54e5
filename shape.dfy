/** What the statements of a generated model are, kind by kind: the promises
    `generate_minizinc` (src/main.rs) makes about the model as a whole. */
module Shape {
  import opened Ast
  import opened Compile

  /** The kinds of statement in a model; comments and blank lines are layout. */
  datatype Kind = Layout | Declaration | Bound | Requirement | Balance | Minimize | Display

  function KindOf(st: Statement): Kind {
    match st
    case Comment(_) => Layout
    case Blank => Layout
    case VarDecl(_) => Declaration
    case NonNegative(_) => Bound
    case AtLeast(_, _, _, _, _) => Requirement
    case Balanced(_, _, _) => Balance
    case MinimizeDraw(_, _) => Minimize
    case MinimizeActivity(_) => Minimize
    case Output(_) => Display
  }

  /** The statements of kind `k`, in order. */
  function Select(m: seq<Statement>, k: Kind): seq<Statement>
    decreases |m|
  {
    if |m| == 0 then []
    else
      var n := |m| - 1;
      Select(m[..n], k) + (if KindOf(m[n]) == k then [m[n]] else [])
  }

  lemma {:induction false} SelectConcat(a: seq<Statement>, b: seq<Statement>, k: Kind)
    ensures Select(a + b, k) == Select(a, k) + Select(b, k)
    decreases |b|
  {
    if |b| == 0 {
      assert a + b == a;
    } else {
      var n := |b| - 1;
      SelectConcat(a, b[..n], k);
      var last := if KindOf(b[n]) == k then [b[n]] else [];
      assert (a + b)[..|a + b| - 1] == a + b[..n] && (a + b)[|a + b| - 1] == b[n];
      assert Select(a + b, k) == Select(a + b[..n], k) + last;
      assert Select(b, k) == Select(b[..n], k) + last;
    }
  }

  lemma {:induction false} SelectAll(m: seq<Statement>, k: Kind)
    requires forall i :: 0 <= i < |m| ==> KindOf(m[i]) == k
    ensures Select(m, k) == m
    decreases |m|
  {
    if |m| > 0 {
      SelectAll(m[..|m| - 1], k);
    }
  }

  lemma {:induction false} SelectNone(m: seq<Statement>, k: Kind)
    requires forall i :: 0 <= i < |m| ==> KindOf(m[i]) != k
    ensures Select(m, k) == []
    decreases |m|
  {
    if |m| > 0 {
      SelectNone(m[..|m| - 1], k);
    }
  }

  /** Selecting from a model selects from each section in turn. */
  lemma SelectModel(input: string, rs: seq<Reaction>, target: Target, goal: Goal, order: seq<Symbol>, k: Kind)
    ensures Select(Model(input, rs, target, goal, order), k)
      == Select(EchoSection(input), k) + Select(VariableSection(rs), k) + Select(NonNegativeSection(rs), k)
         + Select(TargetSection(rs, target), k) + Select(BalanceSection(rs, goal, target.inputs, order), k)
         + Select(ClosingSection(rs, goal), k)
  {
    var e, v, n := EchoSection(input), VariableSection(rs), NonNegativeSection(rs);
    var t, b, c := TargetSection(rs, target), BalanceSection(rs, goal, target.inputs, order), ClosingSection(rs, goal);
    SelectConcat(e, v, k);
    SelectConcat(e + v, n, k);
    SelectConcat(e + v + n, t, k);
    SelectConcat(e + v + n + t, b, k);
    SelectConcat(e + v + n + t + b, c, k);
  }

  /** A section made of a heading and statements of one kind holds that kind only there. */
  lemma HeadedSection(title: string, body: seq<Statement>, kind: Kind, k: Kind)
    requires kind != Layout
    requires forall i :: 0 <= i < |body| ==> KindOf(body[i]) == kind
    ensures Select([Blank, Comment(title)] + body, k) == if k == kind then body else if k == Layout then [Blank, Comment(title)] else []
  {
    var head := [Blank, Comment(title)];
    SelectConcat(head, body, k);
    HeadingKinds(title, k);
    if k == kind {
      SelectAll(body, k);
    } else {
      SelectNone(body, k);
    }
  }

  /** A heading is layout only. */
  lemma HeadingKinds(title: string, k: Kind)
    ensures Select([Blank, Comment(title)], k) == if k == Layout then [Blank, Comment(title)] else []
  {
    var head := [Blank, Comment(title)];
    if k == Layout {
      SelectAll(head, k);
    } else {
      SelectNone(head, k);
    }
  }

  /** The echoed source is layout only. */
  lemma EchoKinds(input: string, k: Kind)
    requires k != Layout
    ensures Select(EchoSection(input), k) == []
  {
    var echo := EchoSection(input);
    assert forall i :: 0 <= i < |echo| ==> echo[i].Comment?;
    SelectNone(echo, k);
  }

  lemma VariableKinds(rs: seq<Reaction>, k: Kind)
    requires k != Layout
    ensures Select(VariableSection(rs), k) == if k == Declaration then seq(|rs|, i requires 0 <= i < |rs| => VarDecl(i)) else []
  {
    HeadedSection("variables", seq(|rs|, i requires 0 <= i < |rs| => VarDecl(i)), Declaration, k);
  }

  lemma NonNegativeKinds(rs: seq<Reaction>, k: Kind)
    requires k != Layout
    ensures Select(NonNegativeSection(rs), k) == if k == Bound then seq(|rs|, i requires 0 <= i < |rs| => NonNegative(i)) else []
  {
    HeadedSection("non-negative constraints", seq(|rs|, i requires 0 <= i < |rs| => NonNegative(i)), Bound, k);
  }

  lemma TargetKinds(rs: seq<Reaction>, target: Target, k: Kind)
    requires k != Layout
    ensures var c := target.constraints;
      Select(TargetSection(rs, target), k)
        == if k == Requirement then seq(|c|, i requires 0 <= i < |c| => TargetConstraint(rs, c[i].0, c[i].1, target.inTime)) else []
  {
    var c := target.constraints;
    HeadedSection("target constraints",
      seq(|c|, i requires 0 <= i < |c| => TargetConstraint(rs, c[i].0, c[i].1, target.inTime)), Requirement, k);
  }

  lemma BalanceKinds(rs: seq<Reaction>, goal: Goal, inputs: seq<Symbol>, order: seq<Symbol>, k: Kind)
    requires k != Layout
    ensures Select(BalanceSection(rs, goal, inputs, order), k)
      == if k == Balance then BalanceConstraints(rs, goal, inputs, order) else []
  {
    var bc := BalanceConstraints(rs, goal, inputs, order);
    assert forall i :: 0 <= i < |bc| ==> bc[i].Balanced?;
    HeadedSection("balance constraints", bc, Balance, k);
  }

  lemma SelectOne(st: Statement, k: Kind)
    ensures Select([st], k) == if KindOf(st) == k then [st] else []
  {
    assert [st][..0] == [];
  }

  lemma ObjectiveKind(rs: seq<Reaction>, goal: Goal)
    ensures KindOf(Objective(rs, goal)) == Minimize
  {
  }

  lemma ClosingKinds(rs: seq<Reaction>, goal: Goal, k: Kind)
    requires k != Layout
    ensures Select(ClosingSection(rs, goal), k)
      == if k == Minimize then [Objective(rs, goal)] else if k == Display then [Output(OutputEntries(rs))] else []
  {
    ObjectiveKind(rs, goal);
    SelectClosing(Objective(rs, goal), Output(OutputEntries(rs)), k);
  }

  /** A blank line, an objective and an output directive, selected by kind. */
  lemma SelectClosing(obj: Statement, out: Statement, k: Kind)
    requires k != Layout && KindOf(obj) == Minimize && KindOf(out) == Display
    ensures Select([Blank, obj, out], k) == if k == Minimize then [obj] else if k == Display then [out] else []
  {
    assert [Blank, obj, out] == [Blank] + [obj] + [out];
    SelectConcat([Blank], [obj], k);
    SelectConcat([Blank] + [obj], [out], k);
    SelectOne(Blank, k);
    SelectOne(obj, k);
    SelectOne(out, k);
  }

  /** Selecting a kind other than layout from a model selects it from each section. */
  lemma SelectModelKind(input: string, rs: seq<Reaction>, target: Target, goal: Goal, order: seq<Symbol>, k: Kind)
    requires k != Layout
    ensures Select(Model(input, rs, target, goal, order), k)
      == Select(VariableSection(rs), k) + Select(NonNegativeSection(rs), k)
         + Select(TargetSection(rs, target), k) + Select(BalanceSection(rs, goal, target.inputs, order), k)
         + Select(ClosingSection(rs, goal), k)
  {
    SelectModel(input, rs, target, goal, order, k);
    EchoKinds(input, k);
    assert [] + Select(VariableSection(rs), k) == Select(VariableSection(rs), k);
  }

  /** Exactly one `var float` per reaction, in reaction order, and none elsewhere. */
  lemma ModelDeclarations(input: string, rs: seq<Reaction>, target: Target, goal: Goal, order: seq<Symbol>)
    ensures Select(Model(input, rs, target, goal, order), Declaration) == seq(|rs|, i requires 0 <= i < |rs| => VarDecl(i))
  {
    SelectModelKind(input, rs, target, goal, order, Declaration);
    VariableKinds(rs, Declaration);
    NonNegativeKinds(rs, Declaration);
    TargetKinds(rs, target, Declaration);
    BalanceKinds(rs, goal, target.inputs, order, Declaration);
    ClosingKinds(rs, goal, Declaration);
  }

  /** Exactly one `>= 0` constraint per reaction, in reaction order, and none elsewhere. */
  lemma ModelBounds(input: string, rs: seq<Reaction>, target: Target, goal: Goal, order: seq<Symbol>)
    ensures Select(Model(input, rs, target, goal, order), Bound) == seq(|rs|, i requires 0 <= i < |rs| => NonNegative(i))
  {
    SelectModelKind(input, rs, target, goal, order, Bound);
    VariableKinds(rs, Bound);
    NonNegativeKinds(rs, Bound);
    TargetKinds(rs, target, Bound);
    BalanceKinds(rs, goal, target.inputs, order, Bound);
    ClosingKinds(rs, goal, Bound);
  }

  /** One target constraint per entry of the target's constraints, in their iteration
      order, for that symbol and amount over `in_time`; none elsewhere. */
  lemma ModelRequirements(input: string, rs: seq<Reaction>, target: Target, goal: Goal, order: seq<Symbol>)
    ensures var m, c := Model(input, rs, target, goal, order), target.constraints;
      Select(m, Requirement) == seq(|c|, i requires 0 <= i < |c| => TargetConstraint(rs, c[i].0, c[i].1, target.inTime))
  {
    SelectModelKind(input, rs, target, goal, order, Requirement);
    VariableKinds(rs, Requirement);
    NonNegativeKinds(rs, Requirement);
    TargetKinds(rs, target, Requirement);
    BalanceKinds(rs, goal, target.inputs, order, Requirement);
    ClosingKinds(rs, goal, Requirement);
  }

  lemma ModelBalanceStatements(input: string, rs: seq<Reaction>, target: Target, goal: Goal, order: seq<Symbol>)
    ensures Select(Model(input, rs, target, goal, order), Balance) == BalanceConstraints(rs, goal, target.inputs, order)
  {
    SelectModelKind(input, rs, target, goal, order, Balance);
    VariableKinds(rs, Balance);
    NonNegativeKinds(rs, Balance);
    TargetKinds(rs, target, Balance);
    BalanceKinds(rs, goal, target.inputs, order, Balance);
    ClosingKinds(rs, goal, Balance);
  }

  /** The balance constraints are those of the balance set, each once, in the order the
      symbol set is iterated, whatever that order is. */
  lemma ModelBalances(input: string, rs: seq<Reaction>, target: Target, goal: Goal, order: seq<Symbol>)
    requires IsEnumeration(order, AllSymbols(rs))
    ensures var m, kept := Model(input, rs, target, goal, order), Kept(goal, target.inputs, order);
      && Select(m, Balance) == seq(|kept|, i requires 0 <= i < |kept| => BalanceConstraint(rs, kept[i]))
      && Distinct(kept)
      && (forall s :: s in kept <==> s in BalanceSet(rs, goal, target.inputs))
  {
    ModelBalanceStatements(input, rs, target, goal, order);
    BalanceSymbolsExact(rs, goal, target.inputs, order);
  }

  /** Exactly one objective, the one the goal calls for. */
  lemma ModelObjective(input: string, rs: seq<Reaction>, target: Target, goal: Goal, order: seq<Symbol>)
    ensures Select(Model(input, rs, target, goal, order), Minimize) == [Objective(rs, goal)]
  {
    SelectModelKind(input, rs, target, goal, order, Minimize);
    VariableKinds(rs, Minimize);
    NonNegativeKinds(rs, Minimize);
    TargetKinds(rs, target, Minimize);
    BalanceKinds(rs, goal, target.inputs, order, Minimize);
    ClosingKinds(rs, goal, Minimize);
  }

  /** Exactly one output directive, with one entry per reaction. */
  lemma ModelOutput(input: string, rs: seq<Reaction>, target: Target, goal: Goal, order: seq<Symbol>)
    ensures Select(Model(input, rs, target, goal, order), Display) == [Output(OutputEntries(rs))]
  {
    SelectModelKind(input, rs, target, goal, order, Display);
    VariableKinds(rs, Display);
    NonNegativeKinds(rs, Display);
    TargetKinds(rs, target, Display);
    BalanceKinds(rs, goal, target.inputs, order, Display);
    ClosingKinds(rs, goal, Display);
  }
}
