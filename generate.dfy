/** `generate_minizinc` (src/main.rs) as the source runs it: loops that build the term
    lists of each expression and write the model into a writer one line at a time. Each
    method is proved to write exactly the text of its section of `Compile.Model`. */
module Generate {
  import opened Strings
  import opened Ast
  import opened Compile
  import opened Render

  /** The `impl Write` the model goes to: one entry per `writeln!`, holding the text of
      that call without its final newline. */
  class Writer {
    var lines: seq<string>

    constructor()
      ensures lines == []
    {
      lines := [];
    }

    method WriteLine(line: string)
      modifies this
      ensures lines == old(lines) + [line]
    {
      lines := lines + [line];
    }
  }

  /** Why a model cannot be generated: the target has no goal. */
  datatype GenError = MissingGoal(target: string, span: (nat, nat))

  datatype Outcome = Pass | Fail(error: GenError)

  /** The loop over the reactions for one symbol: each reaction whose inputs hold `s` adds
      a summand to `consumption`, each whose outputs hold it a summand to `production`. */
  method Collect(rs: seq<Reaction>, s: Symbol, scale: Scale, production0: seq<string>, consumption0: seq<string>)
    returns (production: seq<string>, consumption: seq<string>)
    ensures production == production0 + Summands(rs, Contributions(rs, s, Outputs, scale))
    ensures consumption == consumption0 + Summands(rs, Contributions(rs, s, Inputs, scale))
  {
    production, consumption := production0, consumption0;
    for i := 0 to |rs|
      invariant production == production0 + Summands(rs, Contributions(rs[..i], s, Outputs, scale))
      invariant consumption == consumption0 + Summands(rs, Contributions(rs[..i], s, Inputs, scale))
    {
      consumption := Push(rs, i, s, Inputs, scale, consumption0, consumption);
      production := Push(rs, i, s, Outputs, scale, production0, production);
    }
    assert rs[..|rs|] == rs;
  }

  /** One lookup of that loop: reaction `i` adds its summand for `s` when its `side`
      holds `s`. */
  method Push(rs: seq<Reaction>, i: nat, s: Symbol, side: Side, scale: Scale, ghost base: seq<string>, acc: seq<string>)
    returns (next: seq<string>)
    requires i < |rs|
    requires acc == base + Summands(rs, Contributions(rs[..i], s, side, scale))
    ensures next == base + Summands(rs, Contributions(rs[..i + 1], s, side, scale))
  {
    SummandsNext(rs, i, s, side, scale);
    ghost var before := Summands(rs, Contributions(rs[..i], s, side, scale));
    match Get(SideOf(rs[i], side), s) {
      case Some(m) =>
        var summand := SummandText(rs, MakeTerm(scale, m, i, rs[i]));
        next := acc + [summand];
        AppendAssociates(base, before, [summand]);
      case None =>
        next := acc;
        assert before + [] == before;
    }
  }

  /** The source text echoed as comments, one per line. */
  method EmitEcho(w: Writer, rs: seq<Reaction>, input: string)
    modifies w
    ensures w.lines == old(w.lines) + Lines(rs, EchoSection(input))
  {
    ghost var sec := EchoSection(input);
    assert AllIndexed(sec, |rs|);
    var ls := SourceLines(input);
    for i := 0 to |ls|
      invariant AllIndexed(sec[..i], |rs|)
      invariant w.lines == old(w.lines) + Lines(rs, sec[..i])
    {
      LinesPrefix(rs, sec, i);
      assert sec[i] == Comment(ls[i]);
      w.WriteLine("% " + ls[i]);
    }
    assert sec[..|ls|] == sec;
  }

  /** One `var float` declaration per reaction, in reaction order. */
  method EmitVariables(w: Writer, rs: seq<Reaction>)
    modifies w
    ensures w.lines == old(w.lines) + Lines(rs, VariableSection(rs))
  {
    ghost var sec := VariableSection(rs);
    w.WriteLine("");
    w.WriteLine("% " + "variables");
    AllIndexedPrefix(rs, sec, 2);
    assert sec[..2] == [Blank, Comment("variables")];
    HeaderLines(rs, "variables");
    for i := 0 to |rs|
      invariant AllIndexed(sec[..i + 2], |rs|)
      invariant w.lines == old(w.lines) + Lines(rs, sec[..i + 2])
    {
      var variable := VarName(rs[i]);
      LinesPrefix(rs, sec, i + 2);
      assert sec[i + 2] == VarDecl(i);
      w.WriteLine("var float: " + variable + ";");
    }
    assert sec[..|rs| + 2] == sec;
  }

  /** One `>= 0` constraint per reaction, in reaction order. */
  method EmitNonNegative(w: Writer, rs: seq<Reaction>)
    modifies w
    ensures w.lines == old(w.lines) + Lines(rs, NonNegativeSection(rs))
  {
    ghost var sec := NonNegativeSection(rs);
    w.WriteLine("");
    w.WriteLine("% " + "non-negative constraints");
    AllIndexedPrefix(rs, sec, 2);
    assert sec[..2] == [Blank, Comment("non-negative constraints")];
    HeaderLines(rs, "non-negative constraints");
    for i := 0 to |rs|
      invariant AllIndexed(sec[..i + 2], |rs|)
      invariant w.lines == old(w.lines) + Lines(rs, sec[..i + 2])
    {
      LinesPrefix(rs, sec, i + 2);
      assert sec[i + 2] == NonNegative(i);
      w.WriteLine("constraint " + VarName(rs[i]) + " >= 0;");
    }
    assert sec[..|rs| + 2] == sec;
  }

  /** One constraint per entry of `target.constraints`, in their iteration order. */
  method EmitTargets(w: Writer, rs: seq<Reaction>, target: Target)
    modifies w
    ensures w.lines == old(w.lines) + Lines(rs, TargetSection(rs, target))
  {
    ghost var sec := TargetSection(rs, target);
    w.WriteLine("");
    w.WriteLine("% " + "target constraints");
    AllIndexedPrefix(rs, sec, 2);
    assert sec[..2] == [Blank, Comment("target constraints")];
    HeaderLines(rs, "target constraints");
    var c := target.constraints;
    for j := 0 to |c|
      invariant AllIndexed(sec[..j + 2], |rs|)
      invariant w.lines == old(w.lines) + Lines(rs, sec[..j + 2])
    {
      var (symbol, scalar) := c[j];
      LinesPrefix(rs, sec, j + 2);
      assert sec[j + 2] == TargetConstraint(rs, symbol, scalar, target.inTime);
      EmitTargetConstraint(w, rs, symbol, scalar, target.inTime);
    }
    assert sec[..|c| + 2] == sec;
  }

  /** The constraint of one target entry: net production per unit of time at least `scalar`. */
  method EmitTargetConstraint(w: Writer, rs: seq<Reaction>, symbol: Symbol, scalar: nat, inTime: nat)
    modifies w
    ensures w.lines == old(w.lines) + [Line(rs, TargetConstraint(rs, symbol, scalar, inTime))]
  {
    var production, consumption := Collect(rs, symbol, PerCost, ["0"], ["0"]);
    w.WriteLine("constraint (" + Join(production, "+") + ") - (" + Join(consumption, "+") + ") >= "
      + NatToString(scalar) + " / " + NatToString(inTime) + ";");
  }

  /** The set of every symbol on either side of any reaction. */
  method CollectSymbols(rs: seq<Reaction>) returns (symbols: set<Symbol>)
    ensures symbols == AllSymbols(rs)
  {
    symbols := {};
    for i := 0 to |rs|
      invariant symbols == AllSymbols(rs[..i])
    {
      assert rs[..i + 1][..i] == rs[..i];
      symbols := symbols + AsMap(rs[i].inputs).Keys;
      symbols := symbols + AsMap(rs[i].outputs).Keys;
    }
    assert rs[..|rs|] == rs;
  }

  /** The balance constraint of one symbol: production at least consumption. */
  method EmitBalanceConstraint(w: Writer, rs: seq<Reaction>, symbol: Symbol)
    modifies w
    ensures w.lines == old(w.lines) + [Line(rs, BalanceConstraint(rs, symbol))]
  {
    var production, consumption := Collect(rs, symbol, PerCost, ["0"], ["0"]);
    w.WriteLine("constraint (" + Join(production, "+") + ") >= " + Join(consumption, "+") + ";");
  }

  /** Whether the loop skips `symbol`: a free input, or under a resource goal one of the
      weighted resources. */
  method IsExempt(goal: Goal, inputs: seq<Symbol>, using: set<Symbol>, symbol: Symbol) returns (exempt: bool)
    requires using == set s | s in inputs
    ensures exempt == Exempt(goal, inputs, symbol)
  {
    exempt := match goal
      case Reactions => symbol in using
      case Resources(rt) => symbol in using || symbol in KeysOf(rt);
  }

  /** A balance constraint for every symbol of the reactions that is not exempt, in the
      order the symbol set is iterated; `order` is that iteration order. */
  method EmitBalance(w: Writer, rs: seq<Reaction>, goal: Goal, inputs: seq<Symbol>)
    returns (ghost order: seq<Symbol>)
    modifies w
    ensures IsEnumeration(order, AllSymbols(rs))
    ensures w.lines == old(w.lines) + Lines(rs, BalanceSection(rs, goal, inputs, order))
  {
    w.WriteLine("");
    w.WriteLine("% " + "balance constraints");
    ghost var header := ["", "% " + "balance constraints"];
    ghost var start := w.lines;
    assert start == old(w.lines) + header;
    var symbols := CollectSymbols(rs);
    var using := set s | s in inputs;
    var remaining := symbols;
    order := [];
    while remaining != {}
      invariant Visited(order, symbols, remaining)
      invariant w.lines == start + Lines(rs, BalanceConstraints(rs, goal, inputs, order))
      decreases |remaining|
    {
      var symbol :| symbol in remaining;
      VisitNext(order, symbols, remaining, symbol);
      remaining := remaining - {symbol};
      var exempt := IsExempt(goal, inputs, using, symbol);
      if exempt {
        SkipExempt(rs, goal, inputs, order, symbol);
        order := order + [symbol];
        continue;
      }
      EmitKept(w, rs, goal, inputs, symbol, start, order);
      order := order + [symbol];
    }
    ghost var body := Lines(rs, BalanceConstraints(rs, goal, inputs, order));
    BalanceSectionLines(rs, goal, inputs, order);
    assert Lines(rs, BalanceSection(rs, goal, inputs, order)) == header + body;
    AppendAssociates(old(w.lines), header, body);
    VisitedAll(order, symbols);
  }

  /** The balance constraint of a symbol that is not exempt, written after those of the
      symbols visited before it. */
  method EmitKept(w: Writer, rs: seq<Reaction>, goal: Goal, inputs: seq<Symbol>, symbol: Symbol,
                  ghost start: seq<string>, ghost order: seq<Symbol>)
    modifies w
    requires !Exempt(goal, inputs, symbol)
    requires w.lines == start + Lines(rs, BalanceConstraints(rs, goal, inputs, order))
    ensures w.lines == start + Lines(rs, BalanceConstraints(rs, goal, inputs, order + [symbol]))
  {
    BalanceLinesStep(rs, goal, inputs, order, symbol);
    ghost var before := Lines(rs, BalanceConstraints(rs, goal, inputs, order));
    EmitBalanceConstraint(w, rs, symbol);
    AppendAssociates(start, before, [Line(rs, BalanceConstraint(rs, symbol))]);
  }

  /** An exempt symbol adds no line. */
  lemma SkipExempt(rs: seq<Reaction>, goal: Goal, inputs: seq<Symbol>, order: seq<Symbol>, s: Symbol)
    requires Exempt(goal, inputs, s)
    ensures Lines(rs, BalanceConstraints(rs, goal, inputs, order + [s])) == Lines(rs, BalanceConstraints(rs, goal, inputs, order))
  {
    BalanceLinesStep(rs, goal, inputs, order, s);
    ghost var before := Lines(rs, BalanceConstraints(rs, goal, inputs, order));
    assert before + [] == before;
  }

  /** `order` lists, once each, the members of `symbols` no longer `remaining`. */
  ghost predicate Visited(order: seq<Symbol>, symbols: set<Symbol>, remaining: set<Symbol>) {
    remaining <= symbols && Distinct(order) && forall x :: x in order <==> x in symbols && x !in remaining
  }

  lemma VisitNext(order: seq<Symbol>, symbols: set<Symbol>, remaining: set<Symbol>, s: Symbol)
    requires Visited(order, symbols, remaining) && s in remaining
    ensures Visited(order + [s], symbols, remaining - {s})
  {
  }

  lemma VisitedAll(order: seq<Symbol>, symbols: set<Symbol>)
    requires Visited(order, symbols, {})
    ensures IsEnumeration(order, symbols)
  {
  }

  /** The text of the balance constraints grows by the line of the next symbol visited,
      unless it is exempt. */
  lemma BalanceLinesStep(rs: seq<Reaction>, goal: Goal, inputs: seq<Symbol>, order: seq<Symbol>, s: Symbol)
    ensures Lines(rs, BalanceConstraints(rs, goal, inputs, order + [s]))
      == Lines(rs, BalanceConstraints(rs, goal, inputs, order))
         + (if Exempt(goal, inputs, s) then [] else [Line(rs, BalanceConstraint(rs, s))])
  {
    BalanceConstraintsStep(rs, goal, inputs, order, s);
    var before := BalanceConstraints(rs, goal, inputs, order);
    if !Exempt(goal, inputs, s) {
      LinesConcat(rs, before, [BalanceConstraint(rs, s)]);
      assert Lines(rs, [BalanceConstraint(rs, s)])[0] == Line(rs, BalanceConstraint(rs, s));
    } else {
      assert before + [] == before;
    }
  }

  lemma BalanceSectionLines(rs: seq<Reaction>, goal: Goal, inputs: seq<Symbol>, order: seq<Symbol>)
    ensures Lines(rs, BalanceSection(rs, goal, inputs, order))
      == ["", "% " + "balance constraints"] + Lines(rs, BalanceConstraints(rs, goal, inputs, order))
  {
    HeadedLines(rs, "balance constraints", BalanceConstraints(rs, goal, inputs, order));
  }

  /** The weighted terms of the resource objective: for each weighted resource, the loop
      over the reactions with the resource's weight as the factor. */
  method CollectWeighted(rs: seq<Reaction>, rt: Terms) returns (production: seq<string>, consumption: seq<string>)
    ensures production == ["0"] + Summands(rs, WeightedTerms(rs, rt, Outputs))
    ensures consumption == ["0"] + Summands(rs, WeightedTerms(rs, rt, Inputs))
  {
    production, consumption := ["0"], ["0"];
    for j := 0 to |rt|
      invariant production == ["0"] + Summands(rs, WeightedTerms(rs, rt[..j], Outputs))
      invariant consumption == ["0"] + Summands(rs, WeightedTerms(rs, rt[..j], Inputs))
    {
      var (symbol, weight) := rt[j];
      WeightedSummandsNext(rs, rt, j, Outputs);
      WeightedSummandsNext(rs, rt, j, Inputs);
      ghost var p0, c0 := Summands(rs, WeightedTerms(rs, rt[..j], Outputs)), Summands(rs, WeightedTerms(rs, rt[..j], Inputs));
      production, consumption := Collect(rs, symbol, Weight(weight), production, consumption);
      AppendAssociates(["0"], p0, Summands(rs, Contributions(rs, symbol, Outputs, Weight(weight))));
      AppendAssociates(["0"], c0, Summands(rs, Contributions(rs, symbol, Inputs, Weight(weight))));
    }
    assert rt[..|rt|] == rt;
  }

  /** The text of the terms of the first `i + 1` reactions: that of the first `i`, then the
      summand of reaction `i` if its side holds `s`. */
  lemma SummandsNext(rs: seq<Reaction>, i: nat, s: Symbol, side: Side, scale: Scale)
    requires i < |rs|
    ensures Summands(rs, Contributions(rs[..i + 1], s, side, scale))
      == Summands(rs, Contributions(rs[..i], s, side, scale))
         + match Get(SideOf(rs[i], side), s)
           case Some(m) => [SummandText(rs, MakeTerm(scale, m, i, rs[i]))]
           case None => []
  {
    ContributionsNext(rs, i, s, side, scale);
    var before := Contributions(rs[..i], s, side, scale);
    match Get(SideOf(rs[i], side), s) {
      case Some(m) =>
        SummandsSnoc(rs, before, MakeTerm(scale, m, i, rs[i]));
      case None =>
        assert before + [] == before;
    }
  }

  lemma SummandsSnoc(rs: seq<Reaction>, before: seq<LinTerm>, t: LinTerm)
    requires TermsIndexed(before, |rs|) && t.reaction < |rs|
    ensures TermsIndexed(before + [t], |rs|)
    ensures Summands(rs, before + [t]) == Summands(rs, before) + [SummandText(rs, t)]
  {
    SummandsConcat(rs, before, [t]);
    assert [t][1..] == [];
  }

  lemma AppendAssociates(a: seq<string>, b: seq<string>, c: seq<string>)
    ensures (a + b) + c == a + (b + c)
  {
  }

  lemma AppendThree(a: seq<string>, x: string, y: string, z: string)
    ensures a + [x] + [y] + [z] == a + [x, y, z]
  {
  }

  /** The text of the weighted terms of one more resource. */
  lemma WeightedSummandsNext(rs: seq<Reaction>, rt: Terms, j: nat, side: Side)
    requires j < |rt|
    ensures Summands(rs, WeightedTerms(rs, rt[..j + 1], side))
      == Summands(rs, WeightedTerms(rs, rt[..j], side)) + Summands(rs, Contributions(rs, rt[j].0, side, Weight(rt[j].1)))
  {
    WeightedTermsNext(rs, rt, j, side);
    SummandsConcat(rs, WeightedTerms(rs, rt[..j], side), Contributions(rs, rt[j].0, side, Weight(rt[j].1)));
  }

  lemma WeightedTermsNext(rs: seq<Reaction>, rt: Terms, j: nat, side: Side)
    requires j < |rt|
    ensures WeightedTerms(rs, rt[..j + 1], side)
      == WeightedTerms(rs, rt[..j], side) + Contributions(rs, rt[j].0, side, Weight(rt[j].1))
  {
    assert rt[..j + 1][..j] == rt[..j];
  }

  /** The one objective the goal calls for. */
  method EmitObjective(w: Writer, rs: seq<Reaction>, goal: Goal)
    modifies w
    ensures w.lines == old(w.lines) + [Line(rs, Objective(rs, goal))]
  {
    match goal {
      case Resources(rt) => EmitDrawObjective(w, rs, rt);
      case Reactions => EmitActivityObjective(w, rs);
    }
  }

  /** Under a resource goal: minimise weighted consumption minus weighted production. */
  method EmitDrawObjective(w: Writer, rs: seq<Reaction>, rt: Terms)
    modifies w
    ensures w.lines == old(w.lines) + [Line(rs, Objective(rs, Resources(rt)))]
  {
    var production, consumption := CollectWeighted(rs, rt);
    w.WriteLine("solve minimize (" + Join(consumption, "+") + ") - (" + Join(production, "+") + ");");
  }

  /** Under the reactions goal: minimise the sum of every reaction variable. */
  method EmitActivityObjective(w: Writer, rs: seq<Reaction>)
    modifies w
    ensures w.lines == old(w.lines) + [Line(rs, Objective(rs, Reactions))]
  {
    var names := seq(|rs|, i requires 0 <= i < |rs| => VarName(rs[i]));
    ghost var ids := seq(|rs|, i => i);
    assert names == seq(|ids|, k requires 0 <= k < |ids| => assert ids[k] in ids; VarName(rs[ids[k]]));
    w.WriteLine("solve minimize " + Join(names, "+") + ";");
  }

  /** One conditional print per reaction, in reaction order, names padded to `width`. */
  method OutputExprs(rs: seq<Reaction>, width: nat) returns (exprs: seq<string>)
    ensures exprs == seq(|rs|, k requires 0 <= k < |rs| => EntryText(rs, OutputEntry(k, DisplayName(rs[k]), width)))
  {
    exprs := [];
    for i := 0 to |rs|
      invariant exprs == seq(i, k requires 0 <= k < i => EntryText(rs, OutputEntry(k, DisplayName(rs[k]), width)))
    {
      var expr := OutputExpr(rs, i, width);
      EntryTextsGrow(rs, width, i, exprs, expr);
      exprs := exprs + [expr];
    }
  }

  /** The conditional print of reaction `i`: its label, or its variable name when it has
      none, padded to `width`, then the solved value. When no name holds a `"`, the
      guard tests the reaction's variable and the first quoted literal is exactly the
      padded name followed by ` =`. */
  method OutputExpr(rs: seq<Reaction>, i: nat, width: nat) returns (expr: string)
    requires i < |rs|
    ensures expr == EntryText(rs, OutputEntry(i, DisplayName(rs[i]), width))
    ensures NamesExclude(rs[i], '"') && '"' !in DisplayName(rs[i]) ==>
      var pieces := Split(expr, '"');
      |pieces| == 7 && pieces[0] == "if fix(" + VarName(rs[i]) + ") > 0 then "
      && pieces[1] == PadRight(DisplayName(rs[i]), width) + " ="
  {
    var name := VarName(rs[i]);
    var pretty := match rs[i].labelText
      case Some(l) => l
      case None => name;
    expr := "if fix(" + name + ") > 0 then \"" + PadRight(pretty, width) + " =\" ++ show_float(8, 5, "
      + name + ") ++ \"\\n\" else \"\" endif";
    if NamesExclude(rs[i], '"') && '"' !in DisplayName(rs[i]) {
      EntryTextQuotes(rs, OutputEntry(i, DisplayName(rs[i]), width));
    }
  }

  lemma EntryTextsGrow(rs: seq<Reaction>, width: nat, i: nat, exprs: seq<string>, expr: string)
    requires i < |rs|
    requires exprs == seq(i, k requires 0 <= k < i => EntryText(rs, OutputEntry(k, DisplayName(rs[k]), width)))
    requires expr == EntryText(rs, OutputEntry(i, DisplayName(rs[i]), width))
    ensures exprs + [expr] == seq(i + 1, k requires 0 <= k < i + 1 => EntryText(rs, OutputEntry(k, DisplayName(rs[k]), width)))
  {
  }

  /** The output directive. */
  method EmitOutput(w: Writer, rs: seq<Reaction>)
    modifies w
    ensures w.lines == old(w.lines) + [Line(rs, Output(OutputEntries(rs)))]
  {
    var width := MaxWidth(rs);
    var exprs := OutputExprs(rs, width);
    ghost var es := OutputEntries(rs);
    assert exprs == seq(|es|, k requires 0 <= k < |es| => assert es[k] in es; EntryText(rs, es[k]));
    w.WriteLine("output [" + Join(exprs, ",\n") + "];");
  }

  /** The sections before the balance constraints: echo, variables, bounds, targets. */
  method EmitPreamble(w: Writer, rs: seq<Reaction>, input: string, target: Target)
    modifies w
    ensures w.lines == old(w.lines) + Lines(rs, EchoSection(input)) + Lines(rs, VariableSection(rs))
      + Lines(rs, NonNegativeSection(rs)) + Lines(rs, TargetSection(rs, target))
  {
    ghost var l0 := w.lines;
    EmitEcho(w, rs, input);
    ghost var e := Lines(rs, EchoSection(input));
    EmitVariables(w, rs);
    ghost var v := Lines(rs, VariableSection(rs));
    AppendAssociates(l0, e, v);
    EmitNonNegative(w, rs);
    ghost var n := Lines(rs, NonNegativeSection(rs));
    AppendAssociates(l0, e + v, n);
    EmitTargets(w, rs, target);
  }

  /** The sections after the balance constraints: a blank line, the objective, the output. */
  method EmitClosing(w: Writer, rs: seq<Reaction>, goal: Goal)
    modifies w
    ensures w.lines == old(w.lines) + ["", Line(rs, Objective(rs, goal)), Line(rs, Output(OutputEntries(rs)))]
  {
    ghost var before := w.lines;
    w.WriteLine("");
    EmitObjective(w, rs, goal);
    EmitOutput(w, rs);
    AppendThree(before, "", Line(rs, Objective(rs, goal)), Line(rs, Output(OutputEntries(rs))));
  }

  /** `generate_minizinc`: without a goal, nothing is written and the missing goal is
      reported; otherwise the whole model is written, for the order in which the symbol
      set happened to be iterated. */
  method Generate(w: Writer, input: string, program: Program, target: Target) returns (outcome: Outcome)
    modifies w
    ensures target.goal.None? ==>
      outcome == Fail(MissingGoal(target.name, target.span)) && w.lines == old(w.lines)
    ensures target.goal.Some? ==>
      outcome == Pass
      && exists order :: IsEnumeration(order, AllSymbols(program.reactions))
           && w.lines == old(w.lines) + Lines(program.reactions, Model(input, program.reactions, target, target.goal.value, order))
  {
    if target.goal.None? {
      return Fail(MissingGoal(target.name, target.span));
    }
    var goal := target.goal.value;
    var rs := program.reactions;
    ghost var l0 := w.lines;
    EmitPreamble(w, rs, input, target);
    ghost var l1 := w.lines;
    ghost var order := EmitBalance(w, rs, goal, target.inputs);
    ghost var l2 := w.lines;
    EmitClosing(w, rs, goal);
    ModelLines(input, rs, target, goal, order, l0, l1, l2, w.lines);
    outcome := Pass;
  }

  /** Writing the sections one after another writes the whole model. */
  lemma ModelLines(input: string, rs: seq<Reaction>, target: Target, goal: Goal, order: seq<Symbol>,
                   l0: seq<string>, l1: seq<string>, l2: seq<string>, l3: seq<string>)
    requires l1 == l0 + Lines(rs, EchoSection(input)) + Lines(rs, VariableSection(rs))
      + Lines(rs, NonNegativeSection(rs)) + Lines(rs, TargetSection(rs, target))
    requires l2 == l1 + Lines(rs, BalanceSection(rs, goal, target.inputs, order))
    requires l3 == l2 + ["", Line(rs, Objective(rs, goal)), Line(rs, Output(OutputEntries(rs)))]
    ensures l3 == l0 + Lines(rs, Model(input, rs, target, goal, order))
  {
    LinesModel(input, rs, target, goal, order);
    AppendSections(l0, Lines(rs, EchoSection(input)), Lines(rs, VariableSection(rs)),
      Lines(rs, NonNegativeSection(rs)), Lines(rs, TargetSection(rs, target)),
      Lines(rs, BalanceSection(rs, goal, target.inputs, order)),
      ["", Line(rs, Objective(rs, goal)), Line(rs, Output(OutputEntries(rs)))],
      l1, l2, l3, Lines(rs, Model(input, rs, target, goal, order)));
  }

  lemma AppendSections(l0: seq<string>, e: seq<string>, v: seq<string>, n: seq<string>, t: seq<string>,
                       b: seq<string>, c: seq<string>, l1: seq<string>, l2: seq<string>, l3: seq<string>,
                       all: seq<string>)
    requires l1 == l0 + e + v + n + t && l2 == l1 + b && l3 == l2 + c
    requires all == e + v + n + t + b + c
    ensures l3 == l0 + all
  {
  }

  /** The text of a model is the text of its sections, one after another. */
  lemma LinesModel(input: string, rs: seq<Reaction>, target: Target, goal: Goal, order: seq<Symbol>)
    ensures Lines(rs, Model(input, rs, target, goal, order))
      == Lines(rs, EchoSection(input)) + Lines(rs, VariableSection(rs)) + Lines(rs, NonNegativeSection(rs))
         + Lines(rs, TargetSection(rs, target)) + Lines(rs, BalanceSection(rs, goal, target.inputs, order))
         + ["", Line(rs, Objective(rs, goal)), Line(rs, Output(OutputEntries(rs)))]
  {
    var echo := EchoSection(input);
    assert AllIndexed(echo, |rs|);
    LinesSix(rs, echo, VariableSection(rs), NonNegativeSection(rs), TargetSection(rs, target),
      BalanceSection(rs, goal, target.inputs, order), ClosingSection(rs, goal));
    LinesThree(rs, Blank, Objective(rs, goal), Output(OutputEntries(rs)));
  }
}
