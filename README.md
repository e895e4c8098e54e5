# reaction-solver: the MiniZinc model generator, in Dafny

reaction-solver reads a network of reactions (each turns input species into output
species at some cost in cycles) and a target (free inputs, required output rates, a time
horizon and a goal). It writes a MiniZinc model that a solver then optimises. This
project models the generator `generate_minizinc`, the term-map sum `merge_terms`, the
message helper `expected_str` and the reaction identifier `Reaction::var_name`, and proves
what they produce.

The model has three layers:

- **Ast** (`ast.dfy`): the parser's data, meaning symbols, term maps, costs, goals,
  targets, reactions and programs, and the identifier `VarName`.
  - A `HashMap<Symbol, usize>` is a `Terms` value: its entries, with distinct keys, in
    the map's iteration order. That order is arbitrary, so every property holds for
    every order.
  - `AsMap` gives the map a term list stands for.
  - An unmodified Rust hash map yields the same order each time it is iterated. The
    model reflects this by keeping one fixed entry order per value.
- **Compile** (`compile.dfy`), **Render** (`render.dfy`) and **Shape** (`shape.dfy`):
  - `Compile.Model` is the model the generator writes, as structured statements: every
    linear expression is a list of terms over reaction indices.
  - `Render.Lines` gives the exact text of each `writeln!`.
  - `Shape` states what the whole model contains, kind by kind.
- **Generate** (`generate.dfy`): the generator as the source runs it.
  - A `Writer` class holds the written lines.
  - Loops push summands onto `production` and `consumption` lists, collect the symbol
    set, and visit it in the set's own order.
  - Each method is proved to write exactly the text of its section of `Compile.Model`.

`merge.dfy` models `merge_terms`. `expected.dfy` models `expected_str`. `strings.dfy`
stands in for the parts of Rust's standard library the code relies on. `scenarios.dfy`
works through a small example network.

Points where the generator's behaviour may be unexpected:

- No blank line is written between the objective and the `output` directive
  (src/main.rs:247-293).
- Under a `Reactions` goal, only the target's free inputs are spared a balance
  constraint. A symbol that has a target constraint is still balanced. In the
  example network (R1: 2 A -> 1 B, R2: 1 B -> 1 C, free input A, needing C), both
  B and C are balanced (`Scenarios.BalanceUnderReactions`), not B alone.
- `var_name` is not canonical. It follows the hash map's iteration order and sorts
  nothing, so equal term maps can give different identifiers
  (`Ast.VarNameFollowsIterationOrder`).
- There is only the continuous formulation (`var float`, `/ cost`, `/ in_time`). There
  is no least-common-multiple / integer-cycle mode.
- A zero or negative cost and a zero `in_time` are not rejected. They are written into
  the model as they are.

## Model

| member | source | states |
|---|---|---|
| Ast.AsMapEntries | src/ast.rs:5 | every entry of a term list is in its map view with its multiplicity, and every key of the map view comes from an entry |
| Ast.Get | src/main.rs:192-198 | `HashMap::get`: the multiplicity of a key exactly when it is in the map, `None` otherwise |
| Ast.KeysOf | src/main.rs:214-215 | the keys of a term map, one per entry, holding exactly the map's keys |
| Ast.TermText | src/ast.rs:63 | definition: a term's text is its multiplicity's digits followed by the name with `-` rewritten to `_` (read back by `TermTextDecodes`) |
| Ast.SideText | src/ast.rs:61-68 | definition: a side's text is its terms' texts in iteration order, joined by `_` |
| Ast.VarName | src/ast.rs:58-70 | definition: `machine_<inputs>_into_<outputs>`; the lemmas below state its properties |
| Ast.TermTextDecodes | src/ast.rs:63 | a term's text splits back into the multiplicity's digits, which read back as the multiplicity, and the rewritten name (for names not starting with a digit) |
| Ast.EmptySides | src/ast.rs:58-69 | a reaction with no inputs and no outputs is named `machine__into_` |
| Ast.VarNameHasNoDash | src/ast.rs:58-69 | an identifier never contains `-` |
| Ast.VarNameExcludes | src/ast.rs:58-69 | a character that is not a digit, not in `machine_into`, and in no symbol name, is not in the identifier |
| Ast.VarNameIgnoresCostAndLabel | src/ast.rs:50-70 | the identifier is the same whatever the cost and label |
| Ast.VarNameFollowsIterationOrder | src/ast.rs:61-68 | two reactions with equal input maps, iterated in different orders, get different identifiers |
| Ast.VarNameMergesDashAndUnderscore | src/ast.rs:63-67 | reactions on symbols `a-b` and `a_b` are different but get the same identifier |
| Strings.SplitJoin | src/main.rs:201-202 | splitting a join at its separator gives the parts back when no part holds the separator |
| Strings.SourceLines | src/main.rs:165 | definition of `str::lines`: split at `\n`, a final empty piece after a trailing newline dropped, and a `\r` ending a piece removed |
| Strings.SourceLinesRejoin | src/main.rs:165-167 | joining the lines with `\n` gives the text back with its final newline removed and each `\r` before a newline removed; text without `\r` only loses a final newline |
| Strings.SourceLinesOneLineEach | src/main.rs:165-167 | no line that `str::lines` yields holds a newline, and text without a newline is one line (none if empty) |
| Strings.NatToStringRoundTrip | src/ast.rs:63 | the decimal text of a multiplicity reads back as that multiplicity |
| Strings.IntToString | src/main.rs:190-193 | the text of a cost starts with `-` exactly when it is negative, followed by the digits of its magnitude |
| Strings.ReplaceDash | src/ast.rs:63 | `replace("-", "_")`: same length, every `-` becomes `_`, every other character stays, and no `-` remains |
| Strings.PadRight | src/main.rs:290 | `{:<width$}`: the text is kept as a prefix, filled with spaces to `width` and never cut |
| Merge.AddCount | src/main.rs:26 | `*res.entry(k).or_insert(0) += v`: the map view gains `v` at `k`, with an absent key counting as 0, and nothing else changes |
| Merge.AddEntries | src/main.rs:25-27 | adding every entry of `m` into `acc` gives the multiset sum of the two |
| Merge.MergeTerms | src/main.rs:21-31 | the result stands for the multiset sum: keys are those of either input, each count is the sum of the inputs' counts |
| Merge.SumCounts | src/main.rs:21-31 | the sum's keys are exactly the union of the keys, and each count is the sum with missing keys as 0 |
| Merge.MergeLaws | src/main.rs:21-31 | merging is commutative and associative, and the empty map is an identity |
| Compile.Contributions | src/main.rs:189-199 | the summands one symbol gets from the reactions on one side; every term names a reaction of the list (its contents are stated by `ContributionsExact`) |
| Compile.ContributionsExact | src/main.rs:189-199 | those terms come from exactly the reactions whose side holds the symbol, once each, in reaction order, each with that reaction's multiplicity and its cost or the weight |
| Compile.ContributionsIff | src/main.rs:189-199 | a term is among them if and only if some reaction gives it to the symbol |
| Compile.AllSymbolsExact | src/main.rs:212-216 | a symbol is in the collected set if and only if some reaction has it as input or output |
| Compile.Exempt | src/main.rs:220-224 | definition of the skip: a free input under either goal, or a weighted resource under a resource goal (stated set-wise by `BalanceSetByGoal`) |
| Compile.BalanceSetByGoal | src/main.rs:218-223 | a reactions goal spares exactly the free inputs, and a resource goal also spares its weighted resources |
| Compile.KeptExact | src/main.rs:219-224 | visiting a list of distinct symbols keeps exactly the non-exempt ones, each once |
| Compile.BalanceSymbolsExact | src/main.rs:212-223 | for any iteration order of the symbol set, the balanced symbols are exactly the balance set, each once |
| Compile.TargetConstraintExact | src/main.rs:185-207 | a target constraint's production comes from exactly the reactions producing the symbol and its consumption from exactly those consuming it, each as (multiplicity, reaction, cost) in reaction order, with `amount / in_time` as bound |
| Compile.BalanceConstraintExact | src/main.rs:226-244 | a balance constraint has production and consumption terms from exactly the producing and consuming reactions |
| Compile.WeightedTerms | src/main.rs:253-263 | the summands of the nested loop over weighted resources and reactions; every term names a reaction of the list |
| Compile.WeightedTermsConcat | src/main.rs:253-263 | the terms of two runs of weights are those of the first run followed by those of the second |
| Compile.WeightedTermsBlocks | src/main.rs:253-263 | the terms are one block per weighted resource, in weight order: for each position, the blocks before it, then exactly that resource's contributions scaled by its weight, then the blocks after it |
| Compile.WeightedTermsExact | src/main.rs:249-263 | each weighted term is a reaction holding a weighted resource on that side, with its multiplicity and the weight, and every such pair gives a term |
| Compile.Objective | src/main.rs:248-273 | definition: weighted consumption minus weighted production under a resource goal, the sum of all reaction variables under the reactions goal |
| Compile.ObjectiveExact | src/main.rs:247-273 | a reactions goal minimises every reaction's variable once in reaction order; a resource goal minimises exactly the weighted input terms minus exactly the weighted output terms, and each side is, for every weighted resource, the earlier resources' blocks, that resource's scaled contributions, then the later ones' blocks, so each (resource, reaction) pair gives one summand even when two are equal |
| Compile.DisplayName | src/main.rs:281 | definition: the reaction's label, or its identifier without one |
| Compile.MaxWidth | src/main.rs:276-285 | `max_width` is at least every shown name's length and equals one of them, or 0 without reactions |
| Compile.OutputAligned | src/main.rs:287-291 | every padded name is exactly `max_width` wide and starts with the reaction's label, or else its identifier |
| Compile.Model | src/main.rs:165-293 | the model's statements, section by section in the order the generator writes them; every reaction index in them names a reaction |
| Compile.BalanceConstraintsStep | src/main.rs:219-245 | visiting one more symbol adds its balance constraint unless it is exempt |
| Render.AtLeastLine | src/main.rs:206 | definition: the text of a target constraint |
| Render.BalancedLine | src/main.rs:244 | definition: the text of a balance constraint |
| Render.DrawLine | src/main.rs:268 | definition: the text of a resource objective |
| Render.ActivityLine | src/main.rs:271 | definition: the text of the reactions objective, variables joined by `+` |
| Render.EntryText | src/main.rs:290 | definition: one conditional print of the output directive |
| Render.EntryTextQuotes | src/main.rs:290 | splitting an entry at `"` gives exactly seven pieces: the guard on the reaction's variable, the padded name followed by ` =`, the value's display, the newline escape, the else-branch, its empty literal and `endif`, when no name holds `"` |
| Render.OutputLine | src/main.rs:293 | definition: the output directive, entries joined by `,` and a newline |
| Render.Line | src/main.rs:165-293 | definition: the text of each kind of statement, as each `writeln!` formats it |
| Render.SumTextSplits | src/main.rs:186-202 | splitting a sum's text at `+` gives back `0` and the summands in order, when no symbol name holds `+` |
| Render.DeclarationNamesReaction | src/main.rs:172-175 | a declaration names the reaction's identifier and holds no `-` |
| Render.LinesConcat | src/main.rs:165-293 | the text of consecutive sections is their texts one after another |
| Generate.Writer.WriteLine | src/main.rs:166 | a `writeln!` appends one line and keeps the earlier ones |
| Generate.Push | src/main.rs:192-198 | one reaction's step of the loop: the list goes from the summands of the reactions before `i` to those of the reactions up to and including `i`, and keeps what it started with |
| Generate.Collect | src/main.rs:189-199 | the loop over the reactions appends the summands of exactly `Contributions` for outputs to `production` and for inputs to `consumption` |
| Generate.EmitEcho | src/main.rs:165-167 | the source is written as one comment per line |
| Generate.EmitVariables | src/main.rs:169-175 | writes the heading and one declaration per reaction, in order |
| Generate.EmitNonNegative | src/main.rs:177-181 | writes the heading and one `>= 0` constraint per reaction, in order |
| Generate.EmitTargets | src/main.rs:183-207 | writes the heading and one target constraint per entry of the target's constraints |
| Generate.EmitTargetConstraint | src/main.rs:185-206 | writes the target constraint of one entry: net production at least the amount over `in_time` |
| Generate.CollectSymbols | src/main.rs:212-216 | the set built equals the set of all reaction symbols |
| Generate.IsExempt | src/main.rs:220-224 | the loop skips a symbol exactly when it is exempt under the goal |
| Generate.EmitBalanceConstraint | src/main.rs:226-244 | writes the balance constraint of one symbol |
| Generate.EmitBalance | src/main.rs:209-245 | writes the heading and one balance constraint per non-exempt symbol, in an order that enumerates every reaction symbol once |
| Generate.CollectWeighted | src/main.rs:250-266 | the weighted summands of all resources, in the resources' iteration order |
| Generate.EmitObjective | src/main.rs:248-273 | writes the one objective of the goal |
| Generate.EmitDrawObjective | src/main.rs:249-269 | under a resource goal, writes weighted consumption minus weighted production as the one objective |
| Generate.EmitActivityObjective | src/main.rs:270-272 | under the reactions goal, writes the sum of every reaction variable, in order |
| Generate.OutputExpr | src/main.rs:288-290 | the print of one reaction is the output entry for its shown name and the width; when no name holds `"`, its guard tests the reaction's variable and its first literal is exactly the shown name padded to the width, then ` =` |
| Generate.OutputExprs | src/main.rs:287-291 | one conditional print per reaction, in order, its shown name padded to the width |
| Generate.EmitOutput | src/main.rs:275-293 | writes the output directive, names padded to `max_width` |
| Generate.EmitPreamble | src/main.rs:165-207 | writes the echo, the declarations, the bounds and the target constraints, one section after another |
| Generate.EmitClosing | src/main.rs:247-293 | writes a blank line, the objective and the output directive |
| Generate.Generate | src/main.rs:154-296 | without a goal, reports the target's name and span and writes nothing; otherwise writes exactly the model's text, for some enumeration of the symbol set |
| Shape.ModelDeclarations | src/main.rs:172-175 | the model declares exactly one variable per reaction, in reaction order, and nowhere else |
| Shape.ModelBounds | src/main.rs:179-181 | the model has exactly one `>= 0` constraint per reaction, in reaction order |
| Shape.ModelRequirements | src/main.rs:185-207 | the model has exactly one target constraint per entry of the target's constraints, for that symbol and amount |
| Shape.ModelBalances | src/main.rs:212-245 | the model's balance constraints are for exactly the balance set, each symbol once |
| Shape.ModelObjective | src/main.rs:247-273 | the model has exactly one objective, the one the goal calls for |
| Shape.ModelOutput | src/main.rs:275-293 | the model has exactly one output directive, with one entry per reaction |
| Expected.ExpectedStr | src/main.rs:298-310 | empty for no alternatives; exactly the word followed by the alternative for one; otherwise starts with the word and ends with the last alternative, preceded by ` or ` when there are two or more |
| Expected.ExpectedStrSplits | src/main.rs:298-310 | after the word, splitting at commas gives all but the last two alternatives, then `<second to last> or <last>`, when no alternative holds a comma |
| Scenarios.NetworkSymbols | src/main.rs:212-216 | the example network's symbols are A, B and C |
| Scenarios.BalanceUnderReactions | src/main.rs:219-223 | in the example under a reactions goal, B and C are balanced |
| Scenarios.BalanceUnderResources | src/main.rs:219-223 | in the example under a resource goal on C, only B is balanced |
| Scenarios.TargetForC | src/main.rs:185-207 | the example's constraint for C has R2's term (1, cost 2) as production and no consumption |
| Scenarios.ResourceObjective | src/main.rs:249-268 | the example's resource objective has no consumption and R2's term with weight 1 as production |
| Scenarios.DuplicateSummands | src/main.rs:253-263 | a reaction taking one A and one B, under weights 1 on A and B, gives two equal consumption summands, one per weighted resource |
| Scenarios.ActivityObjective | src/main.rs:270-271 | the example's reactions objective sums both reactions' variables |
| Scenarios.NetworkNames | src/ast.rs:58-69 | the example's reactions are named `machine_2A_into_1B` and `machine_1B_into_1C` |

## Left out

- `main` (src/main.rs:54-152) is not modelled. It covers command-line parsing, reading the source file, creating `program.mzn`, querying the core count, and running `minizinc`: all input/output and process handling.
- `exit_report` and diagnostic rendering through `minos` are not modelled; they are an external library. A missing goal is modelled as the result `Fail(MissingGoal(name, span))`, with nothing written.
- `parse` and the `grammar` module (src/main.rs:312-357) are not modelled. The generated parser is not available. `Item` and `TargetItem` (src/ast.rs:14-25) are used only there.
- Write errors are not modelled. `Writer.WriteLine` always succeeds, so the `?` error path of each `writeln!` is absent.
- Nothing about real arithmetic is modelled. `var float`, `show_float`, and the divisions `/ cost` and `/ in_time` are only emitted text, evaluated by the solver.
- Merge.MergeTerms: does not model `usize` overflow of `+=`. Multiplicities are unbounded `nat`, as are `in_time` and spans. Costs are unbounded `int` rather than `isize`.
- Hash map and hash set iteration order is not modelled as any particular order:
  - a term map is modelled by one fixed, arbitrary entry order;
  - the balance loop's order is whatever enumeration of the symbol set the method picks;
  - `Generate.Generate` promises the model's text for some such enumeration.
- `Program.targets` is not modelled beyond its type. The target is looked up by name in `main`, and the generator is handed the target directly.
- Symbol lifetimes and `Cow` labels are not modelled. Names and labels are plain strings, and a label's length is its number of characters, as `chars().count()` gives.
