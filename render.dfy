/** The MiniZinc text of each statement: the `format!` strings of `generate_minizinc`
    (src/main.rs), one string per `writeln!`. */
module Render {
  import opened Strings
  import opened Ast
  import opened Compile

  /** `{i} * {var} / {cost}` or `{i} * {var} * {weight}`. */
  function SummandText(rs: seq<Reaction>, t: LinTerm): string
    requires t.reaction < |rs|
  {
    match t
    case Rate(m, i, c) => NatToString(m) + " * " + VarName(rs[i]) + " / " + IntToString(c)
    case Weighted(m, i, w) => NatToString(m) + " * " + VarName(rs[i]) + " * " + NatToString(w)
  }

  /** The text of each term, in order. */
  function Summands(rs: seq<Reaction>, ts: seq<LinTerm>): (texts: seq<string>)
    requires TermsIndexed(ts, |rs|)
    ensures |texts| == |ts|
    decreases |ts|
  {
    if |ts| == 0 then [] else [SummandText(rs, ts[0])] + Summands(rs, ts[1..])
  }

  lemma {:induction false} SummandsConcat(rs: seq<Reaction>, a: seq<LinTerm>, b: seq<LinTerm>)
    requires TermsIndexed(a, |rs|) && TermsIndexed(b, |rs|)
    ensures TermsIndexed(a + b, |rs|)
    ensures Summands(rs, a + b) == Summands(rs, a) + Summands(rs, b)
    decreases |a|
  {
    IndexedConcat(rs, a, b);
    if |a| == 0 {
      assert a + b == b;
    } else {
      assert (a + b)[1..] == a[1..] + b;
      SummandsConcat(rs, a[1..], b);
      var first := SummandText(rs, a[0]);
      assert Summands(rs, a + b) == [first] + Summands(rs, a[1..] + b);
      ConsAppend(first, Summands(rs, a[1..]), Summands(rs, b), Summands(rs, a + b), Summands(rs, a));
    }
  }

  lemma ConsAppend(x: string, p: seq<string>, q: seq<string>, whole: seq<string>, left: seq<string>)
    requires whole == [x] + (p + q) && left == [x] + p
    ensures whole == left + q
  {
  }

  lemma IndexedConcat(rs: seq<Reaction>, a: seq<LinTerm>, b: seq<LinTerm>)
    requires TermsIndexed(a, |rs|) && TermsIndexed(b, |rs|)
    ensures TermsIndexed(a + b, |rs|)
  {
    forall i | 0 <= i < |a + b|
      ensures (a + b)[i].reaction < |rs|
    {
      if i >= |a| {
        assert (a + b)[i] == b[i - |a|];
      }
    }
  }

  /** The `i`th summand is the text of the `i`th term. */
  lemma {:induction false} SummandAt(rs: seq<Reaction>, ts: seq<LinTerm>, i: nat)
    requires TermsIndexed(ts, |rs|) && i < |ts|
    ensures Summands(rs, ts)[i] == SummandText(rs, ts[i])
    decreases i
  {
    if i > 0 {
      SummandAt(rs, ts[1..], i - 1);
    }
  }

  lemma SummandExcludesPlus(rs: seq<Reaction>, t: LinTerm)
    requires t.reaction < |rs| && NamesExclude(rs[t.reaction], '+')
    ensures '+' !in SummandText(rs, t)
  {
    VarNameExcludes(rs[t.reaction], '+');
    var v := VarName(rs[t.reaction]);
    var m := NatToString(t.mult);
    DigitsExclude(m, '+');
    match t
    case Rate(_, _, c) =>
      IntToStringExcludes(c, '+');
      ExcludedFromFive('+', m, " * ", v, " / ", IntToString(c));
    case Weighted(_, _, w) =>
      DigitsExclude(NatToString(w), '+');
      ExcludedFromFive('+', m, " * ", v, " * ", NatToString(w));
  }

  lemma ExcludedFromFive(c: char, a: string, b: string, d: string, e: string, f: string)
    requires c !in a && c !in b && c !in d && c !in e && c !in f
    ensures c !in a + b + d + e + f
  {
  }

  /** A sum as the source builds it: a leading `0`, then every term, joined with `+`. */
  function SumText(rs: seq<Reaction>, ts: seq<LinTerm>): string
    requires TermsIndexed(ts, |rs|)
  {
    Join(["0"] + Summands(rs, ts), "+")
  }

  /** The summands can be read back from a sum's text by splitting at `+`, as long as no
      symbol name holds a `+`: the leading `0`, then one piece per term, in order. */
  lemma SumTextSplits(rs: seq<Reaction>, ts: seq<LinTerm>)
    requires TermsIndexed(ts, |rs|)
    requires forall i :: 0 <= i < |rs| ==> NamesExclude(rs[i], '+')
    ensures Split(SumText(rs, ts), '+') == ["0"] + Summands(rs, ts)
  {
    var summands := Summands(rs, ts);
    SummandsExcludePlus(rs, ts);
    var parts := ["0"] + summands;
    forall i | 0 <= i < |parts|
      ensures '+' !in parts[i]
    {
      if i > 0 {
        assert parts[i] == summands[i - 1];
      }
    }
    SplitJoin(parts, '+');
  }

  lemma SummandsExcludePlus(rs: seq<Reaction>, ts: seq<LinTerm>)
    requires TermsIndexed(ts, |rs|)
    requires forall i :: 0 <= i < |rs| ==> NamesExclude(rs[i], '+')
    ensures forall j :: 0 <= j < |ts| ==> '+' !in Summands(rs, ts)[j]
  {
    forall j | 0 <= j < |ts|
      ensures '+' !in Summands(rs, ts)[j]
    {
      SummandAt(rs, ts, j);
      SummandExcludesPlus(rs, ts[j]);
    }
  }

  /** One element of the output directive: print the padded name and the value when the
      solved value is positive, else nothing. */
  function EntryText(rs: seq<Reaction>, e: OutputEntry): string
    requires e.reaction < |rs|
  {
    var v := VarName(rs[e.reaction]);
    "if fix(" + v + ") > 0 then \"" + PadRight(e.name, e.width) + " =\" ++ show_float(8, 5, "
      + v + ") ++ \"\\n\" else \"\" endif"
  }

  /** The entry's one string literal that carries a name holds exactly the padded name and
      ` =`: splitting the entry at `"` gives the guard on the reaction's variable, that
      literal, the value's display, the newline literal, the else-branch and its empty
      literal. Labels are written unescaped, so this holds when no name holds a `"`. */
  lemma EntryTextQuotes(rs: seq<Reaction>, e: OutputEntry)
    requires e.reaction < |rs| && NamesExclude(rs[e.reaction], '"') && '"' !in e.name
    ensures var v := VarName(rs[e.reaction]);
      Split(EntryText(rs, e), '"')
        == ["if fix(" + v + ") > 0 then ", PadRight(e.name, e.width) + " =",
            " ++ show_float(8, 5, " + v + ") ++ ", "\\n", " else ", "", " endif"]
  {
    var v := VarName(rs[e.reaction]);
    var pad := PadRight(e.name, e.width);
    PaddedExcludes(e.name, e.width, '"');
    VarNameExcludes(rs[e.reaction], '"');
    var p0, p1, p2 := "if fix(" + v + ") > 0 then ", pad + " =", " ++ show_float(8, 5, " + v + ") ++ ";
    GuardAndValueExclude(v);
    EntryTextPieces(rs, e);
    SplitEntry(p0, p1, p2);
  }

  /** The split of an entry, given its three pieces that are not literals. */
  lemma SplitEntry(p0: string, p1: string, p2: string)
    requires '"' !in p0 && '"' !in p1 && '"' !in p2
    ensures var q := ['"'];
      Split(p0 + (q + (p1 + (q + (p2 + (q + ("\\n" + (q + (" else " + (q + ("" + (q + " endif"))))))))))), '"')
        == [p0, p1, p2, "\\n", " else ", "", " endif"]
  {
    SplitSeven(p0, p1, p2, "\\n", " else ", "", " endif", '"');
  }

  /** An entry is its seven quote-free pieces with a `"` between each two. */
  lemma EntryTextPieces(rs: seq<Reaction>, e: OutputEntry)
    requires e.reaction < |rs|
    ensures var v := VarName(rs[e.reaction]); var q := ['"'];
      EntryText(rs, e)
        == ("if fix(" + v + ") > 0 then ") + (q + ((PadRight(e.name, e.width) + " =") + (q + ((" ++ show_float(8, 5, " + v + ") ++ ")
           + (q + ("\\n" + (q + (" else " + (q + ("" + (q + " endif")))))))))))
  {
    var v := VarName(rs[e.reaction]);
    EntryLiterals();
    Regroup("if fix(", v, ") > 0 then ", PadRight(e.name, e.width), " =", " ++ show_float(8, 5, ", ") ++ ", "\\n", " else ", " endif", ['"']);
  }

  /** Padding adds only spaces, so a character other than a space stays absent. */
  lemma PaddedExcludes(name: string, width: nat, c: char)
    requires c !in name && c != ' '
    ensures c !in PadRight(name, width)
  {
    var pad := PadRight(name, width);
    forall k | 0 <= k < |pad|
      ensures pad[k] != c
    {
      if k < |name| {
        assert pad[k] == pad[..|name|][k];
      }
    }
  }

  /** The literal parts of an entry, cut at their quotes. */
  lemma EntryLiterals()
    ensures ") > 0 then \"" == ") > 0 then " + ['"']
    ensures " =\" ++ show_float(8, 5, " == " =" + ['"'] + " ++ show_float(8, 5, "
    ensures ") ++ \"\\n\" else \"\" endif" == ") ++ " + ['"'] + "\\n" + ['"'] + " else " + ['"'] + ['"'] + " endif"
  {
  }

  lemma Regroup(a: string, v: string, b1: string, pad: string, c1: string, c2: string,
                d1: string, d2: string, d3: string, d4: string, q: string)
    ensures a + v + (b1 + q) + pad + (c1 + q + c2) + v + (d1 + q + d2 + q + d3 + q + q + d4)
      == (a + v + b1) + (q + ((pad + c1) + (q + ((c2 + v + d1) + (q + (d2 + (q + (d3 + (q + ("" + (q + d4)))))))))))
  {
  }

  /** Seven pieces free of `c`, joined by `c`, split back into the pieces. */
  lemma SplitSeven(p0: string, p1: string, p2: string, p3: string, p4: string, p5: string, p6: string, c: char)
    requires c !in p0 && c !in p1 && c !in p2 && c !in p3 && c !in p4 && c !in p5 && c !in p6
    ensures var q := [c];
      Split(p0 + (q + (p1 + (q + (p2 + (q + (p3 + (q + (p4 + (q + (p5 + (q + p6))))))))))), c)
        == [p0, p1, p2, p3, p4, p5, p6]
  {
    var q := [c];
    var r5 := p5 + (q + p6);
    var r4 := p4 + (q + r5);
    var r3 := p3 + (q + r4);
    var r2 := p2 + (q + r3);
    var r1 := p1 + (q + r2);
    SplitAfter(p0, r1, c);
    SplitAfter(p1, r2, c);
    SplitAfter(p2, r3, c);
    SplitAfter(p3, r4, c);
    SplitAfter(p4, r5, c);
    SplitAfter(p5, p6, c);
    SplitWithout(p6, c);
  }

  lemma SplitAfter(a: string, b: string, c: char)
    requires c !in a
    ensures Split(a + ([c] + b), c) == [a] + Split(b, c)
  {
    SplitAt(a, b, c);
    assert a + ([c] + b) == a + [c] + b;
  }

  /** The pieces around the identifier hold no `"` when the identifier holds none. */
  lemma GuardAndValueExclude(v: string)
    requires '"' !in v
    ensures '"' !in "if fix(" + v + ") > 0 then " && '"' !in " ++ show_float(8, 5, " + v + ") ++ "
  {
    ExcludedFromThree('"', "if fix(", v, ") > 0 then ");
    ExcludedFromThree('"', " ++ show_float(8, 5, ", v, ") ++ ");
  }

  lemma ExcludedFromThree(c: char, a: string, b: string, d: string)
    requires c !in a && c !in b && c !in d
    ensures c !in a + b + d
  {
  }

  function DeclLine(rs: seq<Reaction>, i: nat): string
    requires i < |rs|
  {
    "var float: " + VarName(rs[i]) + ";"
  }

  function NonNegativeLine(rs: seq<Reaction>, i: nat): string
    requires i < |rs|
  {
    "constraint " + VarName(rs[i]) + " >= 0;"
  }

  /** `constraint (<production>) - (<consumption>) >= <amount> / <in_time>;` */
  function AtLeastLine(rs: seq<Reaction>, p: seq<LinTerm>, c: seq<LinTerm>, amount: nat, inTime: nat): string
    requires TermsIndexed(p, |rs|) && TermsIndexed(c, |rs|)
  {
    "constraint (" + SumText(rs, p) + ") - (" + SumText(rs, c) + ") >= "
      + NatToString(amount) + " / " + NatToString(inTime) + ";"
  }

  /** `constraint (<production>) >= <consumption>;` */
  function BalancedLine(rs: seq<Reaction>, p: seq<LinTerm>, c: seq<LinTerm>): string
    requires TermsIndexed(p, |rs|) && TermsIndexed(c, |rs|)
  {
    "constraint (" + SumText(rs, p) + ") >= " + SumText(rs, c) + ";"
  }

  /** `solve minimize (<consumption>) - (<production>);` */
  function DrawLine(rs: seq<Reaction>, c: seq<LinTerm>, p: seq<LinTerm>): string
    requires TermsIndexed(p, |rs|) && TermsIndexed(c, |rs|)
  {
    "solve minimize (" + SumText(rs, c) + ") - (" + SumText(rs, p) + ");"
  }

  /** `solve minimize` the listed variables joined with `+`. */
  function ActivityLine(rs: seq<Reaction>, ids: seq<nat>): string
    requires forall i :: i in ids ==> i < |rs|
  {
    "solve minimize " + Join(seq(|ids|, k requires 0 <= k < |ids| => assert ids[k] in ids; VarName(rs[ids[k]])), "+") + ";"
  }

  /** `output [...]` with the entries joined by a comma and a newline. */
  function OutputLine(rs: seq<Reaction>, es: seq<OutputEntry>): string
    requires forall e :: e in es ==> e.reaction < |rs|
  {
    "output [" + Join(seq(|es|, k requires 0 <= k < |es| => assert es[k] in es; EntryText(rs, es[k])), ",\n") + "];"
  }

  /** The text one `writeln!` writes for a statement (without its line terminator). */
  function Line(rs: seq<Reaction>, st: Statement): string
    requires Indexed(st, |rs|)
  {
    match st
    case Comment(text) => "% " + text
    case Blank => ""
    case VarDecl(i) => DeclLine(rs, i)
    case NonNegative(i) => NonNegativeLine(rs, i)
    case AtLeast(_, p, c, amount, inTime) => AtLeastLine(rs, p, c, amount, inTime)
    case Balanced(_, p, c) => BalancedLine(rs, p, c)
    case MinimizeDraw(c, p) => DrawLine(rs, c, p)
    case MinimizeActivity(ids) => ActivityLine(rs, ids)
    case Output(es) => OutputLine(rs, es)
  }

  /** The texts of a list of statements, in order. */
  function Lines(rs: seq<Reaction>, stmts: seq<Statement>): (ls: seq<string>)
    requires AllIndexed(stmts, |rs|)
    ensures |ls| == |stmts|
  {
    seq(|stmts|, i requires 0 <= i < |stmts| => Line(rs, stmts[i]))
  }

  /** A section heading: a blank line, then the title as a comment. */
  lemma HeaderLines(rs: seq<Reaction>, title: string)
    ensures Lines(rs, [Blank, Comment(title)]) == ["", "% " + title]
  {
    var l := Lines(rs, [Blank, Comment(title)]);
    assert l[0] == "" && l[1] == "% " + title;
  }

  /** A heading followed by a body: the two heading lines, then the body's lines. */
  lemma HeadedLines(rs: seq<Reaction>, title: string, body: seq<Statement>)
    requires AllIndexed(body, |rs|)
    ensures AllIndexed([Blank, Comment(title)] + body, |rs|)
    ensures Lines(rs, [Blank, Comment(title)] + body) == ["", "% " + title] + Lines(rs, body)
  {
    LinesConcat(rs, [Blank, Comment(title)], body);
    HeaderLines(rs, title);
  }

  /** Three statements give three lines. */
  lemma LinesThree(rs: seq<Reaction>, x: Statement, y: Statement, z: Statement)
    requires Indexed(x, |rs|) && Indexed(y, |rs|) && Indexed(z, |rs|)
    ensures AllIndexed([x, y, z], |rs|)
    ensures Lines(rs, [x, y, z]) == [Line(rs, x), Line(rs, y), Line(rs, z)]
  {
    var l := Lines(rs, [x, y, z]);
    assert l[0] == Line(rs, x) && l[1] == Line(rs, y) && l[2] == Line(rs, z);
  }

  /** The text of six consecutive sections. */
  lemma LinesSix(rs: seq<Reaction>, a: seq<Statement>, b: seq<Statement>, c: seq<Statement>,
                 d: seq<Statement>, e: seq<Statement>, f: seq<Statement>)
    requires AllIndexed(a, |rs|) && AllIndexed(b, |rs|) && AllIndexed(c, |rs|)
    requires AllIndexed(d, |rs|) && AllIndexed(e, |rs|) && AllIndexed(f, |rs|)
    ensures AllIndexed(a + b + c + d + e + f, |rs|)
    ensures Lines(rs, a + b + c + d + e + f)
      == Lines(rs, a) + Lines(rs, b) + Lines(rs, c) + Lines(rs, d) + Lines(rs, e) + Lines(rs, f)
  {
    LinesConcat(rs, a, b);
    LinesConcat(rs, a + b, c);
    LinesConcat(rs, a + b + c, d);
    LinesConcat(rs, a + b + c + d, e);
    LinesConcat(rs, a + b + c + d + e, f);
  }

  /** The text of a longer prefix is one more line. */
  lemma LinesPrefix(rs: seq<Reaction>, stmts: seq<Statement>, j: nat)
    requires AllIndexed(stmts, |rs|) && j < |stmts|
    ensures AllIndexed(stmts[..j], |rs|) && AllIndexed(stmts[..j + 1], |rs|)
    ensures Lines(rs, stmts[..j + 1]) == Lines(rs, stmts[..j]) + [Line(rs, stmts[j])]
  {
    AllIndexedPrefix(rs, stmts, j);
    AllIndexedPrefix(rs, stmts, j + 1);
    var a, b := Lines(rs, stmts[..j + 1]), Lines(rs, stmts[..j]) + [Line(rs, stmts[j])];
    assert |a| == |b|;
    forall k | 0 <= k <= j
      ensures a[k] == b[k]
    {
      assert stmts[..j + 1][k] == stmts[k];
      if k < j {
        assert stmts[..j][k] == stmts[k];
      }
    }
  }

  lemma AllIndexedPrefix(rs: seq<Reaction>, stmts: seq<Statement>, j: nat)
    requires AllIndexed(stmts, |rs|) && j <= |stmts|
    ensures AllIndexed(stmts[..j], |rs|)
  {
    forall st | st in stmts[..j]
      ensures Indexed(st, |rs|)
    {
      var k :| 0 <= k < j && stmts[..j][k] == st;
      assert stmts[k] in stmts;
    }
  }

  /** Rendering distributes over concatenation, so sections can be written one by one. */
  lemma LinesConcat(rs: seq<Reaction>, a: seq<Statement>, b: seq<Statement>)
    requires AllIndexed(a, |rs|) && AllIndexed(b, |rs|)
    ensures AllIndexed(a + b, |rs|)
    ensures Lines(rs, a + b) == Lines(rs, a) + Lines(rs, b)
  {
  }

  /** A variable declaration names the reaction's identifier, which has no `-`, so
      MiniZinc reads it as one identifier. */
  lemma DeclarationNamesReaction(rs: seq<Reaction>, i: nat)
    requires i < |rs|
    ensures Line(rs, VarDecl(i)) == "var float: " + VarName(rs[i]) + ";"
    ensures '-' !in Line(rs, VarDecl(i))
  {
    VarNameHasNoDash(rs[i]);
  }
}
