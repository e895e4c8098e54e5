/** The reaction-network data the parser produces (src/ast.rs), and the identifier a
    reaction's variable is given in the generated MiniZinc model. */
module Ast {
  import opened Strings

  datatype Option<+T> = None | Some(value: T)

  /** A species or resource, identified by its name. */
  datatype Symbol = Symbol(name: string)

  predicate DistinctKeys(entries: seq<(Symbol, nat)>) {
    forall i, j :: 0 <= i < j < |entries| ==> entries[i].0 != entries[j].0
  }

  /** `ReactionTerms`, a `HashMap<Symbol, usize>` from symbol to multiplicity, given as
      its entries in the map's iteration order. That order is whatever the hash map
      yields: nothing here depends on it being sorted or stable between equal maps. */
  type Terms = entries: seq<(Symbol, nat)> | DistinctKeys(entries)

  /** The map a list of entries stands for (with distinct keys, the entry order is immaterial). */
  function AsMap(t: seq<(Symbol, nat)>): map<Symbol, nat>
    decreases |t|
  {
    if |t| == 0 then map[] else AsMap(t[..|t| - 1])[t[|t| - 1].0 := t[|t| - 1].1]
  }

  /** Each entry is in the map view, and the map view holds nothing else. */
  lemma {:induction false} AsMapEntries(t: Terms)
    ensures forall i :: 0 <= i < |t| ==> t[i].0 in AsMap(t) && AsMap(t)[t[i].0] == t[i].1
    ensures forall s :: s in AsMap(t) ==> exists i :: 0 <= i < |t| && t[i].0 == s
    decreases |t|
  {
    if |t| > 0 {
      var n := |t| - 1;
      var front: Terms := t[..n];
      AsMapEntries(front);
      forall i | 0 <= i < n
        ensures t[i].0 != t[n].0 && front[i] == t[i]
      {
      }
    }
  }

  /** A map that holds exactly the entries of a term list is its map view. */
  lemma AsMapUnique(t: Terms, m: map<Symbol, nat>)
    requires forall i :: 0 <= i < |t| ==> t[i].0 in m && m[t[i].0] == t[i].1
    requires forall s :: s in m ==> exists i :: 0 <= i < |t| && t[i].0 == s
    ensures AsMap(t) == m
  {
    AsMapEntries(t);
    assert AsMap(t).Keys == m.Keys;
  }

  /** Extending a prefix of a term list by its next entry adds a key not seen before. */
  lemma AsMapPrefix(t: Terms, j: nat)
    requires j < |t|
    ensures t[j].0 !in AsMap(t[..j])
    ensures AsMap(t[..j + 1]) == AsMap(t[..j])[t[j].0 := t[j].1]
  {
    var front: Terms := t[..j];
    AsMapEntries(front);
    assert t[..j + 1][..j] == front;
    forall i | 0 <= i < j
      ensures front[i].0 != t[j].0
    {
      assert front[i] == t[i];
    }
  }

  /** Changing the multiplicity of one entry changes only that key of the map view. */
  lemma AsMapUpdate(t: Terms, i: nat, w: nat)
    requires i < |t|
    ensures DistinctKeys(t[i := (t[i].0, w)])
    ensures AsMap(t[i := (t[i].0, w)]) == AsMap(t)[t[i].0 := w]
  {
    var r: Terms := t[i := (t[i].0, w)];
    var m := AsMap(t)[t[i].0 := w];
    AsMapEntries(t);
    forall s | s in m
      ensures exists j :: 0 <= j < |r| && r[j].0 == s
    {
      var j :| 0 <= j < |t| && t[j].0 == s;
      assert r[j].0 == s;
    }
    AsMapUnique(r, m);
  }

  /** Appending an entry with a new key adds that key to the map view. */
  lemma AsMapAppend(t: Terms, k: Symbol, v: nat)
    requires k !in AsMap(t)
    ensures DistinctKeys(t + [(k, v)])
    ensures AsMap(t + [(k, v)]) == AsMap(t)[k := v]
  {
    AsMapEntries(t);
    assert (t + [(k, v)])[..|t|] == t;
  }

  /** The position of `k` among the entries, if it is there. */
  function Find(t: seq<(Symbol, nat)>, k: Symbol): (r: Option<nat>)
    ensures r.Some? ==> r.value < |t| && t[r.value].0 == k
    ensures r.None? ==> forall i :: 0 <= i < |t| ==> t[i].0 != k
    decreases |t|
  {
    if |t| == 0 then None
    else if t[|t| - 1].0 == k then Some(|t| - 1)
    else Find(t[..|t| - 1], k)
  }

  /** `HashMap::get`: the multiplicity of `k`, if it is a key. */
  function Get(t: Terms, k: Symbol): (r: Option<nat>)
    ensures r == if k in AsMap(t) then Some(AsMap(t)[k]) else None
  {
    AsMapEntries(t);
    match Find(t, k)
    case Some(i) => Some(t[i].1)
    case None => None
  }

  /** The symbols of a term list, in iteration order. */
  function KeysOf(t: Terms): (ks: seq<Symbol>)
    ensures |ks| == |t|
    ensures forall s :: s in ks <==> s in AsMap(t)
  {
    AsMapEntries(t);
    var ks := seq(|t|, i requires 0 <= i < |t| => t[i].0);
    assert forall i :: 0 <= i < |t| ==> ks[i] == t[i].0;
    ks
  }

  /** `Cost(isize)`: the number of cycles one run of a reaction takes. The source does not
      check it, so it may be zero or negative. */
  datatype Cost = Cost(value: int)

  /** What a target minimises: the weighted net draw of some resources, or total activity. */
  datatype Goal = Resources(weights: Terms) | Reactions

  /** A named optimisation scenario: free inputs, minimum productions over `inTime`, and
      an optional goal (a target without one cannot be generated). */
  datatype Target = Target(
    inputs: seq<Symbol>,
    constraints: Terms,
    inTime: nat,
    name: string,
    goal: Option<Goal>,
    span: (nat, nat))

  datatype Reaction = Reaction(inputs: Terms, outputs: Terms, cost: Cost, labelText: Option<string>)

  /** Targets by name, and reactions in declaration order. */
  datatype Program = Program(targets: map<string, Target>, reactions: seq<Reaction>)

  /** One term of a reaction side in an identifier: multiplicity, then the symbol's name
      with `-` turned into `_`. */
  function TermText(s: Symbol, multiplicity: nat): string {
    NatToString(multiplicity) + ReplaceDash(s.name)
  }

  /** A reaction side in an identifier: its terms, in iteration order, joined by `_`. */
  function SideText(t: Terms): string {
    Join(seq(|t|, i requires 0 <= i < |t| => TermText(t[i].0, t[i].1)), "_")
  }

  /** `Reaction::var_name`: `machine_<inputs>_into_<outputs>`. */
  function VarName(r: Reaction): string {
    "machine_" + SideText(r.inputs) + "_into_" + SideText(r.outputs)
  }

  /** A term's text splits back into the multiplicity's digits and the rewritten name,
      unless the name itself starts with a digit; the digits read back as the multiplicity. */
  lemma TermTextDecodes(s: Symbol, multiplicity: nat)
    requires s.name == "" || !IsDigit(s.name[0])
    ensures LeadingDigits(TermText(s, multiplicity)) == (NatToString(multiplicity), ReplaceDash(s.name))
    ensures DigitsValue(LeadingDigits(TermText(s, multiplicity)).0) == multiplicity
  {
    var name := ReplaceDash(s.name);
    assert name == "" || !IsDigit(name[0]);
    LeadingDigitsOf(NatToString(multiplicity), name);
    NatToStringRoundTrip(multiplicity);
  }

  /** A side with no terms contributes nothing between the fixed parts of the identifier. */
  lemma EmptySides(r: Reaction)
    requires |r.inputs| == 0 && |r.outputs| == 0
    ensures VarName(r) == "machine__into_"
  {
  }

  /** The identifier never contains `-`, which MiniZinc would read as subtraction:
      multiplicities are unsigned and names have their dashes rewritten. */
  lemma {:induction false} VarNameHasNoDash(r: Reaction)
    ensures '-' !in VarName(r)
  {
    SideHasNoDash(r.inputs);
    SideHasNoDash(r.outputs);
  }

  lemma {:induction false} SideHasNoDash(t: Terms)
    ensures '-' !in SideText(t)
  {
    var parts := seq(|t|, i requires 0 <= i < |t| => TermText(t[i].0, t[i].1));
    forall i | 0 <= i < |parts|
      ensures '-' !in parts[i]
    {
      var digits := NatToString(t[i].1);
      assert forall k :: 0 <= k < |digits| ==> digits[k] != '-';
    }
    JoinExcludes(parts, "_", '-');
  }

  /** No symbol name on either side of `r` holds `c`. */
  predicate NamesExclude(r: Reaction, c: char) {
    && (forall i :: 0 <= i < |r.inputs| ==> c !in r.inputs[i].0.name)
    && (forall i :: 0 <= i < |r.outputs| ==> c !in r.outputs[i].0.name)
  }

  /** A character that is not a digit, not `_`, and in no symbol name is in no side text. */
  lemma {:induction false} SideExcludes(t: Terms, c: char)
    requires c != '_' && !IsDigit(c)
    requires forall i :: 0 <= i < |t| ==> c !in t[i].0.name
    ensures c !in SideText(t)
  {
    var parts := seq(|t|, i requires 0 <= i < |t| => TermText(t[i].0, t[i].1));
    forall i | 0 <= i < |parts|
      ensures c !in parts[i]
    {
      var digits := NatToString(t[i].1);
      assert forall k :: 0 <= k < |digits| ==> digits[k] != c;
      var name := ReplaceDash(t[i].0.name);
      forall k | 0 <= k < |name|
        ensures name[k] != c
      {
        assert t[i].0.name[k] in t[i].0.name;
      }
    }
    JoinExcludes(parts, "_", c);
  }

  /** Such a character, absent also from the fixed `machine_` and `_into_`, is absent
      from the identifier. */
  lemma VarNameExcludes(r: Reaction, c: char)
    requires c !in "machine_into" && !IsDigit(c)
    requires NamesExclude(r, c)
    ensures c !in VarName(r)
  {
    SideExcludes(r.inputs, c);
    SideExcludes(r.outputs, c);
  }

  /** The identifier is a function of the two sides alone: cost and label play no part. */
  lemma VarNameIgnoresCostAndLabel(r: Reaction, cost: Cost, shown: Option<string>)
    ensures VarName(r.(cost := cost, labelText := shown)) == VarName(r)
  {
  }

  /** The text of a two-term side whose names have no `-`. */
  lemma TwoTermSide(x: Symbol, y: Symbol, t: Terms)
    requires t == [(x, 1), (y, 1)]
    requires '-' !in x.name && '-' !in y.name
    ensures SideText(t) == "1" + x.name + "_1" + y.name
  {
    assert NatToString(1) == "1";
    assert ReplaceDash(x.name) == x.name && ReplaceDash(y.name) == y.name;
    var parts := seq(|t|, i requires 0 <= i < |t| => TermText(t[i].0, t[i].1));
    assert parts == ["1" + x.name, "1" + y.name];
    assert parts[1..] == ["1" + y.name];
    assert Join(parts, "_") == ("1" + x.name) + "_" + ("1" + y.name);
  }

  /** The map view of two distinct entries does not depend on their order. */
  lemma TwoTermMap(x: Symbol, y: Symbol, t1: Terms, t2: Terms)
    requires t1 == [(x, 1), (y, 1)] && t2 == [(y, 1), (x, 1)]
    ensures AsMap(t1) == map[x := 1, y := 1] == AsMap(t2)
  {
    assert t1[..1] == [(x, 1)] && t2[..1] == [(y, 1)];
    assert [(x, 1)][..0] == [] && [(y, 1)][..0] == [];
    assert AsMap([(x, 1)]) == map[x := 1] && AsMap([(y, 1)]) == map[y := 1];
    assert AsMap(t1) == map[x := 1][y := 1];
    assert AsMap(t2) == map[y := 1][x := 1];
  }

  /** Different reactions can share an identifier: `-` and `_` in names both end up as `_`. */
  lemma VarNameMergesDashAndUnderscore()
    ensures var r1 := Reaction([(Symbol("a-b"), 1)], [], Cost(1), None);
            var r2 := Reaction([(Symbol("a_b"), 1)], [], Cost(1), None);
            r1 != r2 && VarName(r1) == VarName(r2)
  {
    assert ReplaceDash("a-b") == "a_b";
    assert ReplaceDash("a_b") == "a_b";
  }

  /** The identifier is not canonical: two reactions with the same inputs and outputs as
      maps, iterated in different orders, get different identifiers (nothing is sorted). */
  lemma VarNameFollowsIterationOrder()
    ensures var a, b := Symbol("a"), Symbol("b");
            var r1 := Reaction([(a, 1), (b, 1)], [], Cost(1), None);
            var r2 := Reaction([(b, 1), (a, 1)], [], Cost(1), None);
            AsMap(r1.inputs) == AsMap(r2.inputs) && r1.outputs == r2.outputs
            && VarName(r1) != VarName(r2)
  {
    var a, b := Symbol("a"), Symbol("b");
    var t1: Terms := [(a, 1), (b, 1)];
    var t2: Terms := [(b, 1), (a, 1)];
    TwoTermMap(a, b, t1, t2);
    TwoTermSide(a, b, t1);
    TwoTermSide(b, a, t2);
    var n1 := VarName(Reaction(t1, [], Cost(1), None));
    var n2 := VarName(Reaction(t2, [], Cost(1), None));
    assert n1[9] == 'a' && n2[9] == 'b';
  }
}
