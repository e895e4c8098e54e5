/** `merge_terms` (src/main.rs): the multiset sum of two term maps. */
module Merge {
  import opened Ast

  /** A symbol's multiplicity in a map, 0 when absent. */
  function Count(m: map<Symbol, nat>, k: Symbol): nat {
    if k in m then m[k] else 0
  }

  /** The reference definition: every key of either map, with the two multiplicities added. */
  function Sum(a: map<Symbol, nat>, b: map<Symbol, nat>): map<Symbol, nat> {
    map k | k in a.Keys + b.Keys :: Count(a, k) + Count(b, k)
  }

  /** The keys of a sum are exactly those of either operand, and each count is the sum of
      the operands' counts. */
  lemma SumCounts(a: map<Symbol, nat>, b: map<Symbol, nat>)
    ensures Sum(a, b).Keys == a.Keys + b.Keys
    ensures forall k :: Count(Sum(a, b), k) == Count(a, k) + Count(b, k)
  {
  }

  lemma SumCommutes(a: map<Symbol, nat>, b: map<Symbol, nat>)
    ensures Sum(a, b) == Sum(b, a)
  {
  }

  lemma SumAssociates(a: map<Symbol, nat>, b: map<Symbol, nat>, c: map<Symbol, nat>)
    ensures Sum(Sum(a, b), c) == Sum(a, Sum(b, c))
  {
    SumCounts(a, b);
    SumCounts(b, c);
    assert Sum(Sum(a, b), c).Keys == Sum(a, Sum(b, c)).Keys;
  }

  /** The empty map is a left and right identity. */
  lemma SumIdentity(a: map<Symbol, nat>)
    ensures Sum(map[], a) == a && Sum(a, map[]) == a
  {
    assert Sum(map[], a).Keys == a.Keys;
  }

  /** Adding one more entry to the second operand adds its count to the sum. */
  lemma SumAddEntry(a: map<Symbol, nat>, b: map<Symbol, nat>, grown: map<Symbol, nat>, k: Symbol, v: nat)
    requires k !in b && grown == b[k := v]
    ensures Sum(a, grown) == Sum(a, b)[k := Count(Sum(a, b), k) + v]
  {
    var lhs, rhs := Sum(a, grown), Sum(a, b)[k := Count(Sum(a, b), k) + v];
    assert lhs.Keys == rhs.Keys;
  }

  /** `*res.entry(k).or_insert(0) += v`: the entry for `k` grows by `v`, or a new entry
      `(k, v)` is added when `k` is absent. */
  function AddCount(t: Terms, k: Symbol, v: nat): (r: Terms)
    ensures AsMap(r) == AsMap(t)[k := Count(AsMap(t), k) + v]
  {
    AsMapEntries(t);
    match Find(t, k)
    case Some(i) =>
      AsMapUpdate(t, i, t[i].1 + v);
      t[i := (k, t[i].1 + v)]
    case None =>
      AsMapAppend(t, k, v);
      t + [(k, v)]
  }

  /** The sum of the maps of a list of term lists, left to right. */
  function SumOf(ms: seq<Terms>): map<Symbol, nat>
    decreases |ms|
  {
    if |ms| == 0 then map[] else Sum(SumOf(ms[..|ms| - 1]), AsMap(ms[|ms| - 1]))
  }

  /** The inner loop of `merge_terms`: every entry of `m` is added into `acc`. */
  method AddEntries(acc: Terms, m: Terms) returns (res: Terms)
    ensures AsMap(res) == Sum(AsMap(acc), AsMap(m))
  {
    res := acc;
    for j := 0 to |m|
      invariant AsMap(res) == Sum(AsMap(acc), AsMap(m[..j]))
    {
      var (k, v) := m[j];
      AsMapPrefix(m, j);
      AddCountSum(AsMap(acc), AsMap(m[..j]), res, k, v);
      res := AddCount(res, k, v);
    }
    assert m[..|m|] == m;
  }

  /** One turn of that loop: when the accumulated terms stand for the sum so far, adding
      the next entry keeps them the sum. */
  lemma AddCountSum(a: map<Symbol, nat>, seen: map<Symbol, nat>, t: Terms, k: Symbol, v: nat)
    requires k !in seen && AsMap(t) == Sum(a, seen)
    ensures AsMap(AddCount(t, k, v)) == Sum(a, seen[k := v])
  {
    SumStep(a, seen, seen[k := v], AsMap(t), AsMap(AddCount(t, k, v)), k, v);
  }

  /** One turn of that loop, on the maps: when the accumulated map is the sum so far,
      adding the next entry keeps it the sum. */
  lemma SumStep(a: map<Symbol, nat>, seen: map<Symbol, nat>, grown: map<Symbol, nat>,
                before: map<Symbol, nat>, after: map<Symbol, nat>, k: Symbol, v: nat)
    requires k !in seen && grown == seen[k := v]
    requires before == Sum(a, seen)
    requires after == before[k := Count(before, k) + v]
    ensures after == Sum(a, grown)
  {
    SumAddEntry(a, seen, grown, k, v);
  }

  /** `merge_terms`: a fresh map into which every entry of `a`, then of `b`, is added.
      The result stands for the multiset sum of the two. */
  method MergeTerms(a: Terms, b: Terms) returns (res: Terms)
    ensures AsMap(res) == Sum(AsMap(a), AsMap(b))
  {
    res := [];
    var ms: seq<Terms> := [a, b];
    for n := 0 to |ms|
      invariant AsMap(res) == SumOf(ms[..n])
    {
      res := AddEntries(res, ms[n]);
      assert ms[..n + 1][..n] == ms[..n];
    }
    assert ms[..1][..0] == [];
    SumIdentity(AsMap(a));
    assert ms[..2] == ms;
  }

  /** Merging is commutative, associative and has the empty terms as identity, as a
      statement about the maps the results stand for. */
  lemma MergeLaws(a: Terms, b: Terms, c: Terms)
    ensures Sum(AsMap(a), AsMap(b)) == Sum(AsMap(b), AsMap(a))
    ensures Sum(Sum(AsMap(a), AsMap(b)), AsMap(c)) == Sum(AsMap(a), Sum(AsMap(b), AsMap(c)))
    ensures Sum(AsMap(a), AsMap([])) == AsMap(a)
  {
    SumCommutes(AsMap(a), AsMap(b));
    SumAssociates(AsMap(a), AsMap(b), AsMap(c));
    SumIdentity(AsMap(a));
  }
}
