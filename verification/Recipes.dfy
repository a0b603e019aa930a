/** The mutator's recipes, their ranking, and the weights that choose an operator. */
module Recipes {
  import opened Ranges

  datatype MutationOp =
    | BitFlip
    | OverwriteRange
    | InsertToken
    | Arith
    | Splice
    | DeleteBlock
    | DictionaryOverwrite

  /** `OtherType` stands for the numbers a recipe file may carry that name no field type. */
  datatype FieldType = Data | Length | Magic | Checksum | OtherType

  datatype Field = Field(offset: nat, size: nat, kind: FieldType, bigEndian: bool, targetBegin: nat, targetEnd: nat)

  datatype Weight = Weight(op: MutationOp, weight: real)

  datatype Recipe = Recipe(
    id: string, mode: string, key: string, priority: nat, ttl: nat,
    weights: seq<Weight>, focus: seq<Range>, protect: seq<Range>,
    fields: seq<Field>, tokens: seq<string>)

  // ---------- ranking: priority descending, then id ascending ----------

  /** The order of std::string: the first difference decides, a proper prefix comes first. */
  predicate Less(a: string, b: string) {
    if b == "" then false
    else if a == "" then true
    else if a[0] != b[0] then a[0] < b[0]
    else Less(a[1..], b[1..])
  }

  lemma {:induction false} LessIsTotal(a: string, b: string)
    ensures a == b || Less(a, b) || Less(b, a)
    ensures !(Less(a, b) && Less(b, a)) && !Less(a, a)
  {
    if a != "" && b != "" {
      LessIsTotal(a[1..], b[1..]);
      if a[0] == b[0] {
        assert a == [a[0]] + a[1..] && b == [b[0]] + b[1..];
      }
    }
    if a != "" {
      LessIsTotal(a[1..], a[1..]);
    }
  }

  lemma {:induction false} LessIsTransitive(a: string, b: string, c: string)
    requires Less(a, b) && Less(b, c)
    ensures Less(a, c)
  {
    if a != "" && a[0] == b[0] == c[0] {
      LessIsTransitive(a[1..], b[1..], c[1..]);
    }
  }

  /** After a common beginning, `a` ends before `b` does, or goes on with a smaller character. */
  ghost predicate ComesBefore(a: string, b: string) { exists k: nat :: PartsAt(a, b, k) }

  predicate PartsAt(a: string, b: string, k: nat) {
    k <= |a| && k < |b| && a[..k] == b[..k] && (k == |a| || a[k] < b[k])
  }

  /** The comparison is the lexicographic order. */
  lemma {:induction false} LessIsLexicographic(a: string, b: string)
    ensures Less(a, b) <==> ComesBefore(a, b)
  {
    if a == "" || b == "" || a[0] != b[0] {
      if Less(a, b) {
        assert PartsAt(a, b, 0);
      }
      if k: nat :| PartsAt(a, b, k) {
        SameBeforeParting(a, b, k);
      }
    } else {
      LessIsLexicographic(a[1..], b[1..]);
      if k: nat :| PartsAt(a[1..], b[1..], k) {
        assert a[..k + 1] == [a[0]] + a[1..][..k] && b[..k + 1] == [b[0]] + b[1..][..k];
        assert PartsAt(a, b, k + 1);
      }
      if k: nat :| PartsAt(a, b, k) {
        assert k > 0;
        assert a[1..][..k - 1] == a[..k][1..] && b[1..][..k - 1] == b[..k][1..];
        assert PartsAt(a[1..], b[1..], k - 1);
      }
    }
  }

  lemma SameBeforeParting(a: string, b: string, k: nat)
    requires PartsAt(a, b, k)
    ensures b != "" && (k > 0 ==> a != "" && a[0] == b[0])
  {
    if k > 0 {
      assert a[..k][0] == b[..k][0];
    }
  }

  predicate Better(a: Recipe, b: Recipe) {
    a.priority > b.priority || (a.priority == b.priority && Less(a.id, b.id))
  }

  lemma BetterIsStrict(a: Recipe, b: Recipe)
    ensures !(Better(a, b) && Better(b, a)) && !Better(a, a)
    ensures !Better(a, b) && !Better(b, a) ==> a.priority == b.priority && a.id == b.id
  {
    LessIsTotal(a.id, b.id);
    LessIsTotal(a.id, a.id);
  }

  /** Not being better is transitive: the ranking is a weak order. */
  lemma NotBetterIsTransitive(a: Recipe, b: Recipe, c: Recipe)
    requires !Better(a, b) && !Better(b, c)
    ensures !Better(a, c)
  {
    if Better(a, c) && a.priority == b.priority == c.priority {
      LessIsTotal(a.id, b.id);
      LessIsTotal(b.id, c.id);
      if b.id != a.id && b.id != c.id {
        LessIsTransitive(c.id, b.id, a.id);
        LessIsTotal(a.id, c.id);
      }
    }
  }

  // ---------- operator weights ----------

  function Positive(w: real): real { if w < 0.0 then 0.0 else w }

  function Total(ws: seq<Weight>): (t: real)
    ensures t >= 0.0
  {
    if ws == [] then 0.0 else Total(ws[..|ws| - 1]) + Positive(ws[|ws| - 1].weight)
  }

  function Scaled(ws: seq<Weight>, total: real): (r: seq<Weight>)
    requires total > 0.0
    ensures |r| == |ws|
  {
    seq(|ws|, i requires 0 <= i < |ws| => Weight(ws[i].op, Positive(ws[i].weight) / total))
  }

  function Normalized(ws: seq<Weight>): seq<Weight> {
    if Total(ws) <= 0.0 then [Weight(BitFlip, 1.0)] else Scaled(ws, Total(ws))
  }

  /** What every caller of `choose_operator` relies on. */
  predicate IsDistribution(ws: seq<Weight>) {
    (forall i :: 0 <= i < |ws| ==> ws[i].weight >= 0.0) && Total(ws) == 1.0
  }

  lemma Quotients(a: real, b: real, t: real)
    requires t > 0.0
    ensures a / t + b / t == (a + b) / t
    ensures b >= 0.0 ==> b / t >= 0.0
    ensures t / t == 1.0
  {
    assert (a / t + b / t) * t == a + b;
  }

  lemma {:induction false} ScaledTotal(ws: seq<Weight>, total: real)
    requires total > 0.0
    ensures Total(Scaled(ws, total)) == Total(ws) / total
  {
    if ws != [] {
      var n := |ws| - 1;
      ScaledTotal(ws[..n], total);
      assert Scaled(ws, total)[..n] == Scaled(ws[..n], total);
      Quotients(Total(ws[..n]), Positive(ws[n].weight), total);
      assert Positive(Scaled(ws, total)[n].weight) == Positive(ws[n].weight) / total;
    }
  }

  lemma NormalizedIsDistribution(ws: seq<Weight>)
    ensures IsDistribution(Normalized(ws))
  {
    if Total(ws) <= 0.0 {
      assert [Weight(BitFlip, 1.0)][..0] == [];
    } else {
      ScaledTotal(ws, Total(ws));
      Quotients(0.0, 0.0, Total(ws));
      forall i | 0 <= i < |ws|
        ensures Scaled(ws, Total(ws))[i].weight >= 0.0
      {
        Quotients(0.0, Positive(ws[i].weight), Total(ws));
      }
    }
  }

  /** Loading normalizes a recipe's weights up to three times; only the first time matters. */
  lemma NormalizedTwice(ws: seq<Weight>)
    ensures Normalized(Normalized(ws)) == Normalized(ws)
  {
    NormalizedIsDistribution(ws);
    var once := Normalized(ws);
    assert forall i :: 0 <= i < |once| ==> Scaled(once, 1.0)[i] == once[i];
    assert Scaled(once, 1.0) == once;
  }

  /**
    `out` shares 1 out in the proportions of the given weights, operator by operator; without a
    positive weight it is a bit flip.
   */
  ghost predicate KeepsProportions(given: seq<Weight>, out: seq<Weight>) {
    if forall i :: 0 <= i < |given| ==> given[i].weight <= 0.0 then out == [Weight(BitFlip, 1.0)]
    else
      && |out| == |given| && SameProportions(given, out)
      && forall i :: 0 <= i < |given| ==> out[i].op == given[i].op
  }

  /** Weights that are not positive count as 0. */
  ghost predicate SameProportions(given: seq<Weight>, out: seq<Weight>)
    requires |out| == |given|
  {
    && (forall i :: 0 <= i < |given| ==> if given[i].weight > 0.0 then out[i].weight > 0.0 else out[i].weight == 0.0)
    && (forall i, j :: 0 <= i < |given| && 0 <= j < |given| && given[i].weight > 0.0 && given[j].weight > 0.0 ==>
          out[i].weight * given[j].weight == out[j].weight * given[i].weight)
  }

  lemma {:induction false} TotalIsZero(ws: seq<Weight>)
    ensures Total(ws) <= 0.0 <==> forall i :: 0 <= i < |ws| ==> ws[i].weight <= 0.0
  {
    if ws != [] {
      var n := |ws| - 1;
      TotalIsZero(ws[..n]);
      assert (forall i :: 0 <= i < |ws| ==> ws[i].weight <= 0.0) <==>
             (forall i :: 0 <= i < n ==> ws[..n][i].weight <= 0.0) && ws[n].weight <= 0.0;
    }
  }

  lemma Proportion(a: real, b: real, total: real)
    requires total > 0.0
    ensures a / total * b == b / total * a
    ensures a > 0.0 ==> a / total > 0.0
  {
    Quotients(0.0, a, total);
  }

  /** Every operator keeps its place and its proportion to the others. */
  lemma NormalizedKeepsProportions(ws: seq<Weight>)
    ensures KeepsProportions(ws, Normalized(ws))
  {
    hide SameProportions;
    TotalIsZero(ws);
    if Total(ws) > 0.0 {
      ScaledInProportion(ws, Total(ws));
    }
  }

  lemma ScaledInProportion(ws: seq<Weight>, total: real)
    requires total > 0.0
    ensures SameProportions(ws, Scaled(ws, total))
  {
    var out := Scaled(ws, total);
    forall i, j | 0 <= i < |ws| && 0 <= j < |ws| && ws[i].weight > 0.0 && ws[j].weight > 0.0
      ensures out[i].weight * ws[j].weight == out[j].weight * ws[i].weight
    {
      Proportion(ws[i].weight, ws[j].weight, total);
    }
    forall i | 0 <= i < |ws|
      ensures if ws[i].weight > 0.0 then out[i].weight > 0.0 else out[i].weight == 0.0
    {
      Proportion(Positive(ws[i].weight), 0.0, total);
    }
  }

  /** Proportions and a total of 1 leave one possibility. */
  lemma NormalizedIsUnique(ws: seq<Weight>, out: seq<Weight>)
    requires KeepsProportions(ws, out) && IsDistribution(out)
    ensures out == Normalized(ws)
  {
    TotalIsZero(ws);
    if Total(ws) > 0.0 {
      var i :| 0 <= i < |ws| && ws[i].weight > 0.0;
      InProportion(ws, out, i);
      var factor := out[i].weight / ws[i].weight;
      FactorTotal(ws, out, factor);
      forall k | 0 <= k < |ws|
        ensures out[k] == Scaled(ws, Total(ws))[k]
      {
        Reciprocal(factor, Total(ws), Positive(ws[k].weight));
      }
    }
  }

  lemma InProportion(ws: seq<Weight>, out: seq<Weight>, i: nat)
    requires KeepsProportions(ws, out) && i < |ws| && ws[i].weight > 0.0
    ensures |out| == |ws|
    ensures forall k :: 0 <= k < |ws| ==> out[k].weight == Times(out[i].weight / ws[i].weight, Positive(ws[k].weight))
  {
    forall k | 0 <= k < |ws|
      ensures out[k].weight == Times(out[i].weight / ws[i].weight, Positive(ws[k].weight))
    {
      if ws[k].weight > 0.0 {
        assert out[k].weight * ws[i].weight == out[i].weight * ws[k].weight;
        Divided(out[k].weight, ws[i].weight, out[i].weight, ws[k].weight);
      }
    }
  }

  function Times(a: real, b: real): real { a * b }

  lemma Divided(x: real, a: real, b: real, c: real)
    requires a != 0.0 && x * a == b * c
    ensures x == Times(b / a, c)
  {
    assert x == x * a / a;
  }

  lemma Reciprocal(factor: real, total: real, x: real)
    requires total > 0.0 && Times(factor, total) == 1.0
    ensures Times(factor, x) == x / total
  {
    assert factor == 1.0 / total;
  }

  lemma Distribute(a: real, b: real, c: real)
    ensures Times(a, b + c) == Times(a, b) + Times(a, c) && Times(a, 0.0) == 0.0
  {
  }

  lemma {:induction false} FactorTotal(ws: seq<Weight>, out: seq<Weight>, factor: real)
    requires |out| == |ws|
    requires forall k :: 0 <= k < |ws| ==>
      out[k].weight == Times(factor, Positive(ws[k].weight)) && out[k].weight >= 0.0
    ensures Total(out) == Times(factor, Total(ws))
  {
    hide Times, Positive;
    Distribute(factor, 0.0, 0.0);
    if ws != [] {
      var n := |ws| - 1;
      FactorTotal(ws[..n], out[..n], factor);
      NotNegative(out[n].weight);
      Distribute(factor, Total(ws[..n]), Positive(ws[n].weight));
    }
  }

  lemma NotNegative(w: real)
    requires w >= 0.0
    ensures Positive(w) == w
  {
  }

  method Normalize(weights: seq<Weight>) returns (out: seq<Weight>)
    ensures out == Normalized(weights)
    ensures IsDistribution(out) && KeepsProportions(weights, out)
  {
    hide IsDistribution, KeepsProportions;
    NormalizedIsDistribution(weights);
    NormalizedKeepsProportions(weights);
    var total := 0.0;
    for i := 0 to |weights|
      invariant total == Total(weights[..i])
    {
      assert weights[..i + 1][..i] == weights[..i];
      total := total + (if weights[i].weight < 0.0 then 0.0 else weights[i].weight);
    }
    assert weights[..|weights|] == weights;
    if total <= 0.0 {
      return [Weight(BitFlip, 1.0)];
    }
    out := weights;
    for i := 0 to |weights|
      invariant |out| == |weights| && out[i..] == weights[i..]
      invariant forall k :: 0 <= k < i ==> out[k] == Scaled(weights, total)[k]
    {
      assert out[i] == out[i..][0] == weights[i];
      out := out[i := out[i].(weight := (if out[i].weight < 0.0 then 0.0 else out[i].weight) / total)];
      assert out[i + 1..] == weights[i + 1..];
    }
    assert out == Scaled(weights, total);
  }

  lemma {:induction false} TotalIsMonotone(ws: seq<Weight>, i: nat)
    requires i <= |ws|
    ensures Total(ws[..i]) <= Total(ws)
  {
    if i == |ws| {
      assert ws[..i] == ws;
    } else {
      var n := |ws| - 1;
      TotalIsMonotone(ws[..n], i);
      assert ws[..n][..i] == ws[..i];
    }
  }

  /** An operator that a choice may give: one with weight, or the first of the list. */
  ghost predicate Choosable(weights: seq<Weight>, op: MutationOp) {
    exists at: nat :: ChoosableAt(weights, op, at)
  }

  ghost predicate ChoosableAt(weights: seq<Weight>, op: MutationOp, at: nat) {
    at < |weights| && weights[at].op == op && (at == 0 || weights[at].weight > 0.0)
  }

  /**
    The operator at position `at` is chosen exactly when the needle falls in its slice of [0, 1].
    A weightless operator is chosen only at position 0 by the needle 0.
   */
  method ChooseOperator(weights: seq<Weight>, needle: real) returns (op: MutationOp, ghost at: nat)
    requires 0.0 <= needle < 1.0
    ensures IsDistribution(weights) ==> Choosable(weights, op)
    ensures weights == [] ==> op == BitFlip
    ensures weights != [] ==> at < |weights| && op == weights[at].op
    ensures weights != [] && IsDistribution(weights) ==>
      && Total(weights[..at]) <= needle <= Total(weights[..at + 1])
      && (at > 0 ==> Total(weights[..at]) < needle)
      && (weights[at].weight == 0.0 <==> at == 0 && needle == 0.0 && weights[0].weight == 0.0)
  {
    at := 0;
    if weights == [] {
      return BitFlip, 0;
    }
    var cumulative := 0.0;
    for i := 0 to |weights|
      invariant IsDistribution(weights) ==> cumulative == Total(weights[..i])
      invariant i > 0 ==> cumulative < needle
    {
      assert weights[..i + 1][..i] == weights[..i];
      cumulative := cumulative + weights[i].weight;
      if needle <= cumulative {
        assert IsDistribution(weights) ==> ChoosableAt(weights, weights[i].op, i);
        return weights[i].op, i;
      }
    }
    at := |weights| - 1;
    op := weights[|weights| - 1].op;
    assert weights[..|weights|] == weights;
    assert IsDistribution(weights) ==> ChoosableAt(weights, op, at);
  }
}
