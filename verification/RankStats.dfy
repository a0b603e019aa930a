/**
  The Mann-Whitney U statistic by mid-ranks, and the A12 effect size by counting pairs, over the
  real numbers: both count the same thing.
 */
module RankStats {
  import opened Wrappers

  // ---------- sums ----------

  function SumOver<T>(f: T -> real, s: seq<T>): real {
    if s == [] then 0.0 else SumOver(f, s[..|s| - 1]) + f(s[|s| - 1])
  }

  lemma {:induction false} SumAppend<T>(f: T -> real, a: seq<T>, b: seq<T>)
    ensures SumOver(f, a + b) == SumOver(f, a) + SumOver(f, b)
  {
    if b == [] {
      assert a + b == a;
    } else {
      var n := |b| - 1;
      assert (a + b)[..|a| + n] == a + b[..n];
      SumAppend(f, a, b[..n]);
    }
  }

  lemma SumOne<T>(f: T -> real, x: T)
    ensures SumOver(f, [x]) == f(x)
  {
    assert [x][..0] == [];
  }

  /** The last element of one permutation, found and taken out of the other. */
  lemma TakeOut<T>(a: seq<T>, b: seq<T>) returns (j: nat)
    requires multiset(a) == multiset(b) && a != []
    ensures j < |b| && b[j] == a[|a| - 1]
    ensures multiset(a[..|a| - 1]) == multiset(b[..j] + b[j + 1..])
  {
    var n := |a| - 1;
    var x := a[n];
    assert a == a[..n] + [x];
    assert x in multiset(b);
    j :| 0 <= j < |b| && b[j] == x;
    assert b == b[..j] + [x] + b[j + 1..];
    assert multiset(a[..n]) == multiset(a) - multiset{x};
    assert multiset(b[..j] + b[j + 1..]) == multiset(b) - multiset{x};
  }

  /** A sum does not depend on the order of its terms. */
  lemma {:induction false} SumPermuted<T>(f: T -> real, a: seq<T>, b: seq<T>)
    requires multiset(a) == multiset(b)
    ensures SumOver(f, a) == SumOver(f, b)
  {
    if a == [] {
      assert |multiset(b)| == 0;
    } else {
      var n := |a| - 1;
      var x := a[n];
      var j := TakeOut(a, b);
      assert b == b[..j] + ([x] + b[j + 1..]);
      SumPermuted(f, a[..n], b[..j] + b[j + 1..]);
      SumAppend(f, b[..j], b[j + 1..]);
      SumAppend(f, b[..j], [x] + b[j + 1..]);
      SumAppend(f, [x], b[j + 1..]);
      SumOne(f, x);
    }
  }

  lemma {:induction false} SumEqual<T>(f: T -> real, g: T -> real, s: seq<T>)
    requires forall i :: 0 <= i < |s| ==> f(s[i]) == g(s[i])
    ensures SumOver(f, s) == SumOver(g, s)
  {
    if s != [] {
      SumEqual(f, g, s[..|s| - 1]);
    }
  }

  // ---------- pairs ----------

  /** One for a win of `a` over `b`, a half for a tie. */
  function Win(a: real, b: real): real {
    if a > b then 1.0 else if a == b then 0.5 else 0.0
  }

  function WinOver(a: real): real -> real { (b: real) => Win(a, b) }

  function Score(a: real, s: seq<real>): real { SumOver(WinOver(a), s) }

  function ScoreIn(s: seq<real>): real -> real { (a: real) => Score(a, s) }

  /** The pairs that `x` wins against `y`, plus half the tied pairs. */
  function Pairs(x: seq<real>, y: seq<real>): real { SumOver(ScoreIn(y), x) }

  lemma {:induction false} ScoreAgainst(b: real, x: seq<real>)
    ensures SumOver((a: real) => Win(a, b), x) + Score(b, x) == |x| as real
  {
    if x != [] {
      ScoreAgainst(b, x[..|x| - 1]);
    }
  }

  lemma {:induction false} PairsAppend(x: seq<real>, y: seq<real>, b: real)
    ensures Pairs(x, y + [b]) == Pairs(x, y) + SumOver((a: real) => Win(a, b), x)
  {
    if x != [] {
      var n := |x| - 1;
      PairsAppend(x[..n], y, b);
      assert (y + [b])[..|y|] == y;
    }
  }

  lemma {:induction false} PairsNone(x: seq<real>)
    ensures Pairs(x, []) == 0.0
  {
    if x != [] {
      PairsNone(x[..|x| - 1]);
    }
  }

  /** Every pair is won by one side or shared. */
  lemma {:induction false} PairsComplement(x: seq<real>, y: seq<real>)
    ensures Pairs(x, y) + Pairs(y, x) == |x| as real * |y| as real
  {
    if y == [] {
      PairsNone(x);
    } else {
      var n := |y| - 1;
      assert y == y[..n] + [y[n]];
      PairsAppend(x, y[..n], y[n]);
      ScoreAgainst(y[n], x);
      PairsComplement(x, y[..n]);
      var a, b := |x| as real, n as real;
      assert a * (b + 1.0) == a * b + a;
    }
  }

  // ---------- mid-ranks ----------

  /** A value with group 0 for the first sample and 1 for the second. */
  datatype Tagged = Tagged(value: real, group: int)

  function Values(c: seq<Tagged>): (vs: seq<real>)
    ensures |vs| == |c|
  {
    seq(|c|, i requires 0 <= i < |c| => c[i].value)
  }

  predicate TupleLess(a: Tagged, b: Tagged) {
    a.value < b.value || (a.value == b.value && a.group < b.group)
  }

  predicate Sorted(c: seq<Tagged>) {
    forall i, j :: 0 <= i < j < |c| ==> c[i].value <= c[j].value
  }

  /** The library sort of tuples, by insertion. */
  method Sort(c: seq<Tagged>) returns (out: seq<Tagged>)
    ensures multiset(out) == multiset(c) && Sorted(out)
  {
    out := [];
    for i := 0 to |c|
      invariant multiset(out) == multiset(c[..i]) && Sorted(out)
      invariant forall p, q :: 0 <= p < q < |out| ==> !TupleLess(out[q], out[p])
    {
      out := Insert(out, c[i]);
      assert c[..i + 1] == c[..i] + [c[i]];
    }
    assert c[..|c|] == c;
  }

  method Insert(sorted: seq<Tagged>, x: Tagged) returns (out: seq<Tagged>)
    requires forall p, q :: 0 <= p < q < |sorted| ==> !TupleLess(sorted[q], sorted[p])
    ensures multiset(out) == multiset(sorted) + multiset{x}
    ensures forall p, q :: 0 <= p < q < |out| ==> !TupleLess(out[q], out[p])
  {
    var at := 0;
    while at < |sorted| && !TupleLess(x, sorted[at])
      invariant at <= |sorted|
      invariant forall k :: 0 <= k < at ==> !TupleLess(x, sorted[k])
    {
      at := at + 1;
    }
    out := sorted[..at] + [x] + sorted[at..];
    assert sorted == sorted[..at] + sorted[at..];
    InsertKeepsOrder(sorted, x, at);
  }

  lemma InsertKeepsOrder(sorted: seq<Tagged>, x: Tagged, at: nat)
    requires forall p, q :: 0 <= p < q < |sorted| ==> !TupleLess(sorted[q], sorted[p])
    requires at <= |sorted| && forall k :: 0 <= k < at ==> !TupleLess(x, sorted[k])
    requires at < |sorted| ==> TupleLess(x, sorted[at])
    ensures var out := sorted[..at] + [x] + sorted[at..];
            forall p, q :: 0 <= p < q < |out| ==> !TupleLess(out[q], out[p])
  {
    forall k | at <= k < |sorted|
      ensures !TupleLess(sorted[k], x)
    {
      assert k > at ==> !TupleLess(sorted[k], sorted[at]);
    }
  }

  lemma {:induction false} ScoreConstant(a: real, s: seq<real>, w: real)
    requires forall i :: 0 <= i < |s| ==> Win(a, s[i]) == w
    ensures Score(a, s) == |s| as real * w
  {
    if s != [] {
      var n := |s| - 1;
      ScoreConstant(a, s[..n], w);
      assert |s| as real == n as real + 1.0;
      assert (n as real + 1.0) * w == n as real * w + w;
    }
  }

  /** Positions `i` to `j` hold all occurrences of one value in a sorted list. */
  predicate IsBlock(c: seq<Tagged>, i: nat, j: nat) {
    && Sorted(c) && i <= j < |c|
    && (forall k :: i <= k <= j ==> c[k].value == c[i].value)
    && (i > 0 ==> c[i - 1].value != c[i].value)
    && (j + 1 < |c| ==> c[j + 1].value != c[i].value)
  }

  lemma BlockWins(c: seq<Tagged>, i: nat, j: nat)
    requires IsBlock(c, i, j)
    ensures forall k :: 0 <= k < |c| ==>
      Win(c[i].value, c[k].value) == if k < i then 1.0 else if k <= j then 0.5 else 0.0
  {
    forall k | 0 <= k < i
      ensures c[k].value < c[i].value
    {
      assert c[k].value <= c[i - 1].value <= c[i].value;
    }
    forall k | j < k < |c|
      ensures c[i].value < c[k].value
    {
      assert c[i].value <= c[j + 1].value <= c[k].value;
    }
  }

  /** A list that a value beats up to `i`, ties with up to `j`, and loses to from there on. */
  lemma SplitScore(v: real, vs: seq<real>, i: nat, j: nat)
    requires i <= j < |vs|
    requires forall k :: 0 <= k < |vs| ==> Win(v, vs[k]) == if k < i then 1.0 else if k <= j then 0.5 else 0.0
    ensures Score(v, vs) == i as real * 1.0 + ((j + 1 - i) as real * 0.5 + (|vs| - j - 1) as real * 0.0)
  {
    hide Score, Win;
    var lower, tied, higher := vs[..i], vs[i..j + 1], vs[j + 1..];
    ScoreConstant(v, lower, 1.0);
    ScoreConstant(v, tied, 0.5);
    ScoreConstant(v, higher, 0.0);
    ScoreAppend(v, lower, tied + higher);
    ScoreAppend(v, tied, higher);
    assert vs == lower + (tied + higher);
  }

  /** The average rank of a block of ties is what its value scores against everything, plus a half. */
  lemma BlockScore(c: seq<Tagged>, i: nat, j: nat)
    requires IsBlock(c, i, j)
    ensures (i + j) as real / 2.0 + 1.0 == Score(c[i].value, Values(c)) + 0.5
  {
    BlockWins(c, i, j);
    hide Score, Win, Sorted;
    SplitScore(c[i].value, Values(c), i, j);
    BlockArithmetic(i, j, |c| - j - 1);
  }

  lemma ScoreAppend(a: real, s: seq<real>, t: seq<real>)
    ensures Score(a, s + t) == Score(a, s) + Score(a, t)
  {
    SumAppend(WinOver(a), s, t);
  }

  lemma BlockArithmetic(i: nat, j: nat, h: nat)
    ensures (i + j) as real / 2.0 + 1.0 == i as real * 1.0 + ((j + 1 - i) as real * 0.5 + h as real * 0.0) + 0.5
  {
    assert (j + 1 - i) as real == j as real + 1.0 - i as real;
  }

  /** The loop over blocks of ties. */
  method MidRanks(c: seq<Tagged>) returns (ranks: array<real>)
    requires Sorted(c)
    ensures ranks.Length == |c|
    ensures forall k :: 0 <= k < |c| ==> ranks[k] == Score(c[k].value, Values(c)) + 0.5
  {
    ranks := new real[|c|](_ => 0.0);
    var i := 0;
    while i < |c|
      invariant 0 <= i <= |c|
      invariant 0 < i < |c| ==> c[i - 1].value != c[i].value
      invariant forall k :: 0 <= k < i ==> ranks[k] == Score(c[k].value, Values(c)) + 0.5
    {
      var j := i;
      while j + 1 < |c| && c[j + 1].value == c[i].value
        invariant i <= j < |c|
        invariant forall k :: i <= k <= j ==> c[k].value == c[i].value
      {
        j := j + 1;
      }
      var avg := (i + j) as real / 2.0 + 1.0;
      BlockScore(c, i, j);
      for k := i to j + 1
        invariant forall m :: 0 <= m < k ==> ranks[m] == Score(c[m].value, Values(c)) + 0.5
      {
        ranks[k] := avg;
      }
      i := j + 1;
    }
  }

  function RankTerm(all: seq<real>): Tagged -> real {
    (s: Tagged) => if s.group == 0 then Score(s.value, all) + 0.5 else 0.0
  }

  /** The ranks of the first sample, summed. */
  method RankSum(c: seq<Tagged>, ranks: array<real>) returns (sum: real)
    requires ranks.Length == |c|
    requires forall k :: 0 <= k < |c| ==> ranks[k] == Score(c[k].value, Values(c)) + 0.5
    ensures sum == SumOver(RankTerm(Values(c)), c)
  {
    sum := 0.0;
    for k := 0 to |c|
      invariant sum == SumOver(RankTerm(Values(c)), c[..k])
    {
      assert c[..k + 1][..k] == c[..k];
      if c[k].group == 0 {
        sum := sum + ranks[k];
      }
    }
    assert c[..|c|] == c;
  }

  function Tag(x: seq<real>, group: int): (c: seq<Tagged>)
    ensures |c| == |x| && Values(c) == x
  {
    var c := seq(|x|, i requires 0 <= i < |x| => Tagged(x[i], group));
    assert Values(c) == x;
    c
  }

  lemma {:induction false} OtherRanks(all: seq<real>, y: seq<real>)
    ensures SumOver(RankTerm(all), Tag(y, 1)) == 0.0
  {
    if y != [] {
      var n := |y| - 1;
      assert Tag(y, 1)[..n] == Tag(y[..n], 1);
      OtherRanks(all, y[..n]);
    }
  }

  lemma {:induction false} OwnRanks(x: seq<real>, rest: seq<real>, part: seq<real>)
    ensures SumOver(RankTerm(x + rest), Tag(part, 0)) == Pairs(part, x) + Pairs(part, rest) + |part| as real * 0.5
  {
    if part != [] {
      var n := |part| - 1;
      assert Tag(part, 0)[..n] == Tag(part[..n], 0);
      OwnRanks(x, rest, part[..n]);
      SumAppend(WinOver(part[n]), x, rest);
    }
  }

  lemma {:induction false} RankTermPermuted(a: seq<real>, b: seq<real>, c: seq<Tagged>)
    requires multiset(a) == multiset(b)
    ensures SumOver(RankTerm(a), c) == SumOver(RankTerm(b), c)
  {
    if c != [] {
      SumPermuted(WinOver(c[|c| - 1].value), a, b);
      RankTermPermuted(a, b, c[..|c| - 1]);
    }
  }

  lemma {:induction false} ValuesPermuted(a: seq<Tagged>, b: seq<Tagged>)
    requires multiset(a) == multiset(b)
    ensures multiset(Values(a)) == multiset(Values(b))
  {
    if a == [] {
      assert |multiset(b)| == 0;
    } else {
      var n := |a| - 1;
      var j := TakeOut(a, b);
      var rest := b[..j] + b[j + 1..];
      ValuesPermuted(a[..n], rest);
      assert Values(a) == Values(a[..n]) + [a[n].value];
      assert Values(rest) == Values(b)[..j] + Values(b)[j + 1..];
      assert Values(b) == Values(b)[..j] + ([a[n].value] + Values(b)[j + 1..]);
    }
  }

  /** Whatever the ties, the rank sum counts the pairs won, plus a constant. */
  lemma RankSumCountsPairs(x: seq<real>, y: seq<real>, c: seq<Tagged>)
    requires multiset(c) == multiset(Tag(x, 0) + Tag(y, 1))
    ensures SumOver(RankTerm(Values(c)), c) == Pairs(x, y) + |x| as real * (|x| as real + 1.0) / 2.0
  {
    var d := Tag(x, 0) + Tag(y, 1);
    assert Values(d) == x + y;
    ValuesPermuted(c, d);
    RankTermPermuted(Values(c), x + y, c);
    SumPermuted(RankTerm(x + y), c, d);
    SumAppend(RankTerm(x + y), Tag(x, 0), Tag(y, 1));
    OtherRanks(x + y, y);
    OwnRanks(x, y, x);
    PairsComplement(x, x);
    var n := |x| as real;
    assert n * (n + 1.0) / 2.0 == n * n / 2.0 + n * 0.5;
  }

  /** U is the smaller of the two pair counts, whatever ties there are. */
  method MannWhitneyU(x: seq<real>, y: seq<real>) returns (u: real, ghost u1: real)
    ensures u1 == Pairs(x, y)
    ensures u == MinReal(Pairs(x, y), Pairs(y, x))
  {
    hide Pairs, SumOver, RankTerm, Score, Sorted, Tag, Values, MinReal;
    var nx, ny := |x| as real, |y| as real;
    var combined := Sort(Tag(x, 0) + Tag(y, 1));
    var ranks := MidRanks(combined);
    var r1 := RankSum(combined, ranks);
    RankSumCountsPairs(x, y, combined);
    PairsComplement(x, y);
    var first := r1 - nx * (nx + 1.0) / 2.0;
    var second := nx * ny - first;
    u1 := first;
    u := MinReal(first, second);
  }

  /** The effect size: the share of pairs that the first sample wins, ties counting half. */
  method VarghaDelaneyA12(treatment: seq<real>, control: seq<real>) returns (a12: real)
    requires treatment != [] && control != []
    ensures a12 * (|treatment| as real * |control| as real) == Pairs(treatment, control)
    ensures 0.0 <= a12 <= 1.0
  {
    var s := 0.0;
    for i := 0 to |treatment|
      invariant s == Pairs(treatment[..i], control)
    {
      assert treatment[..i + 1][..i] == treatment[..i];
      var a := treatment[i];
      ghost var before := s;
      for j := 0 to |control|
        invariant s == before + Score(a, control[..j])
      {
        assert control[..j + 1][..j] == control[..j];
        if a > control[j] {
          s := s + 1.0;
        } else if a == control[j] {
          s := s + 0.5;
        }
      }
      assert control[..|control|] == control;
    }
    assert treatment[..|treatment|] == treatment;
    var total := |treatment| as real * |control| as real;
    PairsComplement(treatment, control);
    PairsNonnegative(treatment, control);
    PairsNonnegative(control, treatment);
    ShareInUnit(s, total);
    a12 := s / total;
  }

  lemma ShareInUnit(s: real, total: real)
    requires 0.0 <= s <= total && total > 0.0
    ensures 0.0 <= s / total <= 1.0 && (s / total) * total == s
  {
  }

  lemma {:induction false} PairsNonnegative(x: seq<real>, y: seq<real>)
    ensures Pairs(x, y) >= 0.0
  {
    if x != [] {
      PairsNonnegative(x[..|x| - 1], y);
      ScoreNonnegative(x[|x| - 1], y);
    }
  }

  lemma {:induction false} ScoreNonnegative(a: real, s: seq<real>)
    ensures Score(a, s) >= 0.0
  {
    if s != [] {
      ScoreNonnegative(a, s[..|s| - 1]);
    }
  }

  /** A share of pairs and the count it stands for. */
  lemma SharesDetermine(x: seq<real>, y: seq<real>, a12: real)
    requires a12 * (|x| as real * |y| as real) == Pairs(x, y)
    ensures Pairs(y, x) == (1.0 - a12) * (|x| as real * |y| as real)
  {
    PairsComplement(x, y);
    var n := |x| as real * |y| as real;
    assert (1.0 - a12) * n == n - a12 * n;
  }

  /**
    The two routines on the same samples: U does not depend on which sample comes first, and it is
    the share of pairs that the less winning side wins, times the number of pairs.
   */
  method StatisticsAgree(x: seq<real>, y: seq<real>) returns (u: real, swapped: real, a12: real, opposite: real)
    requires x != [] && y != []
    ensures u == swapped == MinReal(a12, opposite) * (|x| as real * |y| as real)
    ensures a12 + opposite == 1.0
  {
    hide Pairs, MinReal;
    ghost var u1, u2;
    u, u1 := MannWhitneyU(x, y);
    swapped, u2 := MannWhitneyU(y, x);
    a12 := VarghaDelaneyA12(x, y);
    opposite := VarghaDelaneyA12(y, x);
    SharesAgree(x, y, a12, opposite);
  }

  lemma SharesAgree(x: seq<real>, y: seq<real>, a: real, b: real)
    requires x != [] && y != []
    requires a * (|x| as real * |y| as real) == Pairs(x, y) && b * (|y| as real * |x| as real) == Pairs(y, x)
    ensures a + b == 1.0
    ensures MinReal(Pairs(x, y), Pairs(y, x)) == MinReal(Pairs(y, x), Pairs(x, y))
            == MinReal(a, b) * (|x| as real * |y| as real)
  {
    hide Pairs;
    var n := |x| as real * |y| as real;
    SharesDetermine(x, y, a);
    SameShare(b, 1.0 - a, n);
    MinScales(a, b, n);
  }

  lemma SameShare(a: real, b: real, n: real)
    requires n > 0.0 && a * n == b * n
    ensures a == b
  {
  }

  lemma MinScales(a: real, b: real, n: real)
    requires n > 0.0
    ensures MinReal(a, b) * n == MinReal(a * n, b * n)
  {
  }
}
