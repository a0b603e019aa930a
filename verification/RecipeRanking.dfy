/**
  What the recipe cache promises, said without its data structures: which recipe is best for a key,
  which keys a bounded map keeps, and where a recipe comes in the sorted list.
 */
module RecipeRanking {
  import opened Recipes

  // ---------- the bounded map ----------

  /** Every kept recipe is an offered one, filed under its key, and a best one for that key. */
  ghost predicate HoldsBest(m: map<string, Recipe>, offered: seq<Recipe>) {
    && (forall k :: k in m ==> m[k] in offered && m[k].key == k)
    && (forall r :: r in offered && r.key in m ==> !Better(r, m[r.key]))
  }

  /** At most `cap` keys are kept; all of them if they fit, and otherwise none that an absent one beats. */
  ghost predicate KeepsBest(m: map<string, Recipe>, offered: seq<Recipe>, cap: nat) {
    && |m| <= cap
    && (forall r :: r in offered && |m| < cap ==> r.key in m)
    && (forall r, k :: r in offered && r.key !in m && k in m ==> !Better(r, m[k]))
  }

  /** `m` holds a best recipe for each of `cap` best keys among the offered recipes, or for all keys if they fit. */
  ghost predicate IsTopK(m: map<string, Recipe>, offered: seq<Recipe>, cap: nat) {
    HoldsBest(m, offered) && KeepsBest(m, offered, cap)
  }

  /** Different recipes never tie. */
  ghost predicate NoTies(offered: seq<Recipe>) {
    forall a, b :: a in offered && b in offered && a.priority == b.priority && a.id == b.id ==> a == b
  }

  lemma SameRank(a: Recipe, b: Recipe, offered: seq<Recipe>)
    requires NoTies(offered) && a in offered && b in offered && !Better(a, b) && !Better(b, a)
    ensures a == b
  {
    BetterIsStrict(a, b);
  }

  lemma {:induction false} SubsetSize<T>(a: set<T>, b: set<T>)
    requires a <= b
    ensures |a| <= |b|
    decreases a
  {
    if a != {} {
      var x :| x in a;
      SubsetSize(a - {x}, b - {x});
    }
  }

  // ---------- ties ----------

  predicate Tied(a: Recipe, b: Recipe) { !Better(a, b) && !Better(b, a) }

  /** No offered recipe could stand in for a kept one: for its own key, or for another key that was kept. */
  ghost predicate NoChoice(m: map<string, Recipe>, offered: seq<Recipe>) {
    && (forall r :: r in offered && r.key in m && Tied(r, m[r.key]) ==> r == m[r.key])
    && (forall r, k :: r in offered && r.key !in m && k in m ==> Better(m[k], r))
  }

  /**
    Ties included: the offers determine the map if and only if no tie leaves a choice, between two
    recipes for a kept key or between a kept key and one left out.
   */
  lemma DeterminedExactlyWhen(m: map<string, Recipe>, offered: seq<Recipe>, cap: nat)
    requires IsTopK(m, offered, cap)
    ensures (forall m2 :: IsTopK(m2, offered, cap) ==> m2 == m) <==> NoChoice(m, offered)
  {
    hide IsTopK, NoChoice;
    if NoChoice(m, offered) {
      forall m2 | IsTopK(m2, offered, cap)
        ensures m2 == m
      {
        NoChoiceForces(m, m2, offered, cap);
      }
    } else {
      var m2 := ChoiceLeaves(m, offered, cap);
    }
  }

  lemma ChoiceLeaves(m: map<string, Recipe>, offered: seq<Recipe>, cap: nat) returns (m2: map<string, Recipe>)
    requires IsTopK(m, offered, cap) && !NoChoice(m, offered)
    ensures IsTopK(m2, offered, cap) && m2 != m
  {
    hide Better, IsTopK;
    if r :| r in offered && r.key in m && Tied(r, m[r.key]) && r != m[r.key] {
      SameKeySwaps(m, offered, cap, r);
      m2 := m[r.key := r];
      assert m2[r.key] != m[r.key];
    } else {
      var r, k :| r in offered && r.key !in m && k in m && !Better(m[k], r);
      OtherKeySwaps(m, offered, cap, r, k);
      m2 := (m - {k})[r.key := r];
      assert r.key in m2;
    }
  }

  lemma NoChoiceForces(m: map<string, Recipe>, m2: map<string, Recipe>, offered: seq<Recipe>, cap: nat)
    requires IsTopK(m, offered, cap) && IsTopK(m2, offered, cap) && NoChoice(m, offered)
    ensures m2 == m
  {
    hide Better;
    forall k | k in m
      ensures k in m2 && m2[k] == m[k]
    {
      KeptIsForced(m, m2, offered, cap, k);
    }
    forall k | k in m2
      ensures k in m
    {
      if k !in m {
        assert m2[k] in offered && m2[k].key == k;
        SubsetSize(m.Keys + {k}, m2.Keys);
      }
    }
  }

  lemma KeptIsForced(m: map<string, Recipe>, m2: map<string, Recipe>, offered: seq<Recipe>, cap: nat, k: string)
    requires IsTopK(m, offered, cap) && IsTopK(m2, offered, cap) && NoChoice(m, offered)
    requires k in m
    ensures k in m2 && m2[k] == m[k]
  {
    hide Better, NoChoice;
    if k !in m2 {
      LeftOutIsAChoice(m, m2, offered, cap, k);
    } else {
      assert Tied(m2[k], m[k]);
      TiedIsSame(m, offered, m2[k]);
    }
  }

  lemma TiedIsSame(m: map<string, Recipe>, offered: seq<Recipe>, r: Recipe)
    requires NoChoice(m, offered) && r in offered && r.key in m && Tied(r, m[r.key])
    ensures r == m[r.key]
  {
  }

  /** A kept key that another top selection leaves out: that one keeps a key which could have been chosen. */
  lemma LeftOutIsAChoice(m: map<string, Recipe>, m2: map<string, Recipe>, offered: seq<Recipe>, cap: nat, k: string)
    requires IsTopK(m, offered, cap) && IsTopK(m2, offered, cap) && k in m && k !in m2
    ensures !NoChoice(m, offered)
  {
    hide Better;
    assert m[k] in offered && m[k].key == k && |m2| == cap;
    var k2 := OneMoreKey(m.Keys, m2.Keys, k);
    var r := m2[k2];
    assert r in offered && r.key == k2 && !Better(m[k], r);
  }

  lemma OneMoreKey(a: set<string>, b: set<string>, k: string) returns (k2: string)
    requires |a| <= |b| && k in a && k !in b
    ensures k2 in b && k2 !in a
  {
    if b <= a - {k} {
      SubsetSize(b, a - {k});
      assert false;
    }
    k2 :| k2 in b && k2 !in a - {k};
  }

  lemma SameKeySwaps(m: map<string, Recipe>, offered: seq<Recipe>, cap: nat, r: Recipe)
    requires IsTopK(m, offered, cap) && r in offered && r.key in m && Tied(r, m[r.key])
    ensures IsTopK(m[r.key := r], offered, cap)
  {
    hide Better;
    var m2 := m[r.key := r];
    assert m2.Keys == m.Keys;
    forall q | q in offered
      ensures q.key in m2 ==> !Better(q, m2[q.key])
      ensures q.key !in m2 ==> forall j :: j in m2 ==> !Better(q, m2[j])
    {
      if !Better(q, m[r.key]) {
        NotBetterIsTransitive(q, m[r.key], r);
      }
    }
  }

  lemma OtherKeySwaps(m: map<string, Recipe>, offered: seq<Recipe>, cap: nat, r: Recipe, k: string)
    requires IsTopK(m, offered, cap) && r in offered && r.key !in m && k in m && !Better(m[k], r)
    ensures IsTopK((m - {k})[r.key := r], offered, cap)
  {
    hide Better;
    var m2 := (m - {k})[r.key := r];
    assert m2.Keys == m.Keys - {k} + {r.key};
    forall q | q in offered
      ensures q.key in m2 ==> !Better(q, m2[q.key])
      ensures q.key !in m2 ==> forall j :: j in m2 ==> !Better(q, m2[j])
    {
      if !Better(q, m[k]) {
        NotBetterIsTransitive(q, m[k], r);
      }
      forall j | j in m2 && j != r.key && q.key == k
        ensures !Better(q, m2[j])
      {
        NotBetterIsTransitive(m[k], r, m[j]);
        NotBetterIsTransitive(q, m[k], m[j]);
      }
    }
  }

  /** At an eviction the visiting order decides exactly between the worst entry and those tied with it. */
  lemma WorstExactlyWhenTied(m: map<string, Recipe>, victim: string, other: string)
    requires IsWorst(m, victim) && other in m
    ensures IsWorst(m, other) <==> Tied(m[victim], m[other])
  {
    hide Better;
    if Tied(m[victim], m[other]) {
      forall k | k in m
        ensures !Better(m[other], m[k])
      {
        NotBetterIsTransitive(m[other], m[victim], m[k]);
      }
    }
  }

  /** Recipes of one priority and id, as two files that cannot be read give: with room for one, either may stay. */
  lemma TieExample(a: Recipe, b: Recipe)
    requires a.key != b.key && a.priority == b.priority && a.id == b.id
    ensures IsTopK(map[a.key := a], [a, b], 1) && IsTopK(map[b.key := b], [a, b], 1)
    ensures var full := Offer(map[a.key := a], b); IsWorst(full, a.key) && IsWorst(full, b.key)
  {
    LessIsTotal(a.id, b.id);
    assert |map[a.key := a]| == 1 && |map[b.key := b]| == 1;
  }

  lemma NoTiesLeaveNoChoice(m: map<string, Recipe>, offered: seq<Recipe>, cap: nat)
    requires IsTopK(m, offered, cap) && NoTies(offered)
    ensures NoChoice(m, offered)
  {
    hide Better;
    forall r, k | r in offered && k in m && Tied(r, m[k])
      ensures r == m[k]
    {
      SameRank(r, m[k], offered);
    }
  }

  /**
    Without ties the contents are determined by the set of recipes offered: neither the order they
    came in, nor repeats, nor the return of evicted keys make a difference.
   */
  lemma OrderDoesNotMatter(m1: map<string, Recipe>, m2: map<string, Recipe>, h1: seq<Recipe>, h2: seq<Recipe>, cap: nat)
    requires IsTopK(m1, h1, cap) && IsTopK(m2, h2, cap)
    requires NoTies(h1) && forall r :: r in h1 <==> r in h2
    ensures m1 == m2
  {
    hide Better, NoChoice;
    NoTiesLeaveNoChoice(m1, h1, cap);
    NoChoiceForces(m1, m2, h1, cap);
  }

  // ---------- the same, computed offline ----------

  /** The first best recipe of every key. */
  function BestPerKey(offered: seq<Recipe>): map<string, Recipe> {
    if offered == [] then map[] else
    var r := offered[|offered| - 1];
    var best := BestPerKey(offered[..|offered| - 1]);
    if r.key in best && !Better(r, best[r.key]) then best else best[r.key := r]
  }

  lemma {:induction false} BestPerKeyIsBest(offered: seq<Recipe>)
    ensures var best := BestPerKey(offered);
      && (forall k :: k in best ==> best[k] in offered && best[k].key == k)
      && (forall r :: r in offered ==> r.key in best && !Better(r, best[r.key]))
  {
    if offered != [] {
      var n := |offered| - 1;
      var r := offered[n];
      assert offered == offered[..n] + [r];
      BestPerKeyIsBest(offered[..n]);
      var before, best := BestPerKey(offered[..n]), BestPerKey(offered);
      forall q | q in offered
        ensures q.key in best && !Better(q, best[q.key])
      {
        BetterIsStrict(r, q);
        if q in offered[..n] && q.key == r.key && best[q.key] == r {
          BetterIsStrict(r, before[q.key]);
          if q != r {
            NotBetterIsTransitive(q, before[q.key], r);
          }
        }
      }
    }
  }

  /** The keys whose best recipe is better than that of `k`. */
  function BetterKeys(best: map<string, Recipe>, k: string): set<string>
    requires k in best
  {
    set j | j in best && Better(best[j], best[k])
  }

  /** The best recipe of each of the `cap` best keys. */
  function Offline(offered: seq<Recipe>, cap: nat): map<string, Recipe> {
    var best := BestPerKey(offered);
    map k | k in best && |BetterKeys(best, k)| < cap :: best[k]
  }

  lemma KeptIffFewBetter(m: map<string, Recipe>, offered: seq<Recipe>, cap: nat, k: string)
    requires IsTopK(m, offered, cap) && NoTies(offered) && k in BestPerKey(offered)
    ensures k in m <==> |BetterKeys(BestPerKey(offered), k)| < cap
    ensures k in m ==> m[k] == BestPerKey(offered)[k]
  {
    hide Better, BestPerKey;
    BestPerKeyIsBest(offered);
    var best := BestPerKey(offered);
    BetterIsStrict(best[k], best[k]);
    if k in m {
      SameRank(m[k], best[k], offered);
      assert BetterKeys(best, k) <= m.Keys - {k};
      SubsetSize(BetterKeys(best, k), m.Keys - {k});
    } else {
      forall j | j in m
        ensures j in BetterKeys(best, k)
      {
        SameRank(m[j], best[j], offered);
        if !Better(best[j], best[k]) {
          SameRank(best[j], best[k], offered);
        }
      }
      SubsetSize(m.Keys, BetterKeys(best, k));
    }
  }

  /** Without ties the online map is the offline result. */
  lemma TopKIsOffline(m: map<string, Recipe>, offered: seq<Recipe>, cap: nat)
    requires IsTopK(m, offered, cap) && NoTies(offered)
    ensures m == Offline(offered, cap)
  {
    hide Better, BestPerKey, BetterKeys;
    BestPerKeyIsBest(offered);
    forall k | k in BestPerKey(offered)
      ensures k in m <==> |BetterKeys(BestPerKey(offered), k)| < cap
      ensures k in m ==> m[k] == BestPerKey(offered)[k]
    {
      KeptIffFewBetter(m, offered, cap, k);
    }
  }

  // ---------- the same, by priorities and ids ----------

  /** What is left out has no higher priority than anything kept, and at equal priority no smaller id. */
  lemma LeftOutRanksBelow(m: map<string, Recipe>, offered: seq<Recipe>, cap: nat, r: Recipe, k: string)
    requires IsTopK(m, offered, cap) && r in offered && k in m
    requires r.key !in m || r.key == k
    ensures r.priority <= m[k].priority
    ensures r.priority == m[k].priority ==> !ComesBefore(r.id, m[k].id)
  {
    LessIsLexicographic(r.id, m[k].id);
  }

  /** An offer replaces the kept recipe exactly for a higher priority, or at equal priority for a smaller id. */
  lemma OfferReplacesExactlyWhen(m: map<string, Recipe>, r: Recipe)
    requires r.key in m && r != m[r.key]
    ensures Offer(m, r)[r.key] == r <==>
            r.priority > m[r.key].priority || (r.priority == m[r.key].priority && ComesBefore(r.id, m[r.key].id))
    ensures Offer(m, r)[r.key] != r ==> Offer(m, r) == m
  {
    LessIsLexicographic(r.id, m[r.key].id);
  }

  /** The sorted list falls in priority, at equal priority it rises in id, and at equal id it keeps the load order. */
  lemma SortedByPriorityAndId(ys: seq<Recipe>, xs: seq<Recipe>, order: seq<nat>, p: nat, q: nat)
    requires IsStableSort(ys, xs, order) && p < q < |ys|
    ensures ys[p].priority >= ys[q].priority
    ensures ys[p].priority == ys[q].priority ==> ys[p].id == ys[q].id || ComesBefore(ys[p].id, ys[q].id)
    ensures ys[p].priority == ys[q].priority && ys[p].id == ys[q].id ==> order[p] < order[q]
  {
    assert Ahead(xs, order[p], order[q]);
    LessIsTotal(ys[p].id, ys[q].id);
    LessIsLexicographic(ys[p].id, ys[q].id);
  }

  // ---------- one recipe offered ----------

  /** Replace if strictly better, insert if new. */
  function Offer(m: map<string, Recipe>, r: Recipe): map<string, Recipe> {
    if r.key in m && !Better(r, m[r.key]) then m else m[r.key := r]
  }

  ghost predicate IsWorst(m: map<string, Recipe>, victim: string) {
    victim in m && forall k :: k in m ==> !Better(m[victim], m[k])
  }

  lemma OfferWithinCap(m: map<string, Recipe>, offered: seq<Recipe>, r: Recipe, cap: nat)
    requires IsTopK(m, offered, cap) && |Offer(m, r)| <= cap
    ensures IsTopK(Offer(m, r), offered + [r], cap)
  {
    var m2 := Offer(m, r);
    OfferedIn(offered, r);
    BetterIsStrict(r, r);
    if r.key in m {
      BetterIsStrict(r, m[r.key]);
      assert m2.Keys == m.Keys;
    } else {
      assert m2.Keys == m.Keys + {r.key};
    }
    forall q | q in offered + [r] && q.key in m2
      ensures !Better(q, m2[q.key])
    {
      if q != r && q.key == r.key && r.key in m && m2[r.key] == r {
        NotBetterIsTransitive(q, m[r.key], r);
      }
    }
    forall q, k | q in offered + [r] && q.key !in m2 && k in m2
      ensures !Better(q, m2[k])
    {
      if k == r.key && k in m {
        if m2[k] == r { NotBetterIsTransitive(q, m[k], r); }
      }
    }
  }

  lemma OfferedIn(offered: seq<Recipe>, r: Recipe)
    ensures forall q :: q in offered + [r] <==> q in offered || q == r
  {
  }

  /** On overflow the worst entry goes, which may be the recipe just offered. */
  lemma OfferAndEvict(m: map<string, Recipe>, offered: seq<Recipe>, r: Recipe, cap: nat, victim: string)
    requires IsTopK(m, offered, cap) && |Offer(m, r)| > cap && IsWorst(Offer(m, r), victim)
    ensures IsTopK(Offer(m, r) - {victim}, offered + [r], cap)
  {
    OverflowIsNew(m, r, cap);
    EvictHolds(m, offered, r, victim);
    EvictKeeps(m, offered, r, victim);
  }

  lemma OverflowIsNew(m: map<string, Recipe>, r: Recipe, cap: nat)
    requires |m| <= cap < |Offer(m, r)|
    ensures r.key !in m && |m| == cap && Offer(m, r) == m[r.key := r]
  {
    assert Offer(m, r).Keys == m.Keys + {r.key};
    assert r.key in m ==> m.Keys + {r.key} == m.Keys;
  }

  lemma EvictHolds(m: map<string, Recipe>, offered: seq<Recipe>, r: Recipe, victim: string)
    requires IsTopK(m, offered, |m|) && r.key !in m && IsWorst(m[r.key := r], victim)
    ensures HoldsBest(m[r.key := r] - {victim}, offered + [r])
  {
    hide Better;
    var m2 := m[r.key := r] - {victim};
    OfferedIn(offered, r);
    forall q | q in offered + [r] && q.key in m2
      ensures !Better(q, m2[q.key])
    {
      InsiderIsNotBetter(m, offered, r, victim, q);
    }
  }

  lemma EvictKeeps(m: map<string, Recipe>, offered: seq<Recipe>, r: Recipe, victim: string)
    requires IsTopK(m, offered, |m|) && r.key !in m && IsWorst(m[r.key := r], victim)
    ensures KeepsBest(m[r.key := r] - {victim}, offered + [r], |m|)
  {
    hide Better;
    var full := m[r.key := r];
    var m2 := full - {victim};
    OfferedIn(offered, r);
    assert full.Keys == m.Keys + {r.key} && m2.Keys == full.Keys - {victim};
    forall q, k | q in offered + [r] && q.key !in m2 && k in m2
      ensures !Better(q, m2[k])
    {
      OutsiderIsNotBetter(m, offered, r, victim, q, k);
    }
  }

  /** An earlier recipe for a key that was evicted and comes back is no better than the new one, if that stays. */
  lemma InsiderIsNotBetter(m: map<string, Recipe>, offered: seq<Recipe>, r: Recipe, victim: string, q: Recipe)
    requires IsTopK(m, offered, |m|) && r.key !in m && IsWorst(m[r.key := r], victim)
    requires q in offered || q == r
    requires q.key != victim && (q.key in m || q.key == r.key)
    ensures !Better(q, m[r.key := r][q.key])
  {
    BetterIsStrict(r, r);
    if q.key == r.key && q != r {
      var full := m[r.key := r];
      assert full[r.key] == r && full[victim] == m[victim];
      NotBetterIsTransitive(q, m[victim], r);
    }
  }

  lemma OutsiderIsNotBetter(m: map<string, Recipe>, offered: seq<Recipe>, r: Recipe, victim: string, q: Recipe,
      k: string)
    requires IsTopK(m, offered, |m|) && r.key !in m && IsWorst(m[r.key := r], victim)
    requires q in offered || q == r
    requires q.key == victim || (q.key !in m && q.key != r.key)
    requires k != victim && (k in m || k == r.key)
    ensures !Better(q, m[r.key := r][k])
  {
    var full := m[r.key := r];
    assert !Better(full[victim], full[k]);
    if q in offered {
      if q.key in m {
        NotBetterIsTransitive(q, full[victim], full[k]);
      } else if k == r.key {
        assert victim in m;
        NotBetterIsTransitive(q, full[victim], full[k]);
      } else {
        assert !Better(q, m[k]);
      }
    }
  }

  // ---------- the sorted list ----------

  /** Entry `i` of the load order ranks ahead of entry `j`: better, or tied and loaded earlier. */
  predicate Ahead(xs: seq<Recipe>, i: nat, j: nat)
    requires i < |xs| && j < |xs|
  {
    Better(xs[i], xs[j]) || (!Better(xs[j], xs[i]) && i < j)
  }

  function EntriesAhead(xs: seq<Recipe>, i: nat): set<nat>
    requires i < |xs|
  {
    set j | 0 <= j < |xs| && Ahead(xs, j, i)
  }

  /** `order` lists every position of the load order once, ranked. */
  ghost predicate IsRanking(order: seq<nat>, xs: seq<Recipe>) {
    && (forall p :: 0 <= p < |order| ==> order[p] < |xs|)
    && (forall i :: 0 <= i < |xs| ==> i in order)
    && (forall p, q :: 0 <= p < q < |order| ==> Ahead(xs, order[p], order[q]))
  }

  /** `ys` is what a stable sort makes of `xs`. */
  ghost predicate IsStableSort(ys: seq<Recipe>, xs: seq<Recipe>, order: seq<nat>) {
    && IsRanking(order, xs) && |ys| == |order|
    && forall p :: 0 <= p < |ys| ==> ys[p] == xs[order[p]]
  }

  lemma AheadIsStrict(xs: seq<Recipe>, i: nat, j: nat)
    requires i < |xs| && j < |xs|
    ensures !(Ahead(xs, i, j) && Ahead(xs, j, i))
    ensures i != j ==> Ahead(xs, i, j) || Ahead(xs, j, i)
  {
    BetterIsStrict(xs[i], xs[j]);
  }

  /** An entry's position in the sorted list is the number of entries ahead of it. */
  lemma PositionIsRank(order: seq<nat>, xs: seq<Recipe>, p: nat)
    requires IsRanking(order, xs) && p < |order|
    ensures |EntriesAhead(xs, order[p])| == p
  {
    var before := order[..p];
    forall j: nat | j < |xs|
      ensures j in before <==> Ahead(xs, j, order[p])
    {
      assert j in order;
      var q :| 0 <= q < |order| && order[q] == j;
      AheadIsStrict(xs, order[p], j);
      if q < p {
        assert before[q] == j;
      }
    }
    assert EntriesAhead(xs, order[p]) == Elements(before);
    forall q1, q2 | 0 <= q1 < q2 < p
      ensures before[q1] != before[q2]
    {
      AheadIsStrict(xs, order[q1], order[q2]);
    }
    DistinctSize(before);
  }

  function Elements(s: seq<nat>): set<nat> { set x | x in s }

  lemma {:induction false} DistinctSize(s: seq<nat>)
    requires forall i, j :: 0 <= i < j < |s| ==> s[i] != s[j]
    ensures |Elements(s)| == |s|
  {
    if s == [] {
      assert Elements(s) == {};
    } else {
      var n := |s| - 1;
      DistinctSize(s[..n]);
      assert s == s[..n] + [s[n]];
      assert Elements(s) == Elements(s[..n]) + {s[n]};
      assert s[n] !in Elements(s[..n]);
    }
  }

  /** The first position that holds the key. */
  ghost predicate FirstWithKey(ys: seq<Recipe>, key: string, p: nat) {
    p < |ys| && ys[p].key == key && forall q :: 0 <= q < p ==> ys[q].key != key
  }

  /** Entry `i` is the best-ranked of those with its key. */
  ghost predicate BestLoaded(xs: seq<Recipe>, key: string, i: nat) {
    && i < |xs| && xs[i].key == key
    && forall j :: 0 <= j < |xs| && xs[j].key == key && j != i ==> Ahead(xs, i, j)
  }

  /**
    In a sorted list cut after `cap` entries, the first entry with a key is the best-ranked loaded
    recipe for that key, and there is one exactly when fewer than `cap` entries rank ahead of it.
   */
  lemma FirstKeptIsBestLoaded(ys: seq<Recipe>, xs: seq<Recipe>, order: seq<nat>, cap: nat, key: string, i: nat)
    requires IsStableSort(ys, xs, order) && BestLoaded(xs, key, i)
    ensures var kept := ys[..if |ys| < cap then |ys| else cap];
      && (|EntriesAhead(xs, i)| < cap ==>
            FirstWithKey(kept, key, |EntriesAhead(xs, i)|) && kept[|EntriesAhead(xs, i)|] == xs[i])
      && (|EntriesAhead(xs, i)| >= cap ==> forall q :: 0 <= q < |kept| ==> kept[q].key != key)
  {
    assert i in order;
    var p :| 0 <= p < |order| && order[p] == i;
    PositionIsRank(order, xs, p);
    forall q | 0 <= q < p
      ensures ys[q].key != key
    {
      AheadIsStrict(xs, order[q], i);
      AheadIsStrict(xs, i, i);
    }
  }
}
