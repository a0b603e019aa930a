/**
  What offering recipes one after the other can leave in the bounded map, whatever order the map is
  visited in at an eviction: when a run has one outcome, and when all orders of the offers have one.
 */
module RecipeRuns {
  import opened Recipes
  import opened RecipeRanking

  // ---------- runs ----------

  ghost predicate Evicts(full: map<string, Recipe>, victim: string, m: map<string, Recipe>) {
    IsWorst(full, victim) && m == full - {victim}
  }

  /** One offer: replace if strictly better, and on overflow erase some worst entry. */
  ghost predicate StepsTo(m: map<string, Recipe>, r: Recipe, m2: map<string, Recipe>, cap: nat) {
    if |Offer(m, r)| <= cap then m2 == Offer(m, r) else exists victim :: Evicts(Offer(m, r), victim, m2)
  }

  /** Offering these recipes in this order to an empty map may leave `m`. */
  ghost predicate Reaches(offered: seq<Recipe>, m: map<string, Recipe>, cap: nat)
    decreases |offered|
  {
    if offered == [] then m == map[]
    else
      var earlier, last := offered[..|offered| - 1], offered[|offered| - 1];
      exists before :: Reaches(earlier, before, cap) && StepsTo(before, last, m, cap)
  }

  lemma ReachesOneMore(offered: seq<Recipe>, m: map<string, Recipe>, r: Recipe, m2: map<string, Recipe>, cap: nat)
    requires Reaches(offered, m, cap) && StepsTo(m, r, m2, cap)
    ensures Reaches(offered + [r], m2, cap)
  {
    hide StepsTo;
    assert (offered + [r])[..|offered|] == offered;
  }

  lemma StepKeepsTopK(m: map<string, Recipe>, offered: seq<Recipe>, r: Recipe, m2: map<string, Recipe>, cap: nat)
    requires IsTopK(m, offered, cap) && StepsTo(m, r, m2, cap)
    ensures IsTopK(m2, offered + [r], cap)
  {
    hide IsTopK, IsWorst, Offer;
    if |Offer(m, r)| <= cap {
      OfferWithinCap(m, offered, r, cap);
    } else {
      var victim :| Evicts(Offer(m, r), victim, m2);
      OfferAndEvict(m, offered, r, cap, victim);
    }
  }

  /** Every outcome of a run is a top selection of what was offered. */
  lemma {:induction false} RunIsTopK(offered: seq<Recipe>, m: map<string, Recipe>, cap: nat)
    requires Reaches(offered, m, cap)
    ensures IsTopK(m, offered, cap)
    decreases |offered|
  {
    hide StepsTo;
    if offered == [] {
      NothingIsTopK(cap);
    } else {
      var earlier, r := offered[..|offered| - 1], offered[|offered| - 1];
      var before :| Reaches(earlier, before, cap) && StepsTo(before, r, m, cap);
      RunIsTopK(earlier, before, cap);
      StepKeepsTopK(before, earlier, r, m, cap);
      assert earlier + [r] == offered;
    }
  }

  lemma NothingIsTopK(cap: nat)
    ensures IsTopK(map[], [], cap)
  {
  }

  // ---------- every run has an outcome ----------

  lemma {:induction false} SomeWorst(m: map<string, Recipe>) returns (victim: string)
    requires m != map[]
    ensures IsWorst(m, victim)
    decreases |m|
  {
    hide Better;
    var k :| k in m;
    BetterIsStrict(m[k], m[k]);
    var rest := m - {k};
    assert forall j :: j in m && j != k ==> j in rest;
    if rest == map[] {
      victim := k;
    } else {
      var other := SomeWorst(rest);
      victim := if Better(m[other], m[k]) then k else other;
      forall j | j in m
        ensures !Better(m[victim], m[j])
      {
        assert j != k ==> j in rest && rest[j] == m[j];
        if victim == k && j != k {
          BetterIsStrict(m[other], m[k]);
          NotBetterIsTransitive(m[k], m[other], m[j]);
        }
      }
    }
  }

  lemma {:induction false} SomeRun(offered: seq<Recipe>, cap: nat) returns (m: map<string, Recipe>)
    ensures Reaches(offered, m, cap)
    decreases |offered|
  {
    hide IsWorst, Offer;
    if offered == [] {
      m := map[];
    } else {
      var r := offered[|offered| - 1];
      var before := SomeRun(offered[..|offered| - 1], cap);
      var full := Offer(before, r);
      m := full;
      if |full| > cap {
        var victim := SomeWorst(full);
        m := full - {victim};
        assert Evicts(full, victim, m);
      }
      assert StepsTo(before, r, m, cap);
    }
  }

  // ---------- keys that are settled ----------

  /** The best recipe that will ever be offered for this key has been. */
  ghost predicate Arrived(offered: seq<Recipe>, i: nat, k: string)
    requires i <= |offered| && k in BestPerKey(offered)
  {
    k in BestPerKey(offered[..i]) && BestPerKey(offered[..i])[k] == BestPerKey(offered)[k]
  }

  /** The keys of `s` that have arrived are kept, each with the first best recipe. */
  ghost predicate Settled(offered: seq<Recipe>, i: nat, s: set<string>, m: map<string, Recipe>)
    requires i <= |offered| && s <= BestPerKey(offered).Keys
  {
    forall k :: k in s && Arrived(offered, i, k) ==> k in m && m[k] == BestPerKey(offered)[k]
  }

  /** An offer settles a key that arrives with it, and unsettles none before the eviction. */
  lemma OfferSettles(offered: seq<Recipe>, i: nat, s: set<string>, m: map<string, Recipe>, cap: nat)
    requires i < |offered| && s <= BestPerKey(offered).Keys
    requires IsTopK(m, offered[..i], cap) && Settled(offered, i, s, m)
    ensures Settled(offered, i + 1, s, Offer(m, offered[i]))
  {
    hide Better, IsTopK;
    var r, full := offered[i], Offer(m, offered[i]);
    forall k | k in s && Arrived(offered, i + 1, k)
      ensures k in full && full[k] == BestPerKey(offered)[k]
    {
      BestSteps(offered, i, k);
      if r.key == k && BestPerKey(offered[..i + 1])[k] == r {
        ArrivalReplaces(offered, i, m, cap);
      }
    }
  }

  /** The best recipe so far for a key is the earlier one, or the one just offered. */
  lemma BestSteps(offered: seq<Recipe>, i: nat, k: string)
    requires i < |offered|
    ensures var earlier, r, now := BestPerKey(offered[..i]), offered[i], BestPerKey(offered[..i + 1]);
      now == if r.key in earlier && !Better(r, earlier[r.key]) then earlier else earlier[r.key := r]
  {
    assert offered[..i + 1][..i] == offered[..i];
  }

  lemma ArrivalReplaces(offered: seq<Recipe>, i: nat, m: map<string, Recipe>, cap: nat)
    requires i < |offered| && IsTopK(m, offered[..i], cap)
    ensures var r, earlier := offered[i], BestPerKey(offered[..i]);
      r.key !in earlier || Better(r, earlier[r.key]) ==> Offer(m, r) == m[r.key := r]
  {
    hide Better, KeepsBest;
    var r, earlier := offered[i], BestPerKey(offered[..i]);
    BestPerKeyIsBest(offered[..i]);
    if r.key in m && r.key in earlier && !Better(r, m[r.key]) {
      NotBetterIsTransitive(r, m[r.key], earlier[r.key]);
    }
  }

  /** A step keeps what is settled, as long as it does not erase a settled key. */
  ghost predicate Spares(offered: seq<Recipe>, i: nat, s: set<string>, victim: string)
    requires i <= |offered| && s <= BestPerKey(offered).Keys
  {
    victim in s ==> !Arrived(offered, i, victim)
  }

  lemma SparingKeepsSettled(offered: seq<Recipe>, i: nat, s: set<string>, full: map<string, Recipe>, victim: string)
    requires i <= |offered| && s <= BestPerKey(offered).Keys
    requires Settled(offered, i, s, full) && Spares(offered, i, s, victim)
    ensures Settled(offered, i, s, full - {victim})
  {
    hide Arrived;
  }

  /** No key outside `s` has a better best recipe than one inside. */
  ghost predicate IsTopSet(s: set<string>, offered: seq<Recipe>) {
    var best := BestPerKey(offered);
    s <= best.Keys && forall k, j :: k in s && j in best && j !in s ==> !Better(best[j], best[k])
  }

  /** Whatever a full map holds, nothing in it is better than the best for its key. */
  lemma FullIsBelowBest(offered: seq<Recipe>, i: nat, full: map<string, Recipe>, j: string)
    requires i <= |offered| && j in full && full[j] in offered[..i] && full[j].key == j
    ensures j in BestPerKey(offered) && !Better(full[j], BestPerKey(offered)[j])
  {
    hide Better, BestPerKey;
    BestPerKeyIsBest(offered);
    assert full[j] in offered;
  }

  lemma OfferHoldsOffered(offered: seq<Recipe>, i: nat, m: map<string, Recipe>, cap: nat)
    requires i < |offered| && IsTopK(m, offered[..i], cap)
    ensures forall j :: j in Offer(m, offered[i]) ==>
      Offer(m, offered[i])[j] in offered[..i + 1] && Offer(m, offered[i])[j].key == j
  {
    hide Better, KeepsBest;
    assert offered[..i + 1] == offered[..i] + [offered[i]];
  }

  /** With more keys than a top set has, some worst one is not a settled key of that set. */
  lemma SpareVictim(offered: seq<Recipe>, i: nat, s: set<string>, full: map<string, Recipe>) returns (victim: string)
    requires i <= |offered| && IsTopSet(s, offered) && |s| < |full|
    requires Settled(offered, i, s, full)
    requires forall j :: j in full ==> full[j] in offered[..i] && full[j].key == j
    ensures IsWorst(full, victim) && Spares(offered, i, s, victim)
  {
    hide Better, BestPerKey, Arrived, IsWorst;
    assert full != map[];
    victim := SomeWorst(full);
    if victim in s && Arrived(offered, i, victim) {
      var j := KeyOutside(s, full.Keys);
      WorstIsIn(full, victim);
      OutsideTies(offered, i, s, full, victim, j);
      WorstExactlyWhenTied(full, victim, j);
      victim := j;
    }
  }

  lemma WorstIsIn(m: map<string, Recipe>, victim: string)
    requires IsWorst(m, victim)
    ensures victim in m && forall j :: j in m ==> !Better(m[victim], m[j])
  {
  }

  lemma KeyOutside(s: set<string>, keys: set<string>) returns (j: string)
    requires |s| < |keys|
    ensures j in keys && j !in s
  {
    if keys <= s {
      SubsetSize(keys, s);
      assert false;
    }
    j :| j in keys && j !in s;
  }

  lemma OutsideTies(offered: seq<Recipe>, i: nat, s: set<string>, full: map<string, Recipe>, v: string, j: string)
    requires i <= |offered| && IsTopSet(s, offered) && Settled(offered, i, s, full)
    requires v in s && Arrived(offered, i, v) && j in full && j !in s
    requires v in full && !Better(full[v], full[j])
    requires full[j] in offered[..i] && full[j].key == j
    ensures Tied(full[v], full[j])
  {
    hide Better, BestPerKey, Arrived;
    var best := BestPerKey(offered);
    FullIsBelowBest(offered, i, full, j);
    assert full[v] == best[v];
    NotBetterIsTransitive(full[j], best[j], best[v]);
  }

  /** The visiting order can be chosen so that a top set of keys that fits is kept, in the given order of offers. */
  lemma {:induction false} SteeredRun(offered: seq<Recipe>, i: nat, s: set<string>, cap: nat)
    returns (m: map<string, Recipe>)
    requires i <= |offered| && IsTopSet(s, offered) && |s| <= cap
    ensures Reaches(offered[..i], m, cap) && Settled(offered, i, s, m)
    decreases i
  {
    hide Better, BestPerKey, IsTopK, IsWorst, Arrived, Offer, Reaches;
    if i == 0 {
      m := map[];
      NothingReached(offered, s, cap);
    } else {
      var before := SteeredRun(offered, i - 1, s, cap);
      var r := offered[i - 1];
      var full := Offer(before, r);
      RunIsTopK(offered[..i - 1], before, cap);
      OfferSettles(offered, i - 1, s, before, cap);
      m := full;
      if |full| > cap {
        OfferHoldsOffered(offered, i - 1, before, cap);
        var victim := SpareVictim(offered, i, s, full);
        SparingKeepsSettled(offered, i, s, full, victim);
        m := full - {victim};
        assert Evicts(full, victim, m);
      }
      assert StepsTo(before, r, m, cap);
      ReachesOneMore(offered[..i - 1], before, r, m, cap);
      assert offered[..i - 1] + [r] == offered[..i];
    }
  }

  lemma NothingReached(offered: seq<Recipe>, s: set<string>, cap: nat)
    requires s <= BestPerKey(offered).Keys
    ensures Reaches(offered[..0], map[], cap) && Settled(offered, 0, s, map[])
  {
    assert offered[..0] == [];
  }

  // ---------- offers in a fixed order ----------

  lemma FewerAreBetter(best: map<string, Recipe>, j: string, k: string)
    requires j in best && k in best && !Better(best[k], best[j])
    ensures |BetterKeys(best, j)| <= |BetterKeys(best, k)|
  {
    hide Better;
    forall x | x in BetterKeys(best, j)
      ensures x in BetterKeys(best, k)
    {
      if !Better(best[x], best[k]) {
        NotBetterIsTransitive(best[x], best[k], best[j]);
      }
    }
    SubsetSize(BetterKeys(best, j), BetterKeys(best, k));
  }

  /** If the offline keys fit, no run erases a settled one: all others in the map would be offline keys too. */
  lemma FittingIsSpared(offered: seq<Recipe>, i: nat, cap: nat, full: map<string, Recipe>, victim: string)
    requires i <= |offered| && |Offline(offered, cap)| <= cap < |full|
    requires Settled(offered, i, Offline(offered, cap).Keys, full) && IsWorst(full, victim)
    requires forall j :: j in full ==> full[j] in offered[..i] && full[j].key == j
    ensures Spares(offered, i, Offline(offered, cap).Keys, victim)
  {
    hide Better, BestPerKey, Arrived, IsWorst;
    var s, best := Offline(offered, cap).Keys, BestPerKey(offered);
    WorstIsIn(full, victim);
    if victim in s && Arrived(offered, i, victim) {
      forall j | j in full
        ensures j in s
      {
        FullIsBelowBest(offered, i, full, j);
        NoWorseIsOffline(offered, cap, full[victim], full[j], victim, j);
      }
      SubsetSize(full.Keys, s);
    }
  }

  lemma NoWorseIsOffline(offered: seq<Recipe>, cap: nat, v: Recipe, r: Recipe, victim: string, j: string)
    requires victim in Offline(offered, cap) && v == BestPerKey(offered)[victim] && j in BestPerKey(offered)
    requires !Better(v, r) && !Better(r, BestPerKey(offered)[j])
    ensures j in Offline(offered, cap)
  {
    hide Better, BestPerKey;
    NotBetterIsTransitive(v, r, BestPerKey(offered)[j]);
    FewerAreBetter(BestPerKey(offered), j, victim);
  }

  lemma {:induction false} FittingRunSettles(offered: seq<Recipe>, i: nat, cap: nat, m: map<string, Recipe>)
    requires i <= |offered| && |Offline(offered, cap)| <= cap && Reaches(offered[..i], m, cap)
    ensures Settled(offered, i, Offline(offered, cap).Keys, m)
    decreases i
  {
    hide Better, BestPerKey, IsTopK, IsWorst, Arrived, Offer;
    var s := Offline(offered, cap).Keys;
    if i == 0 {
      NothingReached(offered, s, cap);
    } else {
      var r := offered[i - 1];
      assert offered[..i][..i - 1] == offered[..i - 1];
      var before :| Reaches(offered[..i - 1], before, cap) && StepsTo(before, r, m, cap);
      FittingRunSettles(offered, i - 1, cap, before);
      RunIsTopK(offered[..i - 1], before, cap);
      OfferSettles(offered, i - 1, s, before, cap);
      var full := Offer(before, r);
      if |full| > cap {
        var victim :| Evicts(full, victim, m);
        OfferHoldsOffered(offered, i - 1, before, cap);
        FittingIsSpared(offered, i, cap, full, victim);
        SparingKeepsSettled(offered, i, s, full, victim);
      }
    }
  }

  /** Every outcome of a run keeps offline keys only. */
  lemma KeptIsOffline(offered: seq<Recipe>, m: map<string, Recipe>, cap: nat, k: string)
    requires IsTopK(m, offered, cap) && k in m
    ensures k in Offline(offered, cap) && Tied(m[k], BestPerKey(offered)[k])
  {
    hide Better, BestPerKey;
    var best := BestPerKey(offered);
    BestPerKeyIsBest(offered);
    BetterIsStrict(best[k], best[k]);
    forall j | j in BetterKeys(best, k)
      ensures j in m && j != k
    {
      if !Better(best[j], m[k]) {
        NotBetterIsTransitive(best[j], m[k], best[k]);
      }
    }
    SubsetSize(BetterKeys(best, k), m.Keys - {k});
  }

  /** If the offline keys fit, a run has one outcome, the offline result, ties and all. */
  lemma FittingRunIsOffline(offered: seq<Recipe>, m: map<string, Recipe>, cap: nat)
    requires Reaches(offered, m, cap) && |Offline(offered, cap)| <= cap
    ensures m == Offline(offered, cap)
  {
    hide BestPerKey, Reaches, IsTopK, Tied;
    assert offered[..|offered|] == offered;
    FittingRunSettles(offered, |offered|, cap, m);
    RunIsTopK(offered, m, cap);
    forall k | k in m
      ensures k in Offline(offered, cap)
    {
      KeptIsOffline(offered, m, cap, k);
    }
    forall k | k in Offline(offered, cap)
      ensures k in m && m[k] == Offline(offered, cap)[k]
    {
      assert Arrived(offered, |offered|, k);
    }
  }

  lemma KeptIsTopSet(offered: seq<Recipe>, m: map<string, Recipe>, cap: nat)
    requires IsTopK(m, offered, cap)
    ensures IsTopSet(m.Keys, offered)
  {
    hide Better, BestPerKey;
    var best := BestPerKey(offered);
    BestPerKeyIsBest(offered);
    forall k | k in m
      ensures k in best && !Better(m[k], best[k])
    {
      assert m[k] in offered;
    }
    forall k, j | k in m && j in best && j !in m
      ensures !Better(best[j], best[k])
    {
      NotBetterIsTransitive(best[j], m[k], best[k]);
    }
  }

  /** If they do not fit, some key left out ties with one kept. */
  lemma LeftOutTies(offered: seq<Recipe>, m: map<string, Recipe>, cap: nat) returns (k: string, j: string)
    requires IsTopK(m, offered, cap) && |Offline(offered, cap)| > cap
    ensures var best := BestPerKey(offered);
      k in m && k in best && j in best && j !in m && Tied(best[k], best[j])
  {
    hide Better, BestPerKey, IsTopK, Offline, BetterKeys;
    var best := BestPerKey(offered);
    KeptIsTopSet(offered, m, cap);
    AtMost(m, offered, cap);
    j := KeyOutside(m.Keys, Offline(offered, cap).Keys);
    OfflineKey(offered, cap, j);
    LeftOutMeansFull(m, offered, cap, j);
    k := KeyOutside(BetterKeys(best, j), m.Keys);
    NotAmongBetter(best, j, k);
  }

  lemma OfflineKey(offered: seq<Recipe>, cap: nat, j: string)
    requires j in Offline(offered, cap)
    ensures j in BestPerKey(offered) && |BetterKeys(BestPerKey(offered), j)| < cap
  {
    hide BestPerKey, BetterKeys;
  }

  lemma LeftOutMeansFull(m: map<string, Recipe>, offered: seq<Recipe>, cap: nat, j: string)
    requires IsTopK(m, offered, cap) && j in BestPerKey(offered) && j !in m
    ensures |m| == cap
  {
    hide Better, BestPerKey;
    BestPerKeyIsBest(offered);
    assert BestPerKey(offered)[j] in offered;
  }

  lemma NotAmongBetter(best: map<string, Recipe>, j: string, k: string)
    requires j in best && k in best && k !in BetterKeys(best, j)
    ensures !Better(best[k], best[j])
  {
  }

  lemma SwappedIsTopSet(s: set<string>, offered: seq<Recipe>, k: string, j: string)
    requires IsTopSet(s, offered) && k in s && j in BestPerKey(offered) && j !in s
    requires Tied(BestPerKey(offered)[k], BestPerKey(offered)[j])
    ensures IsTopSet(s - {k} + {j}, offered)
  {
    hide Better, BestPerKey;
    var best := BestPerKey(offered);
    var s2 := s - {k} + {j};
    forall a, b | a in s2 && b in best && b !in s2
      ensures !Better(best[b], best[a])
    {
      if a == j && b != k {
        NotBetterIsTransitive(best[b], best[k], best[j]);
      } else if a != j && b == k {
        NotBetterIsTransitive(best[k], best[j], best[a]);
      }
    }
  }

  /** If the offline keys do not fit, two visiting orders give two outcomes of the same run. */
  lemma NotFittingLeavesTwo(offered: seq<Recipe>, cap: nat) returns (m1: map<string, Recipe>, m2: map<string, Recipe>)
    requires |Offline(offered, cap)| > cap
    ensures Reaches(offered, m1, cap) && Reaches(offered, m2, cap) && m1 != m2
  {
    hide Better, BestPerKey, Reaches, IsTopK, IsTopSet, Offline, Tied;
    m1 := SomeRun(offered, cap);
    RunIsTopK(offered, m1, cap);
    KeptIsTopSet(offered, m1, cap);
    var k, j := LeftOutTies(offered, m1, cap);
    SwappedIsTopSet(m1.Keys, offered, k, j);
    AtMost(m1, offered, cap);
    var s2 := m1.Keys - {k} + {j};
    assert |s2| == |m1.Keys|;
    m2 := SteeredRun(offered, |offered|, s2, cap);
    assert offered[..|offered|] == offered;
    assert Arrived(offered, |offered|, j);
    assert j in m2;
  }

  lemma AtMost(m: map<string, Recipe>, offered: seq<Recipe>, cap: nat)
    requires IsTopK(m, offered, cap)
    ensures |m| <= cap
  {
  }

  /**
    Offers in a given order, ties included: the visiting order makes no difference if and only if no
    more keys than fit have fewer than the cap of strictly better ones.  The outcome is then the
    offline result.
   */
  lemma FileOrderExactlyWhen(offered: seq<Recipe>, cap: nat)
    ensures (forall m1, m2 :: Reaches(offered, m1, cap) && Reaches(offered, m2, cap) ==> m1 == m2) <==>
            |Offline(offered, cap)| <= cap
    ensures |Offline(offered, cap)| <= cap ==> forall m :: Reaches(offered, m, cap) ==> m == Offline(offered, cap)
  {
    hide Reaches, Offline;
    if |Offline(offered, cap)| <= cap {
      forall m | Reaches(offered, m, cap)
        ensures m == Offline(offered, cap)
      {
        FittingRunIsOffline(offered, m, cap);
      }
    } else {
      var m1, m2 := NotFittingLeavesTwo(offered, cap);
    }
  }

  // ---------- offers in any order ----------

  /** On the offers alone: the offline keys fit, and nothing offered ties with what is kept for its key. */
  ghost predicate OffersDecide(offered: seq<Recipe>, cap: nat) {
    var kept := Offline(offered, cap);
    && |kept| <= cap
    && forall r :: r in offered && r.key in kept && Tied(r, kept[r.key]) ==> r == kept[r.key]
  }

  lemma TiedTransitive(a: Recipe, b: Recipe, c: Recipe)
    requires Tied(a, b) && Tied(b, c)
    ensures Tied(a, c)
  {
    hide Better;
    NotBetterIsTransitive(a, b, c);
    NotBetterIsTransitive(c, b, a);
  }

  lemma DecidedLeavesNoChoice(m: map<string, Recipe>, offered: seq<Recipe>, cap: nat)
    requires IsTopK(m, offered, cap) && OffersDecide(offered, cap)
    ensures NoChoice(m, offered)
  {
    hide Better, BestPerKey, IsTopK, Tied, Offline;
    var best, kept := BestPerKey(offered), Offline(offered, cap);
    forall k | k in m
      ensures k in kept && k in best && kept[k] == best[k] && Tied(m[k], kept[k])
    {
      KeptIsOffline(offered, m, cap, k);
      OfflineValue(offered, cap, k);
    }
    forall r | r in offered && r.key in m && Tied(r, m[r.key])
      ensures r == m[r.key]
    {
      TiedTransitive(r, m[r.key], kept[r.key]);
      KeptWasOffered(m, offered, cap, r.key);
    }
    forall r, k | r in offered && r.key !in m && k in m
      ensures Better(m[k], r)
    {
      LeftOutIsWorse(m, offered, cap, r, k);
    }
  }

  lemma OfflineValue(offered: seq<Recipe>, cap: nat, k: string)
    requires k in Offline(offered, cap)
    ensures k in BestPerKey(offered) && Offline(offered, cap)[k] == BestPerKey(offered)[k]
  {
    hide BestPerKey, BetterKeys;
  }

  lemma KeptWasOffered(m: map<string, Recipe>, offered: seq<Recipe>, cap: nat, k: string)
    requires IsTopK(m, offered, cap) && k in m
    ensures m[k] in offered && m[k].key == k
  {
    hide Better;
  }

  /** When the offline keys fit, whatever is left out is strictly worse than everything kept. */
  lemma LeftOutIsWorse(m: map<string, Recipe>, offered: seq<Recipe>, cap: nat, r: Recipe, k: string)
    requires IsTopK(m, offered, cap) && |Offline(offered, cap)| <= cap
    requires r in offered && r.key !in m && k in m
    ensures Better(m[k], r)
  {
    hide Better, BestPerKey, Offline, Tied;
    var best := BestPerKey(offered);
    BestPerKeyIsBest(offered);
    KeptIsOffline(offered, m, cap, k);
    LeftOutMeansFull(m, offered, cap, r.key);
    if !Better(m[k], r) {
      forall j | j in m
        ensures j in Offline(offered, cap)
      {
        KeptIsOffline(offered, m, cap, j);
      }
      NotBetterTied(best[k], m[k], r);
      NotBetterIsTransitive(best[k], r, best[r.key]);
      FewerAreBetter(best, r.key, k);
      OfflineKey(offered, cap, k);
      FewIsOffline(offered, cap, r.key);
      SubsetSize(m.Keys + {r.key}, Offline(offered, cap).Keys);
    }
  }

  lemma NotBetterTied(a: Recipe, b: Recipe, c: Recipe)
    requires Tied(b, a) && !Better(b, c)
    ensures !Better(a, c)
  {
    hide Better;
    NotBetterIsTransitive(a, b, c);
  }

  lemma FewIsOffline(offered: seq<Recipe>, cap: nat, j: string)
    requires j in BestPerKey(offered) && |BetterKeys(BestPerKey(offered), j)| < cap
    ensures j in Offline(offered, cap)
  {
    hide BestPerKey, BetterKeys;
  }

  lemma NoChoiceIsDecided(m: map<string, Recipe>, offered: seq<Recipe>, cap: nat)
    requires IsTopK(m, offered, cap) && NoChoice(m, offered)
    ensures OffersDecide(offered, cap)
  {
    hide Better, BestPerKey, IsTopK, Tied, Offline, NoChoice;
    var best, kept := BestPerKey(offered), Offline(offered, cap);
    BestPerKeyIsBest(offered);
    if |kept| > cap {
      var k, j := LeftOutTies(offered, m, cap);
      KeptIsOffline(offered, m, cap, k);
      TiedTransitive(m[k], best[k], best[j]);
      NoChoiceBeats(m, offered, best[j], k);
      BetterIsNotTied(m[k], best[j]);
    } else {
      forall r | r in offered && r.key in kept && Tied(r, kept[r.key])
        ensures r == kept[r.key]
      {
        OfflineIsKept(m, offered, cap, r.key);
        KeptIsOffline(offered, m, cap, r.key);
        OfflineValue(offered, cap, r.key);
        TiedSymmetric(m[r.key], best[r.key]);
        TiedTransitive(r, best[r.key], m[r.key]);
        TiedIsSame(m, offered, r);
        TiedIsSame(m, offered, best[r.key]);
      }
    }
  }

  lemma TiedSymmetric(a: Recipe, b: Recipe)
    requires Tied(a, b)
    ensures Tied(b, a)
  {
  }

  lemma BetterIsNotTied(a: Recipe, b: Recipe)
    requires Better(a, b)
    ensures !Tied(a, b)
  {
  }

  lemma NoChoiceBeats(m: map<string, Recipe>, offered: seq<Recipe>, r: Recipe, k: string)
    requires NoChoice(m, offered) && r in offered && r.key !in m && k in m
    ensures Better(m[k], r)
  {
  }

  /** When the offline keys fit, every top selection keeps them all. */
  lemma OfflineIsKept(m: map<string, Recipe>, offered: seq<Recipe>, cap: nat, k: string)
    requires IsTopK(m, offered, cap) && |Offline(offered, cap)| <= cap && k in Offline(offered, cap)
    ensures k in m
  {
    hide Better, BestPerKey, IsTopK, Offline, Tied;
    if k !in m {
      OfflineKey(offered, cap, k);
      LeftOutMeansFull(m, offered, cap, k);
      forall j | j in m
        ensures j in Offline(offered, cap)
      {
        KeptIsOffline(offered, m, cap, j);
      }
      SubsetSize(m.Keys + {k}, Offline(offered, cap).Keys);
    }
  }

  // ---------- every top selection is an outcome of some order ----------

  /** The recipes of a map that fits, loaded one after the other. */
  lemma {:induction false} LoadsAll(m: map<string, Recipe>, cap: nat) returns (first: seq<Recipe>)
    requires |m| <= cap && forall k :: k in m ==> m[k].key == k
    ensures Reaches(first, m, cap)
    ensures forall r :: r in first ==> r.key in m && m[r.key] == r
    ensures forall i, j :: 0 <= i < j < |first| ==> first[i] != first[j]
    decreases |m|
  {
    hide Better, Reaches;
    if m == map[] {
      first := [];
      NothingReachedAtAll(cap);
    } else {
      var k :| k in m;
      var rest := m - {k};
      var earlier := LoadsAll(rest, cap);
      first := earlier + [m[k]];
      assert rest[k := m[k]] == m;
      assert Offer(rest, m[k]) == m;
      ReachesOneMore(earlier, rest, m[k], m, cap);
    }
  }

  lemma NothingReachedAtAll(cap: nat)
    ensures Reaches([], map[], cap)
  {
  }

  /** Offers of other recipes leave a top selection in place: a newcomer that does not fit is itself a worst entry. */
  lemma OtherOffersStayOut(m: map<string, Recipe>, offered: seq<Recipe>, r: Recipe, cap: nat)
    requires IsTopK(m, offered, cap) && r in offered
    ensures StepsTo(m, r, m, cap)
  {
    hide Better;
    if r.key !in m {
      var full := m[r.key := r];
      assert full.Keys == m.Keys + {r.key};
      BetterIsStrict(r, r);
      assert full - {r.key} == m;
      assert Evicts(full, r.key, m);
    }
  }

  lemma {:induction false} RestStaysOut(
      first: seq<Recipe>, rest: seq<Recipe>, m: map<string, Recipe>, offered: seq<Recipe>, cap: nat)
    requires Reaches(first, m, cap) && IsTopK(m, offered, cap)
    requires forall r :: r in rest ==> r in offered
    ensures Reaches(first + rest, m, cap)
    decreases |rest|
  {
    hide IsTopK, Reaches, StepsTo;
    if rest == [] {
      assert first + rest == first;
    } else {
      var n := |rest| - 1;
      RestStaysOut(first, rest[..n], m, offered, cap);
      OtherOffersStayOut(m, offered, rest[n], cap);
      ReachesOneMore(first + rest[..n], m, rest[n], m, cap);
      assert first + rest == first + rest[..n] + [rest[n]];
    }
  }

  /** Different recipes of a list, put first: what remains of the list. */
  lemma {:induction false} TakeAway(first: seq<Recipe>, offered: seq<Recipe>) returns (rest: seq<Recipe>)
    requires forall r :: r in first ==> r in offered
    requires forall i, j :: 0 <= i < j < |first| ==> first[i] != first[j]
    ensures multiset(first + rest) == multiset(offered)
    decreases |first|
  {
    if first == [] {
      rest := offered;
      assert first + rest == offered;
    } else {
      var n := |first| - 1;
      assert first[n] in first;
      var fewer := TakeOne(first[n], offered);
      forall r | r in first[..n]
        ensures r in fewer
      {
        assert r in first;
      }
      rest := TakeAway(first[..n], fewer);
      assert first == first[..n] + [first[n]];
      assert multiset(first + rest) == multiset(first[..n] + rest) + multiset{first[n]};
    }
  }

  lemma TakeOne(x: Recipe, offered: seq<Recipe>) returns (fewer: seq<Recipe>)
    requires x in offered
    ensures multiset(offered) == multiset(fewer) + multiset{x}
    ensures forall r :: r in offered && r != x ==> r in fewer
  {
    var i :| 0 <= i < |offered| && offered[i] == x;
    fewer := offered[..i] + offered[i + 1..];
    assert offered == offered[..i] + [x] + offered[i + 1..];
  }

  /** Some order of the same offers ends in any given top selection. */
  lemma TopKIsReached(m: map<string, Recipe>, offered: seq<Recipe>, cap: nat) returns (order: seq<Recipe>)
    requires IsTopK(m, offered, cap)
    ensures multiset(order) == multiset(offered) && Reaches(order, m, cap)
  {
    hide Better, Reaches;
    var first := LoadsAll(m, cap);
    var rest := TakeAway(first, offered);
    forall r | r in rest
      ensures r in offered
    {
      assert r in multiset(first + rest);
    }
    RestStaysOut(first, rest, m, offered, cap);
    order := first + rest;
  }

  lemma PermutedIsTopK(order: seq<Recipe>, offered: seq<Recipe>, m: map<string, Recipe>, cap: nat)
    requires multiset(order) == multiset(offered) && Reaches(order, m, cap)
    ensures IsTopK(m, offered, cap)
  {
    hide Better, Reaches;
    RunIsTopK(order, m, cap);
    assert forall r :: r in order <==> r in multiset(order);
    assert forall r :: r in offered <==> r in multiset(offered);
  }

  /** Offering the same recipes in some order may leave `m`. */
  ghost predicate MayLeave(offered: seq<Recipe>, m: map<string, Recipe>, cap: nat) {
    exists order :: multiset(order) == multiset(offered) && Reaches(order, m, cap)
  }

  /** What the orders of the offers can leave are the top selections, all of them and no others. */
  lemma MayLeaveExactlyTopK(offered: seq<Recipe>, m: map<string, Recipe>, cap: nat)
    ensures MayLeave(offered, m, cap) <==> IsTopK(m, offered, cap)
  {
    hide Reaches, IsTopK;
    if MayLeave(offered, m, cap) {
      var order :| multiset(order) == multiset(offered) && Reaches(order, m, cap);
      PermutedIsTopK(order, offered, m, cap);
    }
    if IsTopK(m, offered, cap) {
      var order := TopKIsReached(m, offered, cap);
    }
  }

  /**
    The same recipes in any order: all runs end in one map if and only if the offline keys fit and no
    offered recipe ties with, and differs from, the one kept offline for its key.
   */
  lemma AnyOrderExactlyWhen(offered: seq<Recipe>, cap: nat)
    ensures (forall m1, m2 :: MayLeave(offered, m1, cap) && MayLeave(offered, m2, cap) ==> m1 == m2) <==>
            OffersDecide(offered, cap)
    ensures OffersDecide(offered, cap) ==> forall m :: MayLeave(offered, m, cap) ==> m == Offline(offered, cap)
  {
    hide Reaches, MayLeave, IsTopK, OffersDecide, NoChoice, Offline;
    var m := SomeRun(offered, cap);
    RunIsTopK(offered, m, cap);
    DecidedExactlyWhenNoChoice(m, offered, cap);
    DeterminedExactlyWhen(m, offered, cap);
    forall m2
      ensures MayLeave(offered, m2, cap) <==> IsTopK(m2, offered, cap)
    {
      MayLeaveExactlyTopK(offered, m2, cap);
    }
    if OffersDecide(offered, cap) {
      DecidedFits(offered, cap);
      FittingRunIsOffline(offered, m, cap);
    }
  }

  lemma DecidedFits(offered: seq<Recipe>, cap: nat)
    requires OffersDecide(offered, cap)
    ensures |Offline(offered, cap)| <= cap
  {
    hide Offline;
  }

  /** Two tied recipes for one key: each order of the offers has one outcome, and the first offered stays. */
  lemma SameKeyTieExample(a: Recipe, b: Recipe)
    requires a.key == b.key && Tied(a, b) && a != b
    ensures forall m :: Reaches([a, b], m, 1) <==> m == map[a.key := a]
    ensures !OffersDecide([a, b], 1)
  {
    hide Better, OffersDecide, Reaches;
    SingleOutcome(a, b);
    SingleOutcome(b, a);
    AnyOrderExactlyWhen([a, b], 1);
    var m1, m2 := map[a.key := a], map[b.key := b];
    assert Reaches([a, b], m1, 1) && Reaches([b, a], m2, 1);
    assert multiset([b, a]) == multiset([a, b]);
    assert MayLeave([a, b], m1, 1) && MayLeave([a, b], m2, 1);
    assert m1[a.key] != m2[a.key];
  }

  /** While everything fits, one outcome before an offer gives one after it. */
  lemma OneMoreOutcome(offered: seq<Recipe>, only: map<string, Recipe>, r: Recipe, cap: nat)
    requires forall m :: Reaches(offered, m, cap) <==> m == only
    requires |Offer(only, r)| <= cap
    ensures forall m :: Reaches(offered + [r], m, cap) <==> m == Offer(only, r)
  {
    hide Better, Offer;
    assert (offered + [r])[..|offered|] == offered;
    assert Reaches(offered, only, cap) && StepsTo(only, r, Offer(only, r), cap);
    ReachesOneMore(offered, only, r, Offer(only, r), cap);
    forall m | Reaches(offered + [r], m, cap)
      ensures m == Offer(only, r)
    {
      var before :| Reaches(offered, before, cap) && StepsTo(before, r, m, cap);
    }
  }

  lemma SingleOutcome(a: Recipe, b: Recipe)
    requires a.key == b.key && Tied(a, b)
    ensures forall m :: Reaches([a, b], m, 1) <==> m == map[a.key := a]
  {
    hide Better, StepsTo;
    var only := map[a.key := a];
    assert |only| == 1;
    assert Offer(map[], a) == only && Offer(only, b) == only;
    NothingReachedAtAll(1);
    OneMoreOutcome([], map[], a, 1);
    assert [] + [a] == [a];
    OneMoreOutcome([a], only, b, 1);
    assert [a] + [b] == [a, b];
  }

  /** The condition on the offers alone says of every top selection that no tie left a choice. */
  lemma DecidedExactlyWhenNoChoice(m: map<string, Recipe>, offered: seq<Recipe>, cap: nat)
    requires IsTopK(m, offered, cap)
    ensures OffersDecide(offered, cap) <==> NoChoice(m, offered)
  {
    hide IsTopK, OffersDecide, NoChoice;
    if OffersDecide(offered, cap) {
      DecidedLeavesNoChoice(m, offered, cap);
    }
    if NoChoice(m, offered) {
      NoChoiceIsDecided(m, offered, cap);
    }
  }
}
