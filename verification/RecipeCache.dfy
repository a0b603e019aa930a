/** The mutator's recipe cache: a bounded hash map, a sorted and cut list, and its key index. */
module RecipeCaching {
  import opened Wrappers
  import opened Ranges
  import opened Recipes
  import opened RecipeRanking
  import opened RecipeRuns
  import opened SeedHashing

  const MAX_SEED_ID_RECIPES: nat := 4096
  const MAX_HASH_ENTRIES: nat := 8192

  // ---------- preparing a recipe ----------

  /** Normalized weights, and both range lists sorted by `begin`. */
  ghost predicate IsPrepared(r: Recipe, prepared: Recipe) {
    && prepared == r.(weights := Normalized(r.weights), focus := prepared.focus, protect := prepared.protect)
    && multiset(prepared.focus) == multiset(r.focus) && SortedByBegin(prepared.focus)
    && multiset(prepared.protect) == multiset(r.protect) && SortedByBegin(prepared.protect)
  }

  method Prepare(r: Recipe) returns (prepared: Recipe)
    ensures IsPrepared(r, prepared)
  {
    var weights := Normalize(r.weights);
    var protect := Sort(r.protect);
    var focus := Sort(r.focus);
    prepared := r.(weights := weights, focus := focus, protect := protect);
  }

  // ---------- the stable sort ----------

  /** The library's stable sort, by insertion; `order` says which loaded entry went where. */
  method StableSort(xs: seq<Recipe>) returns (ys: seq<Recipe>, ghost order: seq<nat>)
    ensures IsStableSort(ys, xs, order)
    ensures |ys| == |xs|
  {
    ys, order := [], [];
    for i := 0 to |xs|
      invariant |ys| == i && IsStableSort(ys, xs[..i], order)
    {
      var at := 0;
      while at < |ys| && !Better(xs[i], ys[at])
        invariant at <= |ys|
        invariant forall p :: 0 <= p < at ==> !Better(xs[i], ys[p])
      {
        at := at + 1;
      }
      InsertKeepsRanking(ys, xs[..i], order, xs[i], at);
      ys := Inserted(ys, at, xs[i]);
      order := Inserted(order, at, i);
      assert xs[..i + 1] == xs[..i] + [xs[i]];
    }
    assert xs[..|xs|] == xs;
  }

  function Inserted<T>(s: seq<T>, at: nat, x: T): seq<T>
    requires at <= |s|
  {
    s[..at] + [x] + s[at..]
  }

  lemma InsertKeepsRanking(ys: seq<Recipe>, xs: seq<Recipe>, order: seq<nat>, x: Recipe, at: nat)
    requires IsStableSort(ys, xs, order) && at <= |ys|
    requires forall p :: 0 <= p < at ==> !Better(x, ys[p])
    requires at < |ys| ==> Better(x, ys[at])
    ensures IsStableSort(Inserted(ys, at, x), xs + [x], Inserted(order, at, |xs|))
  {
    hide Better, Ahead;
    var xs2, order2 := xs + [x], Inserted(order, at, |xs|);
    forall i | 0 <= i < |xs2|
      ensures i in order2
    {
      if i < |xs| {
        assert i in order;
        var p :| 0 <= p < |order| && order[p] == i;
        assert order2[if p < at then p else p + 1] == i;
      } else {
        assert order2[at] == i;
      }
    }
    forall p | at <= p < |order|
      ensures Better(x, xs[order[p]])
    {
      BetterBefore(xs, order, x, at, p);
    }
    forall p, q | 0 <= p < q < |order2|
      ensures Ahead(xs2, order2[p], order2[q])
    {
      PairStaysRanked(xs, order, x, at, p, q);
    }
  }

  lemma PairStaysRanked(xs: seq<Recipe>, order: seq<nat>, x: Recipe, at: nat, p: nat, q: nat)
    requires IsRanking(order, xs) && at <= |order| && p < q <= |order|
    requires forall k :: 0 <= k < |order| ==> (Better(x, xs[order[k]]) <==> at <= k)
    ensures var order2 := Inserted(order, at, |xs|);
            order2[p] <= |xs| && order2[q] <= |xs| && Ahead(xs + [x], order2[p], order2[q])
  {
    hide Better;
    var p', q' := if p <= at then p else p - 1, if q <= at then q else q - 1;
    if p != at && q != at {
      assert Ahead(xs, order[p'], order[q']);
    }
  }

  lemma BetterBefore(xs: seq<Recipe>, order: seq<nat>, x: Recipe, at: nat, p: nat)
    requires IsRanking(order, xs) && at <= p < |order| && Better(x, xs[order[at]])
    ensures Better(x, xs[order[p]])
  {
    if at < p && !Better(x, xs[order[p]]) {
      assert Ahead(xs, order[at], order[p]);
      BetterIsStrict(xs[order[at]], xs[order[p]]);
      NotBetterIsTransitive(x, xs[order[p]], xs[order[at]]);
    }
  }

  class RecipeCache {
    var global: Recipe
    var loaded: bool
    var seedIdRecipes: seq<Recipe>
    var seedIdIndex: map<string, nat>
    var seedHashRecipes: map<string, Recipe>

    /** The `seed_hash` recipes offered, and the `seed_id` recipes loaded, since the last clearing. */
    ghost var offered: seq<Recipe>
    ghost var loadedById: seq<Recipe>

    /** Every entry is in bounds, and the index agrees with a scan for the first recipe with a key. */
    ghost predicate IndexValid()
      reads this
    {
      && (forall key :: key in seedIdIndex ==> key != "" && FirstWithKey(seedIdRecipes, key, seedIdIndex[key]))
      && (forall p :: 0 <= p < |seedIdRecipes| && seedIdRecipes[p].key != "" ==> seedIdRecipes[p].key in seedIdIndex)
    }

    /** The list is what a stable sort makes of the loaded recipes, cut to the cap. */
    ghost predicate ListValid()
      reads this
    {
      exists ys, order ::
        && IsStableSort(ys, loadedById, order)
        && seedIdRecipes == ys[..Min(|ys|, MAX_SEED_ID_RECIPES)]
    }

    /** The map is what some run over the offered recipes leaves. */
    ghost predicate HashValid()
      reads this
    {
      Reaches(offered, seedHashRecipes, MAX_HASH_ENTRIES)
    }

    ghost predicate Valid()
      reads this
    {
      IndexValid() && ListValid() && HashValid()
    }

    constructor ()
      ensures Valid() && !loaded && offered == [] && loadedById == []
      ensures seedIdRecipes == [] && seedHashRecipes == map[]
      ensures IsDistribution(global.weights) && UsableRecipe(global)
    {
      loaded := false;
      seedIdRecipes, seedIdIndex, seedHashRecipes := [], map[], map[];
      offered, loadedById := [], [];
      var weights := Normalize([Weight(BitFlip, 0.45), Weight(OverwriteRange, 0.35), Weight(Arith, 0.20)]);
      global := Recipe("fallback", "global", "global", 0, 0, weights, [], [], [], []);
      new;
      NothingLoaded();
    }

    lemma NothingLoaded()
      requires seedIdRecipes == [] && loadedById == [] && seedIdIndex == map[]
      ensures ListValid() && IndexValid()
    {
      var none: seq<Recipe> := [];
      var order: seq<nat> := [];
      assert IsStableSort(none, loadedById, order);
      assert seedIdRecipes == none[..Min(|none|, MAX_SEED_ID_RECIPES)];
    }

    /** A `seed_hash` recipe goes to the map, a `seed_id` recipe to the end of the list; others are dropped. */
    method AddRecipe(recipe: Recipe) returns (ghost prepared: Recipe)
      requires HashValid()
      modifies this`seedIdRecipes, this`seedHashRecipes, this`offered
      ensures IsPrepared(recipe, prepared)
      ensures HashValid()
      ensures offered == old(offered) + if recipe.mode == "seed_hash" then [prepared] else []
      ensures seedIdRecipes == old(seedIdRecipes) + if recipe.mode == "seed_id" then [prepared] else []
      ensures recipe.mode != "seed_hash" ==> seedHashRecipes == old(seedHashRecipes)
    {
      var r := Prepare(recipe);
      prepared := r;
      if r.mode == "seed_id" {
        seedIdRecipes := seedIdRecipes + [r];
      } else if r.mode == "seed_hash" {
        OfferRecipe(r);
      }
    }

    /** Replace if better; on overflow scan for the worst entry, in whatever order the map gives, and erase it. */
    method OfferRecipe(r: Recipe)
      requires HashValid()
      modifies this`seedHashRecipes, this`offered
      ensures HashValid() && offered == old(offered) + [r]
      ensures StepsTo(old(seedHashRecipes), r, seedHashRecipes, MAX_HASH_ENTRIES)
    {
      hide Better, Reaches;
      ghost var before := seedHashRecipes;
      var key := r.key;
      if key !in seedHashRecipes || Better(r, seedHashRecipes[key]) {
        seedHashRecipes := seedHashRecipes[key := r];
      }
      assert seedHashRecipes == Offer(before, r);
      if |seedHashRecipes| > MAX_HASH_ENTRIES {
        var victim := FindWorst();
        seedHashRecipes := seedHashRecipes - {victim};
        assert Evicts(Offer(before, r), victim, seedHashRecipes);
      }
      ReachesOneMore(offered, before, r, seedHashRecipes, MAX_HASH_ENTRIES);
      offered := offered + [r];
    }

    method FindWorst() returns (victim: string)
      requires |seedHashRecipes| > 0
      ensures IsWorst(seedHashRecipes, victim)
    {
      victim :| victim in seedHashRecipes;
      var rest := seedHashRecipes.Keys;
      while rest != {}
        invariant rest <= seedHashRecipes.Keys && victim in seedHashRecipes
        invariant forall k :: k in seedHashRecipes && k !in rest ==>
          !Better(seedHashRecipes[victim], seedHashRecipes[k])
        decreases rest
      {
        var k :| k in rest;
        ghost var earlier := victim;
        BetterIsStrict(seedHashRecipes[k], seedHashRecipes[k]);
        if Better(seedHashRecipes[victim], seedHashRecipes[k]) {
          BetterIsStrict(seedHashRecipes[victim], seedHashRecipes[k]);
          victim := k;
        }
        rest := rest - {k};
        forall j | j in seedHashRecipes && j !in rest
          ensures !Better(seedHashRecipes[victim], seedHashRecipes[j])
        {
          if j != k && victim == k {
            BetterIsStrict(seedHashRecipes[earlier], seedHashRecipes[k]);
            NotBetterIsTransitive(seedHashRecipes[k], seedHashRecipes[earlier], seedHashRecipes[j]);
          }
        }
      }
    }

    /** The first recipe with a key wins, as `emplace` never overwrites. */
    method RebuildSeedIdIndex()
      modifies this`seedIdIndex
      ensures IndexValid()
    {
      seedIdIndex := map[];
      for i := 0 to |seedIdRecipes|
        invariant forall key :: key in seedIdIndex ==>
          key != "" && seedIdIndex[key] < i && FirstWithKey(seedIdRecipes, key, seedIdIndex[key])
        invariant forall p :: 0 <= p < i && seedIdRecipes[p].key != "" ==> seedIdRecipes[p].key in seedIdIndex
      {
        var key := seedIdRecipes[i].key;
        if key == "" {
          continue;
        }
        if key !in seedIdIndex {
          seedIdIndex := seedIdIndex[key := i];
        }
      }
    }

    /**
      Loading into cleared tables: the global recipe if there is one, then the indexed recipes in
      file order, then one sort, one cut and one index rebuild.  The files come in as values.
     */
    method Load(globalRecipe: Option<Recipe>, entries: seq<Recipe>)
      requires Valid() && seedIdRecipes == [] && loadedById == [] && offered == []
      modifies this
      ensures Valid()
      ensures AllPrepared(OfMode(entries, "seed_hash"), offered)
      ensures AllPrepared(OfMode(entries, "seed_id"), loadedById)
      ensures loaded == (old(loaded) || globalRecipe.Some? || entries != [])
      ensures global == LoadedGlobal(old(global), globalRecipe)
    {
      hide IsPrepared, Reaches, Normalized, OfMode;
      if globalRecipe.Some? {
        var g := globalRecipe.value;
        var weights := Normalize(if g.weights == [] then global.weights else g.weights);
        global := g.(mode := "global", key := "global", weights := weights);
        loaded := true;
      }
      AddAll(entries);
      FinishLoad();
    }

    /** The loop over the index file. */
    method AddAll(entries: seq<Recipe>)
      requires HashValid() && seedIdRecipes == [] && offered == []
      modifies this`seedIdRecipes, this`seedHashRecipes, this`offered, this`loaded
      ensures HashValid()
      ensures AllPrepared(OfMode(entries, "seed_hash"), offered)
      ensures AllPrepared(OfMode(entries, "seed_id"), seedIdRecipes)
      ensures loaded == (old(loaded) || entries != [])
    {
      hide IsPrepared, Reaches, Normalized;
      for i := 0 to |entries|
        invariant HashValid()
        invariant AllPrepared(OfMode(entries[..i], "seed_hash"), offered)
        invariant AllPrepared(OfMode(entries[..i], "seed_id"), seedIdRecipes)
        invariant loaded == (old(loaded) || i > 0)
      {
        OfModeNext(entries, i, "seed_hash");
        OfModeNext(entries, i, "seed_id");
        ghost var prepared := AddRecipe(entries[i]);
        loaded := true;
      }
      assert entries[..|entries|] == entries;
    }

    /** The batch sort, the eviction loop and the index rebuild. */
    method FinishLoad()
      requires HashValid() && seedIdIndex == map[]
      modifies this`seedIdRecipes, this`seedIdIndex, this`loadedById
      ensures Valid() && loadedById == old(seedIdRecipes)
    {
      loadedById := seedIdRecipes;
      ghost var ys: seq<Recipe>;
      ghost var order: seq<nat>;
      if seedIdRecipes != [] {
        seedIdRecipes, order := StableSort(seedIdRecipes);
        ys := seedIdRecipes;
        while |seedIdRecipes| > MAX_SEED_ID_RECIPES
          invariant seedIdRecipes == ys[..|seedIdRecipes|] && |seedIdRecipes| <= |ys|
          invariant |seedIdRecipes| >= Min(|ys|, MAX_SEED_ID_RECIPES)
          invariant loadedById == old(seedIdRecipes)
        {
          seedIdRecipes := seedIdRecipes[..|seedIdRecipes| - 1];
        }
        RebuildSeedIdIndex();
      } else {
        ys, order := [], [];
      }
      assert IsStableSort(ys, loadedById, order);
      assert seedIdRecipes == ys[..Min(|ys|, MAX_SEED_ID_RECIPES)];
    }

    /** Whatever was cached before, reloading leaves exactly what a fresh load would. */
    method Reload(globalRecipe: Option<Recipe>, entries: seq<Recipe>)
      requires Valid()
      modifies this
      ensures Valid()
      ensures AllPrepared(OfMode(entries, "seed_hash"), offered)
      ensures AllPrepared(OfMode(entries, "seed_id"), loadedById)
      ensures loaded == (old(loaded) || globalRecipe.Some? || entries != [])
      ensures global == LoadedGlobal(old(global), globalRecipe)
    {
      hide IsPrepared, Normalized, OfMode, LoadedGlobal;
      seedIdRecipes, seedIdIndex, seedHashRecipes := [], map[], map[];
      offered, loadedById := [], [];
      NothingLoaded();
      Load(globalRecipe, entries);
    }

    /** Every recipe a lookup can return has what the mutator needs of it. */
    ghost predicate Usable()
      reads this
    {
      && UsableRecipe(global)
      && (forall r :: r in offered ==> StoredRecipe(r))
      && (forall r :: r in loadedById ==> StoredRecipe(r))
    }

    lemma LoadedIsUsable(entries: seq<Recipe>)
      requires AllPrepared(OfMode(entries, "seed_hash"), offered)
      requires AllPrepared(OfMode(entries, "seed_id"), loadedById)
      requires UsableRecipe(global) && forall r :: r in entries ==> NonEmpty(r.focus)
      ensures Usable()
    {
      PreparedIsUsable(entries, "seed_hash", offered);
      PreparedIsUsable(entries, "seed_id", loadedById);
    }

    /** Entry `i` of the load answers for this seed name. */
    ghost predicate AnswersById(seedName: string, i: nat)
      reads this
    {
      seedName != "" && BestLoaded(loadedById, seedName, i) && |EntriesAhead(loadedById, i)| < MAX_SEED_ID_RECIPES
    }

    /** What a lookup answers. */
    ghost predicate Answer(seedName: string, data: Option<seq<bv8>>, hashHint: string, recipe: Recipe, hit: bool)
      reads this
    {
      && (forall i: nat :: AnswersById(seedName, i) ==> recipe == loadedById[i] && hit)
      && ((forall i: nat :: !AnswersById(seedName, i)) ==>
            var key := if hashHint != "" || data.None? then hashHint else SeedHash(data.value);
            if data.Some? && data.value != [] && key in seedHashRecipes
            then recipe == seedHashRecipes[key] && hit
            else recipe == global && hit == (loaded && global.id != "fallback"))
    }

    /**
      By name first: exactly when the best-ranked loaded recipe for the name made the cut, and then
      that recipe.  Then by hash among the kept entries, then the global recipe.
     */
    method Lookup(seedName: string, data: Option<seq<bv8>>, hashHint: string) returns (recipe: Recipe, hit: bool)
      requires Valid()
      ensures Answer(seedName, data, hashHint, recipe, hit)
      ensures Usable() ==> UsableRecipe(recipe) && (recipe == global || SortedByBegin(recipe.protect))
    {
      IndexIsBestLoaded(seedName);
      if seedIdIndex != map[] {
        if seedName in seedIdIndex && seedIdIndex[seedName] < |seedIdRecipes| {
          return seedIdRecipes[seedIdIndex[seedName]], true;
        }
      }
      if seedHashRecipes != map[] && data.Some? && |data.value| > 0 {
        var key := hashHint;
        if key == "" {
          key := ComputeSeedHash(data.value);
        }
        if key in seedHashRecipes {
          KeptIsOffered(key);
          return seedHashRecipes[key], true;
        }
      }
      hit := false;
      if loaded {
        hit := global.id != "fallback";
      }
      recipe := global;
    }

    lemma KeptIsOffered(key: string)
      requires Valid() && key in seedHashRecipes
      ensures seedHashRecipes[key] in offered
    {
      hide Better, Reaches;
      MapIsTopK();
    }

    lemma IndexIsBestLoaded(seedName: string)
      requires Valid()
      ensures forall i: nat :: AnswersById(seedName, i) ==>
        seedName in seedIdIndex && seedIdIndex[seedName] < |seedIdRecipes|
        && seedIdRecipes[seedIdIndex[seedName]] == loadedById[i]
      ensures seedName in seedIdIndex ==>
        seedIdIndex[seedName] < |seedIdRecipes| && seedIdRecipes[seedIdIndex[seedName]] in loadedById
      ensures (forall i: nat :: !AnswersById(seedName, i)) ==> seedName !in seedIdIndex
    {
      var ys, order :| IsStableSort(ys, loadedById, order) && seedIdRecipes == ys[..Min(|ys|, MAX_SEED_ID_RECIPES)];
      forall i: nat | AnswersById(seedName, i)
        ensures seedName in seedIdIndex && seedIdIndex[seedName] < |seedIdRecipes|
        ensures seedIdRecipes[seedIdIndex[seedName]] == loadedById[i]
      {
        FirstKeptIsBestLoaded(ys, loadedById, order, MAX_SEED_ID_RECIPES, seedName, i);
        var p := |EntriesAhead(loadedById, i)|;
        assert FirstWithKey(seedIdRecipes, seedName, p);
        assert seedIdIndex[seedName] == p;
      }
      if seedName in seedIdIndex {
        var p := seedIdIndex[seedName];
        FirstIsBest(ys, loadedById, order, MAX_SEED_ID_RECIPES, seedName, p);
        assert AnswersById(seedName, order[p]);
      }
    }

    /** The map holds a best recipe for each of as many best keys as fit, whatever ties. */
    lemma MapIsTopK()
      requires Valid()
      ensures IsTopK(seedHashRecipes, offered, MAX_HASH_ENTRIES)
    {
      RunIsTopK(offered, seedHashRecipes, MAX_HASH_ENTRIES);
    }

    /** However much was loaded, at most 8192 recipes are kept by hash and 4096 by name. */
    lemma IsBounded()
      requires Valid()
      ensures |seedHashRecipes| <= 8192 && |seedIdRecipes| <= 4096
    {
      hide Reaches;
      MapIsTopK();
    }

    /** The map is the offline result exactly when the offline keys fit, as they do without ties. */
    lemma MapIsOffline()
      requires Valid()
      ensures seedHashRecipes == Offline(offered, MAX_HASH_ENTRIES) <==>
              |Offline(offered, MAX_HASH_ENTRIES)| <= MAX_HASH_ENTRIES
      ensures NoTies(offered) ==> seedHashRecipes == Offline(offered, MAX_HASH_ENTRIES)
    {
      hide Reaches, Offline, NoTies, IsTopK;
      MapIsTopK();
      AtMost(seedHashRecipes, offered, MAX_HASH_ENTRIES);
      if |Offline(offered, MAX_HASH_ENTRIES)| <= MAX_HASH_ENTRIES {
        FittingRunIsOffline(offered, seedHashRecipes, MAX_HASH_ENTRIES);
      }
      if NoTies(offered) {
        TopKIsOffline(seedHashRecipes, offered, MAX_HASH_ENTRIES);
      }
    }
  }

  function OfMode(entries: seq<Recipe>, mode: string): seq<Recipe> {
    if entries == [] then [] else
    var last := entries[|entries| - 1];
    OfMode(entries[..|entries| - 1], mode) + if last.mode == mode then [last] else []
  }

  lemma OfModeNext(entries: seq<Recipe>, i: nat, mode: string)
    requires i < |entries|
    ensures OfMode(entries[..i + 1], mode) ==
            OfMode(entries[..i], mode) + if entries[i].mode == mode then [entries[i]] else []
  {
    assert entries[..i + 1][..i] == entries[..i];
  }

  /** What the mutator needs of a recipe: focus ranges that are not empty, and weights to choose by. */
  predicate UsableRecipe(r: Recipe) { NonEmpty(r.focus) && IsDistribution(r.weights) }

  /** What a recipe found by name or hash has besides: protected ranges sorted, as the binary search needs. */
  predicate StoredRecipe(r: Recipe) { UsableRecipe(r) && SortedByBegin(r.protect) }

  lemma {:induction false} OfModeIn(entries: seq<Recipe>, mode: string, r: Recipe)
    requires r in OfMode(entries, mode)
    ensures r in entries
  {
    if r !in OfMode(entries[..|entries| - 1], mode) {
      assert r == entries[|entries| - 1];
    } else {
      OfModeIn(entries[..|entries| - 1], mode, r);
    }
  }

  lemma PreparedIsUsable(entries: seq<Recipe>, mode: string, prepared: seq<Recipe>)
    requires AllPrepared(OfMode(entries, mode), prepared)
    requires forall r :: r in entries ==> NonEmpty(r.focus)
    ensures forall p :: p in prepared ==> StoredRecipe(p)
  {
    forall p | p in prepared
      ensures StoredRecipe(p)
    {
      var i :| 0 <= i < |prepared| && prepared[i] == p;
      var r := OfMode(entries, mode)[i];
      OfModeIn(entries, mode, r);
      SameElementsSameCover(p.focus, r.focus);
      NormalizedIsDistribution(r.weights);
    }
  }

  ghost predicate AllPrepared(recipes: seq<Recipe>, prepared: seq<Recipe>) {
    |recipes| == |prepared| && forall i :: 0 <= i < |recipes| ==> IsPrepared(recipes[i], prepared[i])
  }

  function LoadedGlobal(before: Recipe, globalRecipe: Option<Recipe>): Recipe {
    if globalRecipe.None? then before
    else
      var g := globalRecipe.value;
      var weights := if g.weights == [] then before.weights else g.weights;
      g.(mode := "global", key := "global", weights := Normalized(weights))
  }

  /** A global recipe is global whatever its file says, and takes the earlier weights if it has none. */
  lemma LoadedGlobalMeans(before: Recipe, g: Recipe)
    ensures var r := LoadedGlobal(before, Some(g));
      && r.mode == "global" && r.key == "global" && r.id == g.id && r.priority == g.priority
      && r.focus == g.focus && r.protect == g.protect && r.fields == g.fields && r.tokens == g.tokens
      && KeepsProportions(if g.weights == [] then before.weights else g.weights, r.weights)
  {
    NormalizedKeepsProportions(if g.weights == [] then before.weights else g.weights);
  }

  lemma LoadedGlobalIsUsable(before: Recipe, globalRecipe: Option<Recipe>)
    requires UsableRecipe(before) && (globalRecipe.Some? ==> NonEmpty(globalRecipe.value.focus))
    ensures UsableRecipe(LoadedGlobal(before, globalRecipe))
  {
    if globalRecipe.Some? {
      var g := globalRecipe.value;
      NormalizedIsDistribution(if g.weights == [] then before.weights else g.weights);
    }
  }

  /** The first kept entry with a key is the best-ranked loaded one, and ranks at its own position. */
  lemma FirstIsBest(ys: seq<Recipe>, xs: seq<Recipe>, order: seq<nat>, cap: nat, key: string, p: nat)
    requires IsStableSort(ys, xs, order) && FirstWithKey(ys[..Min(|ys|, cap)], key, p)
    ensures BestLoaded(xs, key, order[p]) && |EntriesAhead(xs, order[p])| < cap
  {
    PositionIsRank(order, xs, p);
    forall j | 0 <= j < |xs| && xs[j].key == key && j != order[p]
      ensures Ahead(xs, order[p], j)
    {
      assert j in order;
      var q :| 0 <= q < |order| && order[q] == j;
      NotBeforeFirst(ys[..Min(|ys|, cap)], key, p);
      if q < Min(|ys|, cap) {
        assert ys[..Min(|ys|, cap)][q].key == key;
      }
    }
  }

  lemma NotBeforeFirst(ys: seq<Recipe>, key: string, p: nat)
    requires FirstWithKey(ys, key, p)
    ensures forall q :: 0 <= q < |ys| && ys[q].key == key ==> q >= p
  {
  }
}
