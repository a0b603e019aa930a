/** One mutation: look a recipe up, apply an operator, repair the fields, count what was done. */
module Mutators {
  import opened Wrappers
  import opened Ranges
  import opened Recipes
  import opened RecipeCaching
  import opened RecipeRuns
  import opened SeedHashing
  import opened StructuralRepair
  import opened TelemetryRings

  // ---------- what the operators may do to a buffer ----------

  /** Position `at` may be edited: the choice inside the focus and outside the protected ranges can give it. */
  ghost predicate Editable(r: Recipe, size: nat, at: nat) { Pickable(r.focus, r.protect, size, at) }

  /** At most one byte differs, at an editable position. */
  ghost predicate EditedByte(r: Recipe, input: seq<bv8>, output: seq<bv8>) {
    |output| == |input| && exists at: nat :: Editable(r, |input|, at) && output == input[at := output[at]]
  }

  ghost predicate InsertedAt(input: seq<bv8>, output: seq<bv8>, at: nat, piece: seq<bv8>) {
    at <= |input| && output == input[..at] + piece + input[at..]
  }

  ghost predicate TokenAt(r: Recipe, input: seq<bv8>, output: seq<bv8>, room: nat, at: nat, t: nat) {
    && t < |r.tokens| && r.tokens[t] != "" && room > 0
    && InsertedAt(input, output, at, Bytes(r.tokens[t])[..Min(room, |r.tokens[t]|)])
  }

  /** As much of some nonempty token as there is room for went in. */
  ghost predicate InsertedToken(r: Recipe, input: seq<bv8>, output: seq<bv8>, room: nat) {
    exists at: nat, t: nat :: TokenAt(r, input, output, room, at, t)
  }

  ghost predicate SplicedAt(other: seq<bv8>, input: seq<bv8>, output: seq<bv8>, room: nat, at: nat, from: nat) {
    && from < |other| && room > 0
    && InsertedAt(input, output, at, other[from..from + Min(Min(room, |other| - from), 32)])
  }

  /** As many consecutive bytes of the other input as there are and there is room for went in, at most 32. */
  ghost predicate Spliced(other: seq<bv8>, input: seq<bv8>, output: seq<bv8>, room: nat) {
    exists at: nat, from: nat :: SplicedAt(other, input, output, room, at, from)
  }

  /** A splice brings in all there is from the drawn byte on, up to the room there is and to 32 bytes. */
  lemma SpliceSize(other: seq<bv8>, input: seq<bv8>, output: seq<bv8>, room: nat, at: nat, from: nat)
    requires SplicedAt(other, input, output, room, at, from)
    ensures var n := |output| - |input|;
      && 0 < n <= 32 && n <= room && n <= |other| - from
      && (n == 32 || n == room || n == |other| - from)
  {
  }

  /** What the buffer may still grow by. */
  function Room(size: nat, maxSize: nat): nat { if size < maxSize then maxSize - size else 0 }

  /** Between 1 and 16 consecutive bytes of at least two went away, from an editable position on. */
  ghost predicate DeletedBlock(r: Recipe, input: seq<bv8>, output: seq<bv8>) {
    |input| >= 2 && exists at: nat, n: nat :: DeletedAt(r, input, output, at, n)
  }

  ghost predicate DeletedAt(r: Recipe, input: seq<bv8>, output: seq<bv8>, at: nat, n: nat) {
    0 < n <= 16 && Editable(r, |input|, at) && CutAt(input, output, at, n)
  }

  ghost predicate CutAt(input: seq<bv8>, output: seq<bv8>, at: nat, n: nat) {
    at + n <= |input| && output == input[..at] + input[at + n..]
  }

  /** Exactly one bit of one byte flips, at an editable position. */
  ghost predicate FlippedBit(r: Recipe, input: seq<bv8>, output: seq<bv8>) {
    exists at: nat, k: nat :: k < 8 && FlippedAt(r, input, output, at, k)
  }

  ghost predicate FlippedAt(r: Recipe, input: seq<bv8>, output: seq<bv8>, at: nat, k: nat)
    requires k < 8
  {
    Editable(r, |input|, at) && output == input[at := input[at] ^ (1 << k)]
  }

  /** One byte goes up or down by one, modulo 256, at an editable position. */
  ghost predicate Nudged(r: Recipe, input: seq<bv8>, output: seq<bv8>) {
    exists at: nat :: NudgedAt(r, input, output, at)
  }

  ghost predicate NudgedAt(r: Recipe, input: seq<bv8>, output: seq<bv8>, at: nat) {
    Editable(r, |input|, at) && (output == input[at := Nudge(input[at], true)] ||
      output == input[at := Nudge(input[at], false)])
  }

  function Nudge(b: bv8, up: bool): bv8 { if up then b + 1 else b - 1 }

  /** Up by one is the next byte, down by one the one before; 255 and 0 are neighbours. */
  lemma NudgeIsByOne(b: bv8, x: bv8)
    ensures if b == 255 then Nudge(b, true) == 0 else b < Nudge(b, true) && (b < x ==> Nudge(b, true) <= x)
    ensures Nudge(Nudge(b, true), false) == b == Nudge(Nudge(b, false), true)
  {
  }

  /** What an operator that was counted did. */
  ghost predicate Effect(done: MutationOp, r: Recipe, other: seq<bv8>, input: seq<bv8>, maxSize: nat,
      output: seq<bv8>) {
    match done
    case BitFlip => FlippedBit(r, input, output)
    case OverwriteRange => EditedByte(r, input, output)
    case Arith => Nudged(r, input, output)
    case InsertToken => InsertedToken(r, input, output, Room(|input|, maxSize))
    case Splice => Spliced(other, input, output, Room(|input|, maxSize))
    case DeleteBlock => DeletedBlock(r, input, output)
    case DictionaryOverwrite => false
  }

  /** The operator a choice is carried out as, and counted under. */
  function Primary(op: MutationOp): MutationOp { if op.DictionaryOverwrite? then InsertToken else op }

  /** When the chosen operator may not be able to do anything. */
  ghost predicate MayFail(op: MutationOp, r: Recipe, other: seq<bv8>, size: nat, maxSize: nat) {
    match Primary(op)
    case InsertToken => "" in r.tokens || r.tokens == [] || size >= maxSize
    case Splice => other == [] || size >= maxSize
    case DeleteBlock => size < 2
    case _ => false
  }

  /** The chosen operator's own effect, or a bit flip where it could do nothing. */
  ghost predicate Mutated(op: MutationOp, done: MutationOp, r: Recipe, other: seq<bv8>, input: seq<bv8>,
      maxSize: nat, output: seq<bv8>) {
    && Effect(done, r, other, input, maxSize, output)
    && (done == Primary(op) || (done == BitFlip && MayFail(op, r, other, |input|, maxSize)))
  }

  /** The bytes of a token. */
  function Bytes(token: string): (b: seq<bv8>)
    ensures |b| == |token|
  {
    seq(|token|, i requires 0 <= i < |token| => (token[i] as int % 256) as bv8)
  }

  class FpMutator {
    const recipes: RecipeCache
    const telemetry: TelemetryRing
    var out: seq<bv8>
    var currentSeed: string
    var seedHashCache: string
    var seedHashValid: bool

    /** Accepted calls so far, and the input the cached hash was computed from. */
    ghost var calls: nat
    ghost var hashed: seq<bv8>

    /** Every accepted call was counted as one hit or miss and as one mutation of a known operator. */
    ghost predicate Counted()
      reads this, telemetry, telemetry.opCounts
    {
      var c := telemetry.Value();
      && Tallied(c)
      && c.hits + c.misses == c.mutations == calls
      && c.other == 0 && c.ops[OpIndex(DictionaryOverwrite)] == 0
    }

    ghost predicate HashCached()
      reads this
    {
      if seedHashValid then seedHashCache == SeedHash(hashed) else seedHashCache == ""
    }

    ghost predicate Valid()
      reads this, recipes, telemetry, telemetry.opCounts
    {
      recipes.Valid() && recipes.Usable() && Counted() && HashCached()
    }

    constructor (globalRecipe: Option<Recipe>, entries: seq<Recipe>)
      requires globalRecipe.Some? ==> NonEmpty(globalRecipe.value.focus)
      requires forall r :: r in entries ==> NonEmpty(r.focus)
      ensures Valid() && calls == 0 && fresh(recipes) && fresh(telemetry) && fresh(telemetry.opCounts)
    {
      var cache := new RecipeCache();
      LoadedGlobalIsUsable(cache.global, globalRecipe);
      cache.Load(globalRecipe, entries);
      cache.LoadedIsUsable(entries);
      recipes := cache;
      telemetry := new TelemetryRing();
      out, currentSeed, seedHashCache, seedHashValid := [], "", "", false;
      calls, hashed := 0, [];
    }

    // ---------- operators ----------

    method MutateBitFlip(r: Recipe)
      requires UsableRecipe(r) && telemetry.Valid()
      modifies this`out, telemetry, telemetry.opCounts
      ensures telemetry.Valid()
      ensures old(out) == [] ==> out == [] && telemetry.Value() == old(telemetry.Value())
      ensures |out| == |old(out)|
      ensures old(out) != [] ==>
        FlippedBit(r, old(out), out) && telemetry.Value() == CountOp(old(telemetry.Value()), BitFlip)
    {
      hide LastCovers, SortedByBegin;
      if |out| == 0 {
        return;
      }
      var offset := ChooseFocusOffset(r.focus, r.protect, |out|);
      var k := Draw(0, 7);
      var bit: bv8 := 1 << k;
      ghost var before := out;
      out := out[offset := out[offset] ^ bit];
      assert FlippedAt(r, before, out, offset, k);
      telemetry.Record(BitFlip, offset, |out|, |out|);
    }

    method MutateOverwriteByte(r: Recipe)
      requires UsableRecipe(r) && telemetry.Valid()
      modifies this`out, telemetry, telemetry.opCounts
      ensures telemetry.Valid()
      ensures old(out) == [] ==> out == [] && telemetry.Value() == old(telemetry.Value())
      ensures |out| == |old(out)|
      ensures old(out) != [] ==>
        EditedByte(r, old(out), out) && telemetry.Value() == CountOp(old(telemetry.Value()), OverwriteRange)
    {
      hide LastCovers, SortedByBegin;
      if |out| == 0 {
        return;
      }
      var offset := ChooseFocusOffset(r.focus, r.protect, |out|);
      var b := Draw(0, 255);
      ghost var before := out;
      out := out[offset := b as bv8];
      assert Editable(r, |before|, offset) && out == before[offset := out[offset]];
      telemetry.Record(OverwriteRange, offset, |out|, |out|);
    }

    method MutateArith(r: Recipe)
      requires UsableRecipe(r) && telemetry.Valid()
      modifies this`out, telemetry, telemetry.opCounts
      ensures telemetry.Valid()
      ensures old(out) == [] ==> out == [] && telemetry.Value() == old(telemetry.Value())
      ensures |out| == |old(out)|
      ensures old(out) != [] ==> Nudged(r, old(out), out) && telemetry.Value() == CountOp(old(telemetry.Value()), Arith)
    {
      hide LastCovers, SortedByBegin, Nudge;
      if |out| == 0 {
        return;
      }
      var offset := ChooseFocusOffset(r.focus, r.protect, |out|);
      var up := Draw(0, 1);
      ghost var before := out;
      out := out[offset := Nudge(out[offset], up == 0)];
      assert NudgedAt(r, before, out, offset);
      telemetry.Record(Arith, offset, |out|, |out|);
    }

    method MutateInsertToken(r: Recipe, maxSize: nat) returns (changed: bool)
      requires telemetry.Valid()
      modifies this`out, telemetry, telemetry.opCounts
      ensures telemetry.Valid()
      ensures !changed ==> out == old(out) && telemetry.Value() == old(telemetry.Value())
      ensures !changed ==> MayFail(InsertToken, r, [], |out|, maxSize)
      ensures changed ==> InsertedToken(r, old(out), out, Room(|old(out)|, maxSize)) && |out| <= maxSize
      ensures changed ==> telemetry.Value() == CountOp(old(telemetry.Value()), InsertToken)
    {
      if r.tokens == [] || |out| >= maxSize {
        return false;
      }
      var t := Draw(0, |r.tokens| - 1);
      var token := Bytes(r.tokens[t]);
      if token == [] {
        assert r.tokens[t] == "";
        return false;
      }
      var count := Min(maxSize - |out|, |token|);
      var offset := 0;
      if |out| != 0 {
        offset := RandomOffset(|out| + 1);
      }
      var sizeBefore := |out|;
      ghost var before := out;
      out := out[..offset] + token[..count] + out[offset..];
      assert TokenAt(r, before, out, Room(sizeBefore, maxSize), offset, t);
      telemetry.Record(InsertToken, offset, sizeBefore, |out|);
      changed := true;
    }

    method MutateDeleteBlock(r: Recipe) returns (changed: bool)
      requires UsableRecipe(r) && telemetry.Valid()
      modifies this`out, telemetry, telemetry.opCounts
      ensures telemetry.Valid()
      ensures !changed ==> out == old(out) && telemetry.Value() == old(telemetry.Value())
      ensures !changed <==> |old(out)| < 2
      ensures changed ==> DeletedBlock(r, old(out), out) && |out| < |old(out)|
      ensures changed ==> telemetry.Value() == CountOp(old(telemetry.Value()), DeleteBlock)
    {
      if |out| < 2 {
        return false;
      }
      var offset := ChooseFocusOffset(r.focus, r.protect, |out|);
      var len := Draw(1, Min(16, |out| - offset));
      var sizeBefore := |out|;
      ghost var before := out;
      out := out[..offset] + out[offset + len..];
      assert DeletedAt(r, before, out, offset, len);
      telemetry.Record(DeleteBlock, offset, sizeBefore, |out|);
      changed := true;
    }

    method MutateSplice(other: seq<bv8>, maxSize: nat) returns (changed: bool)
      requires telemetry.Valid()
      modifies this`out, telemetry, telemetry.opCounts
      ensures telemetry.Valid()
      ensures !changed ==> out == old(out) && telemetry.Value() == old(telemetry.Value())
      ensures !changed <==> other == [] || |old(out)| >= maxSize
      ensures changed ==> Spliced(other, old(out), out, Room(|old(out)|, maxSize)) && |out| <= maxSize
      ensures changed ==> telemetry.Value() == CountOp(old(telemetry.Value()), Splice)
    {
      if other == [] || |out| >= maxSize {
        return false;
      }
      var offset := RandomOffset(|out| + 1);
      var from := RandomOffset(|other|);
      var count := Min(Min(maxSize - |out|, |other| - from), 32);
      var sizeBefore := |out|;
      ghost var before := out;
      out := out[..offset] + other[from..from + count] + out[offset..];
      assert SplicedAt(other, before, out, Room(sizeBefore, maxSize), offset, from);
      telemetry.Record(Splice, offset, sizeBefore, |out|);
      changed := true;
    }

    // ---------- one call ----------

    /** The switch over the operator and the bit-flip fallback. */
    method ApplyOperator(op: MutationOp, r: Recipe, other: seq<bv8>, maxSize: nat) returns (ghost done: MutationOp)
      requires UsableRecipe(r) && telemetry.Valid() && 0 < |out| <= maxSize
      modifies this`out, telemetry, telemetry.opCounts
      ensures telemetry.Valid() && |out| <= maxSize
      ensures Mutated(op, done, r, other, old(out), maxSize, out) && done != DictionaryOverwrite
      ensures telemetry.Value() == CountOp(old(telemetry.Value()), done)
    {
      hide EditedByte, FlippedBit, Nudged, InsertedToken, Spliced, DeletedBlock;
      var changed := false;
      done := Primary(op);
      match op {
        case InsertToken | DictionaryOverwrite =>
          changed := MutateInsertToken(r, maxSize);
        case OverwriteRange =>
          MutateOverwriteByte(r);
          changed := true;
        case Arith =>
          MutateArith(r);
          changed := true;
        case Splice =>
          changed := MutateSplice(other, maxSize);
        case DeleteBlock =>
          changed := MutateDeleteBlock(r);
        case BitFlip =>
          MutateBitFlip(r);
          changed := true;
      }
      if !changed {
        MutateBitFlip(r);
        done := BitFlip;
      }
    }

    /** The hash of the input is computed at most once per queue entry, and only if some recipe needs a seed. */
    method LookupRecipe(buf: seq<bv8>) returns (recipe: Recipe, hit: bool)
      requires Valid() && buf != []
      modifies this`seedHashCache, this`seedHashValid, this`hashed
      ensures Valid() && UsableRecipe(recipe) && (recipe == recipes.global || SortedByBegin(recipe.protect))
      ensures recipes.seedHashRecipes != map[] ==> seedHashValid
      ensures !old(seedHashValid) || buf == old(hashed) ==> recipes.Answer(currentSeed, Some(buf), "", recipe, hit)
      ensures old(seedHashValid) ==> seedHashValid && hashed == old(hashed)
    {
      hide UsableRecipe, StoredRecipe, SortedByBegin, Sum, SeedHash, Reaches;
      if (recipes.seedIdRecipes != [] || recipes.seedHashRecipes != map[]) && !seedHashValid {
        seedHashCache := ComputeSeedHash(buf);
        seedHashValid := true;
        hashed := buf;
      }
      recipe, hit := recipes.Lookup(currentSeed, Some(buf), seedHashCache);
      if !old(seedHashValid) || buf == old(hashed) {
        HintIsHash(buf, seedHashCache, recipe, hit);
      }
    }

    /**
      An accepted call mutates the input, cut to the maximal size, by an operator of the recipe that
      a lookup with a fresh hash would give (as long as the input is still the one that was hashed),
      then repairs the recipe's fields.  It is counted once as a hit or miss and once as a mutation.
     */
    method Fuzz(buf: seq<bv8>, other: seq<bv8>, maxSize: nat)
      returns (size: nat, ghost r: Recipe, ghost hit: bool, ghost op: MutationOp, ghost done: MutationOp,
          ghost mutated: seq<bv8>)
      requires Valid()
      modifies this, telemetry, telemetry.opCounts
      ensures Valid()
      ensures buf == [] || maxSize == 0 ==>
        size == 0 && calls == old(calls) && telemetry.Value() == old(telemetry.Value())
      ensures buf != [] && maxSize > 0 ==>
        && size == |out| <= maxSize
        && calls == old(calls) + 1
        && telemetry.hits == old(telemetry.hits) + (if hit then 1 else 0)
        && (r == recipes.global || SortedByBegin(r.protect))
        && Choosable(r.weights, op)
        && Mutated(op, done, r, other, buf[..Min(|buf|, maxSize)], maxSize, mutated)
        && telemetry.Value().ops == CountOp(old(telemetry.Value()), done).ops
        && out == RepairAll(mutated, r.fields)
        && (recipes.seedHashRecipes != map[] ==> seedHashValid)
        && (!old(seedHashValid) || buf == old(hashed) ==> recipes.Answer(currentSeed, Some(buf), "", r, hit))
      ensures currentSeed == old(currentSeed) && (old(seedHashValid) ==> seedHashValid && hashed == old(hashed))
    {
      hide Choosable, Mutated, RepairAll, SeedHash, UsableRecipe, StoredRecipe, SortedByBegin, Sum;
      size, r, hit, op, done, mutated := 0, recipes.global, false, BitFlip, BitFlip, [];
      if buf == [] || maxSize == 0 {
        return;
      }
      var recipe, found := LookupRecipe(buf);
      r, hit := recipe, found;
      op, done, mutated := MutateWith(recipe, found, buf[..Min(|buf|, maxSize)], other, maxSize);
      size := |out|;
    }

    /** Count the lookup, apply the chosen operator, repair. */
    method MutateWith(recipe: Recipe, hit: bool, input: seq<bv8>, other: seq<bv8>, maxSize: nat)
      returns (ghost op: MutationOp, ghost done: MutationOp, ghost mutated: seq<bv8>)
      requires Counted() && UsableRecipe(recipe) && 0 < |input| <= maxSize
      modifies this`out, this`calls, telemetry, telemetry.opCounts
      ensures Counted() && calls == old(calls) + 1
      ensures telemetry.hits == old(telemetry.hits) + (if hit then 1 else 0)
      ensures Choosable(recipe.weights, op) && Mutated(op, done, recipe, other, input, maxSize, mutated)
      ensures telemetry.Value().ops == CountOp(old(telemetry.Value()), done).ops
      ensures |out| <= maxSize && out == RepairAll(mutated, recipe.fields)
    {
      hide UsableRecipe, IsDistribution, Choosable, Mutated, RepairAll, Sum;
      HasWeights(recipe);
      out := input;
      if hit {
        telemetry.Hit();
      } else {
        telemetry.Miss();
      }
      var needle: real :| 0.0 <= needle < 1.0;
      var chosen, at := ChooseOperator(recipe.weights, needle);
      op := chosen;
      done := ApplyOperator(chosen, recipe, other, maxSize);
      calls := calls + 1;
      mutated := out;
      out := ApplyStructuralRepairs(out, recipe.fields);
    }

    lemma HasWeights(r: Recipe)
      requires UsableRecipe(r)
      ensures IsDistribution(r.weights)
    {
    }

    /** The cached hash answers like a fresh one; no hash is needed while no recipe is keyed by hash. */
    lemma HintIsHash(buf: seq<bv8>, hint: string, r: Recipe, hit: bool)
      requires buf != [] && recipes.Answer(currentSeed, Some(buf), hint, r, hit)
      requires hint == SeedHash(buf) || recipes.seedHashRecipes == map[]
      ensures recipes.Answer(currentSeed, Some(buf), "", r, hit)
    {
    }

    /** A new queue entry: reload if the store changed, then forget the cached hash. */
    method QueueGet(filename: string, stale: bool, globalRecipe: Option<Recipe>, entries: seq<Recipe>)
      requires Valid()
      requires globalRecipe.Some? ==> NonEmpty(globalRecipe.value.focus)
      requires forall r :: r in entries ==> NonEmpty(r.focus)
      modifies this`currentSeed, this`seedHashCache, this`seedHashValid, recipes
      ensures Valid() && currentSeed == filename && !seedHashValid
      ensures telemetry.Value() == old(telemetry.Value())
      ensures stale ==> AllPrepared(OfMode(entries, "seed_hash"), recipes.offered)
      ensures stale ==> AllPrepared(OfMode(entries, "seed_id"), recipes.loadedById)
      ensures stale ==> recipes.global == LoadedGlobal(old(recipes.global), globalRecipe)
      ensures !stale ==> unchanged(recipes)
    {
      if stale {
        LoadedGlobalIsUsable(recipes.global, globalRecipe);
        recipes.Reload(globalRecipe, entries);
        recipes.LoadedIsUsable(entries);
      }
      currentSeed := filename;
      seedHashValid := false;
      seedHashCache := "";
    }

    method QueueNewEntry(filename: string)
      requires Valid()
      modifies this`currentSeed, this`seedHashCache, this`seedHashValid
      ensures Valid() && currentSeed == filename && !seedHashValid
    {
      currentSeed := filename;
      seedHashValid := false;
      seedHashCache := "";
    }
  }

  // ---------- what protection is worth ----------

  predicate OneByteOp(op: MutationOp) { op in {BitFlip, OverwriteRange, Arith} }

  lemma OneByteEffects(done: MutationOp, r: Recipe, other: seq<bv8>, input: seq<bv8>, maxSize: nat, output: seq<bv8>)
    requires Effect(done, r, other, input, maxSize, output) && OneByteOp(done)
    ensures EditedByte(r, input, output)
  {
    match done
    case BitFlip =>
      var at: nat, k: nat :| k < 8 && FlippedAt(r, input, output, at, k);
      assert output == input[at := output[at]];
    case Arith =>
      var at: nat :| NudgedAt(r, input, output, at);
      assert output == input[at := output[at]];
    case OverwriteRange =>
  }

  /** The first `k` bytes are protected, and some later byte is not. */
  ghost predicate PrefixProtected(r: Recipe, size: nat, k: nat) {
    && k <= size && SortedByBegin(r.protect)
    && (forall i :: 0 <= i < k ==> LastCovers(r.protect, i))
    && exists x: nat :: x < size && !LastCovers(r.protect, x)
  }

  /** The first `k` bytes are the same. */
  predicate SamePrefix(a: seq<bv8>, b: seq<bv8>, k: nat) {
    k <= |a| && k <= |b| && a[..k] == b[..k]
  }

  lemma EditsComeLater(r: Recipe, size: nat, k: nat, at: nat)
    requires PrefixProtected(r, size, k) && Editable(r, size, at)
    ensures at >= k
  {
    if at < k {
      PickableIsFree(r.focus, r.protect, size, at);
    }
  }

  /** An edit of one byte, or a deletion, leaves a protected prefix alone. */
  lemma EditsKeepPrefix(done: MutationOp, r: Recipe, other: seq<bv8>, input: seq<bv8>, maxSize: nat,
      mutated: seq<bv8>, k: nat)
    requires Effect(done, r, other, input, maxSize, mutated) && (OneByteOp(done) || done == DeleteBlock)
    requires PrefixProtected(r, |input|, k)
    ensures SamePrefix(input, mutated, k)
  {
    hide PrefixProtected, Effect;
    if done == DeleteBlock {
      DeletionAt(r, other, input, maxSize, mutated);
      var at: nat, n: nat :| DeletedAt(r, input, mutated, at, n);
      EditsComeLater(r, |input|, k, at);
    } else {
      OneByteEffects(done, r, other, input, maxSize, mutated);
      var at: nat :| Editable(r, |input|, at) && mutated == input[at := mutated[at]];
      EditsComeLater(r, |input|, k, at);
    }
  }

  lemma DeletionAt(r: Recipe, other: seq<bv8>, input: seq<bv8>, maxSize: nat, mutated: seq<bv8>)
    requires Effect(DeleteBlock, r, other, input, maxSize, mutated)
    ensures DeletedBlock(r, input, mutated)
  {
  }

  /** An insertion leaves a prefix as it is exactly when it comes after it, or happens to put the same bytes there. */
  lemma InsertionKeepsPrefixExactlyWhen(input: seq<bv8>, output: seq<bv8>, at: nat, piece: seq<bv8>, k: nat)
    requires InsertedAt(input, output, at, piece) && k <= |input|
    ensures SamePrefix(input, output, k) <==> at >= k || (piece + input[at..])[..k - at] == input[at..k]
  {
    if at < k {
      var moved := piece + input[at..];
      assert output == input[..at] + moved;
      assert output[..k] == input[..at] + moved[..k - at];
      assert input[..k] == input[..at] + input[at..k];
      if output[..k] == input[..k] {
        assert moved[..k - at] == output[..k][at..] && input[at..k] == input[..k][at..];
      }
    }
  }

  /** A deletion leaves byte `i` in place exactly when it comes after it, or happens to move an equal byte there. */
  lemma DeletionKeepsByteExactlyWhen(input: seq<bv8>, output: seq<bv8>, at: nat, n: nat, i: nat)
    requires CutAt(input, output, at, n) && n > 0 && i < |input|
    ensures (i < |output| && output[i] == input[i]) <==>
            at > i || (i + n < |input| && input[i + n] == input[i])
  {
  }

  /** An insertion leaves byte `i` in place exactly when it comes after it, or happens to put an equal byte there. */
  lemma InsertionKeepsByteExactlyWhen(input: seq<bv8>, output: seq<bv8>, at: nat, piece: seq<bv8>, i: nat)
    requires InsertedAt(input, output, at, piece) && i < |input|
    ensures output[i] == input[i] <==>
            at > i || (piece + input[at..])[i - at] == input[i]
  {
    assert output == input[..at] + (piece + input[at..]);
  }

  lemma RepairKeepsPrefix(mutated: seq<bv8>, fields: seq<Field>, k: nat)
    requires |mutated| < TWO_32 && k <= |mutated|
    requires forall n, i :: 0 <= n < |fields| && 0 <= i < k ==> !Inside(fields[n], i)
    ensures SamePrefix(mutated, RepairAll(mutated, fields), k)
  {
    forall i | 0 <= i < k
      ensures RepairAll(mutated, fields)[i] == mutated[i]
    {
      RepairKeepsOutside(mutated, fields, i);
    }
  }

  /**
    A whole call, any operator: a protected prefix outside the fields comes out as it went in after
    every one-byte edit and every deletion.  After an insertion or a splice, which do not look at
    protected ranges, it does exactly when the new bytes went in behind it or happen to coincide.
   */
  lemma ProtectedPrefixSurvives(op: MutationOp, done: MutationOp, r: Recipe, other: seq<bv8>, input: seq<bv8>,
      maxSize: nat, mutated: seq<bv8>, k: nat)
    requires Mutated(op, done, r, other, input, maxSize, mutated) && |mutated| < TWO_32
    requires PrefixProtected(r, |input|, k)
    requires forall n, i :: 0 <= n < |r.fields| && 0 <= i < k ==> !Inside(r.fields[n], i)
    ensures OneByteOp(done) || done == DeleteBlock ==> SamePrefix(input, RepairAll(mutated, r.fields), k)
    ensures forall at: nat, piece :: InsertedAt(input, mutated, at, piece) ==>
      (SamePrefix(input, RepairAll(mutated, r.fields), k) <==>
         at >= k || (piece + input[at..])[..k - at] == input[at..k])
  {
    hide Effect, RepairAll, InsertedAt;
    var out := RepairAll(mutated, r.fields);
    if k <= |mutated| {
      RepairKeepsPrefix(mutated, r.fields, k);
    }
    assert SamePrefix(input, out, k) <==> SamePrefix(input, mutated, k);
    if OneByteOp(done) || done == DeleteBlock {
      EditsKeepPrefix(done, r, other, input, maxSize, mutated, k);
    }
    forall at: nat, piece | InsertedAt(input, mutated, at, piece)
      ensures SamePrefix(input, out, k) <==> at >= k || (piece + input[at..])[..k - at] == input[at..k]
    {
      InsertionKeepsPrefixExactlyWhen(input, mutated, at, piece, k);
    }
  }

  /** A protected byte anywhere outside the fields survives every one-byte edit, unless everything is protected. */
  lemma ProtectedBytesSurvive(done: MutationOp, r: Recipe, other: seq<bv8>, input: seq<bv8>, maxSize: nat,
      mutated: seq<bv8>, i: nat, free: nat)
    requires Effect(done, r, other, input, maxSize, mutated) && OneByteOp(done)
    requires |input| < TWO_32 && SortedByBegin(r.protect)
    requires i < |input| && LastCovers(r.protect, i)
    requires free < |input| && !LastCovers(r.protect, free)
    requires forall n :: 0 <= n < |r.fields| ==> !Inside(r.fields[n], i)
    ensures RepairAll(mutated, r.fields)[i] == input[i]
  {
    OneByteEffects(done, r, other, input, maxSize, mutated);
    var at: nat :| Editable(r, |input|, at) && mutated == input[at := mutated[at]];
    if at == i {
      PickableIsFree(r.focus, r.protect, |input|, at);
    }
    RepairKeepsOutside(mutated, r.fields, i);
  }

  /** Bytes 2 and 3 are protected; a deletion that starts at the unprotected byte 0 takes them away. */
  lemma DeletionRunsIntoProtectedExample(r: Recipe, maxSize: nat)
    requires r.protect == [Range(2, 4)] && r.focus == []
    ensures LastCovers(r.protect, 2) && LastCovers(r.protect, 3)
    ensures Effect(DeleteBlock, r, [], [1, 2, 3, 4, 5], maxSize, [5])
  {
    assert In(r.protect[0], 2) && In(r.protect[0], 3);
    var input: seq<bv8> := [1, 2, 3, 4, 5];
    assert input[..0] + input[4..] == [5];
    SortedHits(r.protect);
    assert !SearchHits(r.protect, 0) && Drawable(r.focus, 5, 0);
    assert DeletedAt(r, input, [5], 0, 4);
  }

  // ---------- passing the gates of the packet target ----------

  /** The recipe for the packet target: the magic protected, length and checksum repaired. */
  ghost predicate PacketRecipe(r: Recipe) {
    r.protect == [Range(0, 4)] && r.fields == [PACKET_LENGTH, PACKET_CHECKSUM]
  }

  predicate PassesGates(b: seq<bv8>) { |b| >= 9 && MagicGate(b) && LengthGate(b) && ChecksumGate(b) }

  lemma MagicProtected(r: Recipe, size: nat)
    requires PacketRecipe(r) && size > 4
    ensures PrefixProtected(r, size, 4)
  {
    assert In(r.protect[0], 0) && In(r.protect[0], 1) && In(r.protect[0], 2) && In(r.protect[0], 3);
    assert !LastCovers(r.protect, 4);
  }

  /** After repair only the magic and the size decide. */
  lemma RepairedPassesExactlyWhen(input: seq<bv8>, mutated: seq<bv8>)
    requires 9 < |input| && MagicGate(input) && |mutated| < TWO_32
    ensures PassesGates(RepairAll(mutated, [PACKET_LENGTH, PACKET_CHECKSUM])) <==>
            |mutated| > 9 && SamePrefix(input, mutated, 4)
  {
    hide RepairAll, LengthGate, ChecksumGate, MagicGate;
    if |mutated| >= 9 {
      RepairedPacketPasses(mutated);
      MagicIsPrefix(input, mutated);
      var out := RepairAll(mutated, [PACKET_LENGTH, PACKET_CHECKSUM]);
      assert out[..4] == mutated[..4];
      MagicIsPrefix(input, out);
    }
  }

  lemma MagicIsPrefix(input: seq<bv8>, b: seq<bv8>)
    requires |input| >= 9 && MagicGate(input) && |b| >= 9
    ensures MagicGate(b) <==> SamePrefix(input, b, 4)
  {
    assert input[..4] == [input[0], input[1], input[2], input[3]];
    assert b[..4] == [b[0], b[1], b[2], b[3]];
  }

  /**
    A whole call on a packet with a payload, any operator: a one-byte edit always passes all three
    gates after repair; a deletion exactly when a payload is left; an insertion or a splice exactly
    when it goes in behind the magic or happens to reproduce it.
   */
  lemma GatesHoldExactlyWhen(op: MutationOp, done: MutationOp, r: Recipe, other: seq<bv8>, input: seq<bv8>,
      maxSize: nat, mutated: seq<bv8>)
    requires PacketRecipe(r) && 9 < |input| && MagicGate(input) && |mutated| < TWO_32
    requires Mutated(op, done, r, other, input, maxSize, mutated)
    ensures var passes := PassesGates(RepairAll(mutated, r.fields));
      && (OneByteOp(done) ==> passes)
      && (done == DeleteBlock ==> (passes <==> |mutated| > 9))
      && forall at: nat, piece :: InsertedAt(input, mutated, at, piece) ==>
           (passes <==> at >= 4 || (piece + input[at..])[..4 - at] == input[at..4])
  {
    hide RepairAll, PassesGates, MagicGate, InsertedAt, Effect;
    RepairedPassesExactlyWhen(input, mutated);
    MagicProtected(r, |input|);
    if OneByteOp(done) || done == DeleteBlock {
      EditsKeepPrefix(done, r, other, input, maxSize, mutated, 4);
      if OneByteOp(done) {
        OneByteEffects(done, r, other, input, maxSize, mutated);
      }
    }
    forall at: nat, piece | InsertedAt(input, mutated, at, piece)
      ensures PassesGates(RepairAll(mutated, r.fields)) <==> at >= 4 || (piece + input[at..])[..4 - at] == input[at..4]
    {
      InsertionKeepsPrefixExactlyWhen(input, mutated, at, piece, 4);
      InsertionGrows(input, mutated, at, piece);
    }
  }

  lemma InsertionGrows(input: seq<bv8>, output: seq<bv8>, at: nat, piece: seq<bv8>)
    requires InsertedAt(input, output, at, piece)
    ensures |output| == |input| + |piece|
  {
  }

  // ---------- every draw of one call ----------

  /** A call with this recipe may mutate the input to `mutated`, before the repair. */
  ghost predicate Outcome(r: Recipe, other: seq<bv8>, input: seq<bv8>, maxSize: nat, mutated: seq<bv8>) {
    exists op, done :: MutatedBy(op, done, r, other, input, maxSize, mutated)
  }

  ghost predicate MutatedBy(op: MutationOp, done: MutationOp, r: Recipe, other: seq<bv8>, input: seq<bv8>,
      maxSize: nat, mutated: seq<bv8>) {
    Choosable(r.weights, op) && Mutated(op, done, r, other, input, maxSize, mutated)
  }

  ghost predicate AllPass(r: Recipe, other: seq<bv8>, input: seq<bv8>, maxSize: nat) {
    forall mutated :: Outcome(r, other, input, maxSize, mutated) ==> PassesGates(RepairAll(mutated, r.fields))
  }

  /** No deletion can leave a header alone: there is too much behind it, or the focus lies behind it. */
  predicate SparesPayload(focus: seq<Range>, size: nat) {
    size > 25 || (size > 10 && focus != [] && forall i :: 0 <= i < |focus| ==> focus[i].begin > 9)
  }

  /** The operator inserts, and has something to insert. */
  predicate CanInsert(op: MutationOp, r: Recipe, other: seq<bv8>) {
    match op
    case InsertToken | DictionaryOverwrite => exists t :: 0 <= t < |r.tokens| && r.tokens[t] != ""
    case Splice => other != []
    case _ => false
  }

  /** On recipe, sizes and the other input alone: deletions spare a payload, and nothing can go in. */
  ghost predicate SafeForPacket(r: Recipe, other: seq<bv8>, size: nat, maxSize: nat) {
    && (Choosable(r.weights, DeleteBlock) ==> SparesPayload(r.focus, size))
    && (size < maxSize ==> forall op :: Choosable(r.weights, op) ==> !CanInsert(op, r, other))
  }

  lemma PacketProtects(r: Recipe, x: nat)
    requires PacketRecipe(r)
    ensures SearchHits(r.protect, x) <==> x < 4
  {
    SortedHits(r.protect);
    assert In(r.protect[0], x) <==> x < 4;
  }

  /** In a packet, what a deletion or an edit may start at. */
  lemma PacketPicks(r: Recipe, size: nat, at: nat)
    requires PacketRecipe(r) && size > 4
    ensures Editable(r, size, at) <==>
            4 <= at < size && (Drawable(r.focus, size, at) || exists c: nat :: c < 4 && Drawable(r.focus, size, c))
  {
    hide Drawable, SearchHits;
    PacketProtects(r, 4);
    PacketProtects(r, at);
    forall c: nat
      ensures SearchHits(r.protect, c) <==> c < 4
    {
      PacketProtects(r, c);
    }
  }

  lemma SparedDeletion(r: Recipe, input: seq<bv8>, mutated: seq<bv8>)
    requires PacketRecipe(r) && |input| > 9 && DeletedBlock(r, input, mutated)
    requires SparesPayload(r.focus, |input|)
    ensures |mutated| > 9
  {
    hide Editable;
    var at: nat, n: nat :| DeletedAt(r, input, mutated, at, n);
    if |input| <= 25 {
      PacketPicks(r, |input|, at);
      assert forall c: nat :: Drawable(r.focus, |input|, c) ==> c > 9;
    }
  }

  /** Otherwise some deletion leaves nine bytes or fewer. */
  lemma DeletionToHeader(r: Recipe, input: seq<bv8>) returns (mutated: seq<bv8>)
    requires PacketRecipe(r) && NonEmpty(r.focus) && |input| > 9 && !SparesPayload(r.focus, |input|)
    ensures DeletedBlock(r, input, mutated) && |mutated| <= 9
  {
    hide Editable;
    var size := |input|;
    var x := LowDraw(r.focus, size);
    var at := if x < 4 then 4 else x;
    PacketPicks(r, size, at);
    var n := Min(16, size - at);
    mutated := input[..at] + input[at + n..];
    assert DeletedAt(r, input, mutated, at, n);
  }

  lemma LowDraw(focus: seq<Range>, size: nat) returns (x: nat)
    requires NonEmpty(focus) && size > 9 && !SparesPayload(focus, size)
    ensures x <= 9 && Drawable(focus, size, x)
  {
    if focus == [] {
      x := 0;
    } else if i :| 0 <= i < |focus| && focus[i].begin <= 9 {
      x := focus[i].begin;
      assert InOrClamped(focus[i], x, size);
    } else {
      x := 9;
      assert InOrClamped(focus[0], x, size);
    }
  }

  /** Whatever goes in first, some position for it breaks the magic, whose bytes all differ. */
  lemma InsertionBreaksMagic(input: seq<bv8>, piece: seq<bv8>) returns (at: nat, mutated: seq<bv8>)
    requires |input| > 9 && MagicGate(input) && piece != []
    ensures InsertedAt(input, mutated, at, piece) && !SamePrefix(input, mutated, 4)
  {
    at := if piece[0] == input[0] then 1 else 0;
    mutated := input[..at] + piece + input[at..];
    assert mutated[..4][at] == piece[0] && input[..4][at] != piece[0];
  }

  lemma OutcomeFits(op: MutationOp, done: MutationOp, r: Recipe, other: seq<bv8>, input: seq<bv8>, maxSize: nat,
      mutated: seq<bv8>)
    requires Mutated(op, done, r, other, input, maxSize, mutated) && |input| <= maxSize
    ensures |mutated| <= maxSize
  {
    hide InsertedAt;
    var room := Room(|input|, maxSize);
    if done == InsertToken {
      var at: nat, t: nat :| TokenAt(r, input, mutated, room, at, t);
      InsertionGrows(input, mutated, at, Bytes(r.tokens[t])[..Min(room, |r.tokens[t]|)]);
    } else if done == Splice {
      var at: nat, from: nat :| SplicedAt(other, input, mutated, room, at, from);
      InsertionGrows(input, mutated, at, other[from..from + Min(Min(room, |other| - from), 32)]);
    }
  }

  /** An operator that inserted had something to insert, and room for it. */
  lemma InsertedBecauseItCould(op: MutationOp, done: MutationOp, r: Recipe, other: seq<bv8>, input: seq<bv8>,
      maxSize: nat, mutated: seq<bv8>)
    requires Mutated(op, done, r, other, input, maxSize, mutated)
    ensures OneByteOp(done) || done == op == DeleteBlock || (CanInsert(op, r, other) && |input| < maxSize)
  {
    hide Editable, InsertedAt;
  }

  lemma SafeOutcomePasses(op: MutationOp, done: MutationOp, r: Recipe, other: seq<bv8>, input: seq<bv8>, maxSize: nat,
      mutated: seq<bv8>)
    requires PacketRecipe(r) && 9 < |input| <= maxSize < TWO_32 && MagicGate(input)
    requires MutatedBy(op, done, r, other, input, maxSize, mutated) && SafeForPacket(r, other, |input|, maxSize)
    ensures PassesGates(RepairAll(mutated, r.fields))
  {
    hide RepairAll, PassesGates, MagicGate, CanInsert, SparesPayload, Choosable, FlippedBit, Nudged, EditedByte;
    hide DeletedBlock, InsertedToken, Spliced, MayFail;
    OutcomeFits(op, done, r, other, input, maxSize, mutated);
    InsertedBecauseItCould(op, done, r, other, input, maxSize, mutated);
    GatesHoldExactlyWhen(op, done, r, other, input, maxSize, mutated);
    if done == DeleteBlock {
      SparedDeletion(r, input, mutated);
    }
  }

  /** Something that can go in: a token, or a piece of the other input. */
  lemma InsertionFails(op: MutationOp, r: Recipe, other: seq<bv8>, input: seq<bv8>, maxSize: nat)
    returns (mutated: seq<bv8>)
    requires PacketRecipe(r) && 9 < |input| < maxSize < TWO_32 && MagicGate(input)
    requires Choosable(r.weights, op) && CanInsert(op, r, other)
    ensures Outcome(r, other, input, maxSize, mutated) && !PassesGates(RepairAll(mutated, r.fields))
  {
    hide RepairAll, PassesGates, MagicGate, Choosable, SamePrefix;
    var room := Room(|input|, maxSize);
    var at: nat;
    if op == Splice {
      at, mutated := InsertionBreaksMagic(input, other[0..0 + Min(Min(room, |other| - 0), 32)]);
      assert SplicedAt(other, input, mutated, room, at, 0);
    } else {
      var t :| 0 <= t < |r.tokens| && r.tokens[t] != "";
      at, mutated := InsertionBreaksMagic(input, Bytes(r.tokens[t])[..Min(room, |r.tokens[t]|)]);
      assert TokenAt(r, input, mutated, room, at, t);
    }
    assert MutatedBy(op, Primary(op), r, other, input, maxSize, mutated);
    OutcomeFits(op, Primary(op), r, other, input, maxSize, mutated);
    RepairedPassesExactlyWhen(input, mutated);
  }

  lemma DeletionFails(r: Recipe, other: seq<bv8>, input: seq<bv8>, maxSize: nat) returns (mutated: seq<bv8>)
    requires PacketRecipe(r) && NonEmpty(r.focus) && 9 < |input| <= maxSize < TWO_32 && MagicGate(input)
    requires Choosable(r.weights, DeleteBlock) && !SparesPayload(r.focus, |input|)
    ensures Outcome(r, other, input, maxSize, mutated) && !PassesGates(RepairAll(mutated, r.fields))
  {
    hide RepairAll, PassesGates, MagicGate, Choosable, SparesPayload, SamePrefix, DeletedBlock;
    mutated := DeletionToHeader(r, input);
    assert MutatedBy(DeleteBlock, DeleteBlock, r, other, input, maxSize, mutated);
    RepairedPassesExactlyWhen(input, mutated);
  }

  /**
    All draws of one call on a packet with a payload: every outcome passes the three gates after
    repair if and only if the recipe and the sizes leave no room for one that does not.  One-byte
    edits never fail, deletions can while at most 25 bytes are there and the focus reaches the
    header, and any insertion that can happen can break the magic, protected or not.
   */
  lemma AllPassExactlyWhen(r: Recipe, other: seq<bv8>, input: seq<bv8>, maxSize: nat)
    requires PacketRecipe(r) && NonEmpty(r.focus) && 9 < |input| <= maxSize < TWO_32 && MagicGate(input)
    ensures AllPass(r, other, input, maxSize) <==> SafeForPacket(r, other, |input|, maxSize)
  {
    hide RepairAll, PassesGates, MagicGate, Choosable, SparesPayload, MutatedBy;
    if SafeForPacket(r, other, |input|, maxSize) {
      forall mutated | Outcome(r, other, input, maxSize, mutated)
        ensures PassesGates(RepairAll(mutated, r.fields))
      {
        var op, done :| MutatedBy(op, done, r, other, input, maxSize, mutated);
        SafeOutcomePasses(op, done, r, other, input, maxSize, mutated);
      }
    } else {
      var mutated: seq<bv8>;
      if Choosable(r.weights, DeleteBlock) && !SparesPayload(r.focus, |input|) {
        mutated := DeletionFails(r, other, input, maxSize);
      } else {
        var op :| Choosable(r.weights, op) && CanInsert(op, r, other);
        mutated := InsertionFails(op, r, other, input, maxSize);
      }
    }
  }

  /** A token inserted before the magic: the protected bytes move, and the packet is refused. */
  lemma InsertionBreaksMagicExample(r: Recipe, input: seq<bv8>, maxSize: nat)
    requires PacketRecipe(r) && r.tokens == ["X"] && 9 < |input| < TWO_32 - 1 && MagicGate(input)
    requires |input| < maxSize
    ensures Effect(InsertToken, r, [], input, maxSize, [0x58] + input)
    ensures !PassesGates(RepairAll([0x58] + input, r.fields))
  {
    var mutated: seq<bv8> := [0x58] + input;
    assert Bytes("X")[..1] == [0x58];
    assert mutated == input[..0] + [0x58] + input[0..];
    assert TokenAt(r, input, mutated, Room(|input|, maxSize), 0, 0);
    RepairedPassesExactlyWhen(input, mutated);
    assert mutated[..4][0] != input[..4][0];
  }
}
