/** The counters the mutator keeps between flushes. */
module TelemetryRings {
  import opened Recipes

  const NUM_OPS: nat := 16

  function OpIndex(op: MutationOp): (i: nat)
    ensures i < 7
  {
    match op
    case BitFlip => 0
    case OverwriteRange => 1
    case InsertToken => 2
    case Arith => 3
    case Splice => 4
    case DeleteBlock => 5
    case DictionaryOverwrite => 6
  }

  function Sum(counts: seq<nat>): nat {
    if counts == [] then 0 else Sum(counts[..|counts| - 1]) + counts[|counts| - 1]
  }

  lemma {:induction false} SumIncrement(counts: seq<nat>, i: nat)
    requires i < |counts|
    ensures Sum(counts[i := counts[i] + 1]) == Sum(counts) + 1
  {
    var n := |counts| - 1;
    if i == n {
      assert counts[i := counts[i] + 1][..n] == counts[..n];
    } else {
      assert counts[i := counts[i] + 1][..n] == counts[..n][i := counts[i] + 1];
      SumIncrement(counts[..n], i);
    }
  }

  lemma {:induction false} SumZero(counts: seq<nat>)
    requires forall i :: 0 <= i < |counts| ==> counts[i] == 0
    ensures Sum(counts) == 0
  {
    if counts != [] {
      SumZero(counts[..|counts| - 1]);
    }
  }

  /** The counters as a value. */
  datatype Counters = Counters(hits: nat, misses: nat, mutations: nat, ops: seq<nat>, other: nat)

  /** Every mutation is counted once: under its operator, or under `other`. */
  predicate Tallied(c: Counters) {
    |c.ops| == NUM_OPS && c.mutations == Sum(c.ops) + c.other
  }

  function CountOp(c: Counters, op: MutationOp): (r: Counters)
    requires |c.ops| == NUM_OPS
  {
    c.(mutations := c.mutations + 1, ops := c.ops[OpIndex(op) := c.ops[OpIndex(op)] + 1])
  }

  const NAMES: seq<string> :=
    ["bit_flip", "overwrite_range", "insert_token", "arith", "splice", "delete_block", "dictionary_overwrite"]

  class TelemetryRing {
    var hits: nat
    var misses: nat
    var mutationCount: nat
    const opCounts: array<nat>
    var opOther: nat
    var lastOffset: nat
    var lastSizeBefore: nat
    var lastSizeAfter: nat

    ghost function Value(): Counters
      reads this, opCounts
    {
      Counters(hits, misses, mutationCount, opCounts[..], opOther)
    }

    ghost predicate Valid()
      reads this, opCounts
    {
      Tallied(Value())
    }

    constructor ()
      ensures Valid() && fresh(opCounts)
      ensures Value() == Counters(0, 0, 0, seq(NUM_OPS, i => 0), 0)
    {
      hits, misses, mutationCount, opOther := 0, 0, 0, 0;
      lastOffset, lastSizeBefore, lastSizeAfter := 0, 0, 0;
      opCounts := new nat[NUM_OPS](i => 0);
      new;
      assert opCounts[..] == seq(NUM_OPS, i => 0);
      SumZero(opCounts[..]);
    }

    method Hit()
      requires Valid()
      modifies this`hits
      ensures Valid() && Value() == old(Value()).(hits := old(hits) + 1)
    {
      hits := hits + 1;
    }

    method Miss()
      requires Valid()
      modifies this`misses
      ensures Valid() && Value() == old(Value()).(misses := old(misses) + 1)
    {
      misses := misses + 1;
    }

    method Record(op: MutationOp, offset: nat, sizeBefore: nat, sizeAfter: nat)
      requires Valid()
      modifies this`mutationCount, this`opOther, this`lastOffset, this`lastSizeBefore, this`lastSizeAfter, opCounts
      ensures Valid() && Value() == CountOp(old(Value()), op)
      ensures lastOffset == offset && lastSizeBefore == sizeBefore && lastSizeAfter == sizeAfter
    {
      SumIncrement(opCounts[..], OpIndex(op));
      mutationCount := mutationCount + 1;
      // All seven operators have a slot, so the catch-all counter of the source is not reached here.
      opCounts[OpIndex(op)] := opCounts[OpIndex(op)] + 1;
      lastOffset, lastSizeBefore, lastSizeAfter := offset, sizeBefore, sizeAfter;
    }

    /** By name: an unknown name is counted under `other`, so no sample is lost. */
    method RecordName(name: string, offset: nat, sizeBefore: nat, sizeAfter: nat)
      requires Valid()
      modifies this`mutationCount, this`opOther, this`lastOffset, this`lastSizeBefore, this`lastSizeAfter, opCounts
      ensures Valid() && mutationCount == old(mutationCount) + 1
      ensures forall op :: NAMES[OpIndex(op)] == name ==> Value() == CountOp(old(Value()), op)
      ensures name !in NAMES ==>
        Value() == old(Value()).(mutations := old(mutationCount) + 1, other := old(opOther) + 1)
    {
      NamesDiffer();
      var op := BitFlip;
      var matched := true;
      if name == "bit_flip" {
        op := BitFlip;
      } else if name == "overwrite_range" {
        op := OverwriteRange;
      } else if name == "insert_token" {
        op := InsertToken;
      } else if name == "arith" {
        op := Arith;
      } else if name == "splice" {
        op := Splice;
      } else if name == "delete_block" {
        op := DeleteBlock;
      } else if name == "dictionary_overwrite" {
        op := DictionaryOverwrite;
      } else {
        matched := false;
      }
      if matched {
        assert NAMES[OpIndex(op)] == name;
        Record(op, offset, sizeBefore, sizeAfter);
      } else {
        mutationCount := mutationCount + 1;
        opOther := opOther + 1;
        lastOffset, lastSizeBefore, lastSizeAfter := offset, sizeBefore, sizeAfter;
      }
    }
  }

  lemma NamesDiffer()
    ensures forall i, j :: 0 <= i < j < |NAMES| ==> NAMES[i] != NAMES[j]
    ensures forall a, b :: NAMES[OpIndex(a)] == NAMES[OpIndex(b)] ==> a == b
  {
    assert NAMES[0][0] == 'b' && NAMES[1][0] == 'o' && NAMES[2][0] == 'i' && NAMES[3][0] == 'a'
        && NAMES[4][0] == 's' && NAMES[5][1] == 'e' && NAMES[6][1] == 'i' && NAMES[5][0] == 'd' && NAMES[6][0] == 'd';
  }
}
