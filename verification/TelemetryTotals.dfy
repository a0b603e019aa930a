/**
  What a parsed telemetry file holds after any flushes, said by sums over the flushes: every counter
  under its own name.
 */
module TelemetryTotals {
  import opened Wrappers
  import opened Recipes
  import opened JsonRecognizer
  import opened TextFormat
  import opened TelemetryLog
  import opened TelemetryRings
  import opened TelemetryFlush
  import opened RecipeText

  /** The counters of the mutator. */
  datatype Column = Hits | Misses | Mutations | Operator(op: MutationOp) | Other

  function Entry(c: Counters, k: Column): nat
    requires |c.ops| == NUM_OPS
  {
    match k
    case Hits => c.hits
    case Misses => c.misses
    case Mutations => c.mutations
    case Operator(op) => c.ops[OpIndex(op)]
    case Other => c.other
  }

  function SumOf(fs: seq<Flush>, k: Column): nat
    requires AllFit(fs)
  {
    if fs == [] then 0 else SumOf(fs[..|fs| - 1], k) + Entry(fs[|fs| - 1].c, k)
  }

  /** The name an operator is printed under. */
  function PrintedName(op: MutationOp): string {
    match op
    case BitFlip => "bit_flip"
    case OverwriteRange => "overwrite_range"
    case InsertToken => "insert_token"
    case Arith => "arith"
    case Splice => "splice"
    case DeleteBlock => "delete_block"
    case DictionaryOverwrite => "dictionary_overwrite"
  }

  /** Seven names and the catch-all, no two alike. */
  lemma NameIs(i: nat, op: MutationOp)
    requires i < |NAMES|
    ensures NAMES[i] == PrintedName(op) <==> i == OpIndex(op)
    ensures NAMES[i] != "other" && PrintedName(op) != "other"
  {
    TelemetryRings.NamesDiffer();
    assert NAMES[OpIndex(op)] == PrintedName(op);
    assert NAMES[1][1] == 'v' && "other"[1] == 't';
  }

  lemma SevenNames()
    ensures |NAMES| == 7
  {
  }

  // ---------- one table of counts and one flush ----------

  /** How often a name is counted in a list. */
  function CountIn(pairs: seq<Count>, name: string): nat {
    if pairs == [] then 0 else (if pairs[0].name == name then pairs[0].n else 0) + CountIn(pairs[1..], name)
  }

  predicate AllPositive(pairs: seq<Count>) { forall i :: 0 <= i < |pairs| ==> pairs[i].n > 0 }

  /** What a table says of a name, nothing being zero. */
  function Tally(ops: map<string, nat>, name: string): nat { if name in ops then ops[name] else 0 }

  predicate NoZeros(ops: map<string, nat>) { forall name :: name in ops ==> ops[name] > 0 }

  lemma {:induction false} BumpsAddUp(ops: map<string, nat>, pairs: seq<Count>, name: string)
    requires NoZeros(ops) && AllPositive(pairs)
    ensures NoZeros(BumpAll(ops, pairs)) && Tally(BumpAll(ops, pairs), name) == Tally(ops, name) + CountIn(pairs, name)
    decreases |pairs|
  {
    if pairs != [] {
      var bumped := Bump(ops, pairs[0].name, pairs[0].n);
      assert NoZeros(bumped);
      BumpsAddUp(bumped, pairs[1..], name);
    }
  }

  lemma {:induction false} OpsArePositive(c: Counters, i: nat)
    requires |c.ops| == NUM_OPS && i <= NUM_OPS
    ensures AllPositive(OpsFrom(c, i))
    decreases NUM_OPS - i
  {
    if i < NUM_OPS {
      OpsArePositive(c, i + 1);
    }
  }

  lemma CountInAppend(a: seq<Count>, b: seq<Count>, name: string)
    requires |a| <= 1
    ensures CountIn(a + b, name) == CountIn(a, name) + CountIn(b, name)
  {
    if a == [] {
      assert a + b == b;
    } else {
      assert (a + b)[1..] == b && a[1..] == [];
    }
  }

  /** In the list a flush prints, each operator from position `i` on has its own count. */
  lemma {:induction false} PrintedCounts(c: Counters, i: nat, op: MutationOp)
    requires |c.ops| == NUM_OPS && i <= NUM_OPS
    ensures CountIn(OpsFrom(c, i), PrintedName(op)) == if i <= OpIndex(op) then c.ops[OpIndex(op)] else 0
    ensures CountIn(OpsFrom(c, i), "other") == c.other
    decreases NUM_OPS - i
  {
    hide NAMES, PrintedName, OpIndex;
    SevenNames();
    NameIs(0, op);
    if i < NUM_OPS {
      var here := if i < |NAMES| && c.ops[i] > 0 then [Count(NAMES[i], c.ops[i])] else [];
      PrintedCounts(c, i + 1, op);
      CountInAppend(here, OpsFrom(c, i + 1), PrintedName(op));
      CountInAppend(here, OpsFrom(c, i + 1), "other");
      if i < |NAMES| {
        NameIs(i, op);
      }
    }
  }

  /** Reading one flushed line adds every counter to what is there, each operator's under its printed name. */
  lemma FlushAddsCounters(acc: Snapshot, f: Flush, op: MutationOp)
    requires Fits64(f.c) && NoZeros(acc.ops)
    ensures var next := AddLine(acc, LineText(Fields(f.c, f.offset, f.before, f.after), OpsFrom(f.c, 0)));
      && next.hits == acc.hits + f.c.hits
      && next.misses == acc.misses + f.c.misses
      && next.mutations == acc.mutations + f.c.mutations
      && Tally(next.ops, PrintedName(op)) == Tally(acc.ops, PrintedName(op)) + f.c.ops[OpIndex(op)]
      && Tally(next.ops, "other") == Tally(acc.ops, "other") + f.c.other
  {
    hide AddLine, LineText, Fields, OpsFrom, BumpAll, PrintedName, OpIndex, Tally;
    FlushReads(acc, f.c, f.offset, f.before, f.after);
    OpsArePositive(f.c, 0);
    PrintedCounts(f.c, 0, op);
    BumpsAddUp(acc.ops, OpsFrom(f.c, 0), PrintedName(op));
    BumpsAddUp(acc.ops, OpsFrom(f.c, 0), "other");
  }

  // ---------- several flushes ----------

  /** The table holds the sums over the flushes. */
  lemma {:induction false} TotalsAreSums(fs: seq<Flush>, op: MutationOp)
    requires AllFit(fs)
    ensures var t := Totals(fs);
      && t.hits == SumOf(fs, Hits) && t.misses == SumOf(fs, Misses) && t.mutations == SumOf(fs, Mutations)
      && NoZeros(t.ops)
      && Tally(t.ops, PrintedName(op)) == SumOf(fs, Operator(op))
      && Tally(t.ops, "other") == SumOf(fs, Other)
  {
    hide BumpAll, OpsFrom, PrintedName;
    if fs != [] {
      var before, c := fs[..|fs| - 1], fs[|fs| - 1].c;
      assert Fits64(fs[|fs| - 1].c);
      TotalsAreSums(before, op);
      OpsArePositive(c, 0);
      PrintedCounts(c, 0, op);
      BumpsAddUp(Totals(before).ops, OpsFrom(c, 0), PrintedName(op));
      BumpsAddUp(Totals(before).ops, OpsFrom(c, 0), "other");
    }
  }

  /** An entry of a table of counts: there exactly when it is positive. */
  predicate Holds(ops: map<string, nat>, name: string, n: nat) {
    (name in ops <==> n > 0) && (name in ops ==> ops[name] == n)
  }

  lemma TallyHolds(ops: map<string, nat>, name: string)
    requires NoZeros(ops)
    ensures Holds(ops, name, Tally(ops, name))
  {
  }

  /** After any flushes a full parse holds every counter's sum, each operator's under its printed name. */
  lemma ParsedCountsAreSums(fs: seq<Flush>, op: MutationOp)
    requires AllFit(fs)
    ensures var total := FullParse(FlushTexts(fs));
      && total.hits == SumOf(fs, Hits)
      && total.misses == SumOf(fs, Misses)
      && total.mutations == SumOf(fs, Mutations)
      && Holds(total.ops, PrintedName(op), SumOf(fs, Operator(op)))
      && Holds(total.ops, "other", SumOf(fs, Other))
  {
    hide FullParse, FlushTexts, Totals, Tally, Holds, SumOf, PrintedName;
    FlushesAddUp(fs);
    TotalsAreSums(fs, op);
    TallyHolds(Totals(fs).ops, PrintedName(op));
    TallyHolds(Totals(fs).ops, "other");
  }

  ghost predicate IsPrinted(name: string) { name == "other" || exists op :: name == PrintedName(op) }

  /** Nothing else is in the table. */
  lemma {:induction false} OnlyPrintedNames(fs: seq<Flush>)
    requires AllFit(fs)
    ensures forall name :: name in FullParse(FlushTexts(fs)).ops ==> IsPrinted(name)
  {
    hide FullParse, FlushTexts, BumpAll, OpsFrom, IsPrinted;
    FlushesAddUp(fs);
    if fs != [] {
      var before, c := fs[..|fs| - 1], fs[|fs| - 1].c;
      assert Fits64(fs[|fs| - 1].c);
      FlushesAddUp(before);
      OnlyPrintedNames(before);
      NamesPrinted(c, 0);
      BumpedNames(Totals(before).ops, OpsFrom(c, 0));
    }
  }

  ghost predicate AllPrinted(pairs: seq<Count>) { forall k :: 0 <= k < |pairs| ==> IsPrinted(pairs[k].name) }

  lemma {:induction false} BumpedNames(ops: map<string, nat>, pairs: seq<Count>)
    requires (forall name :: name in ops ==> IsPrinted(name)) && AllPrinted(pairs)
    ensures forall name :: name in BumpAll(ops, pairs) ==> IsPrinted(name)
    decreases |pairs|
  {
    hide IsPrinted;
    if pairs != [] {
      BumpedNames(Bump(ops, pairs[0].name, pairs[0].n), pairs[1..]);
    }
  }

  lemma {:induction false} NamesPrinted(c: Counters, i: nat)
    requires |c.ops| == NUM_OPS && i <= NUM_OPS
    ensures AllPrinted(OpsFrom(c, i))
    decreases NUM_OPS - i
  {
    hide NAMES, IsPrinted;
    SevenNames();
    if i < NUM_OPS {
      NamesPrinted(c, i + 1);
      if i < |NAMES| {
        NamePrinted(i);
      }
    } else {
      assert IsPrinted("other") by { OtherPrinted(); }
    }
  }

  lemma OtherPrinted()
    ensures IsPrinted("other")
  {
  }

  lemma NamePrinted(i: nat)
    requires i < |NAMES|
    ensures IsPrinted(NAMES[i])
  {
    hide NAMES, PrintedName;
    SevenNames();
    NameIs(i, OpAt(i));
    assert NAMES[i] == PrintedName(OpAt(i));
  }

  function OpAt(i: nat): (op: MutationOp)
    requires i < 7
    ensures OpIndex(op) == i
  {
    if i == 0 then BitFlip
    else if i == 1 then OverwriteRange
    else if i == 2 then InsertToken
    else if i == 3 then Arith
    else if i == 4 then Splice
    else if i == 5 then DeleteBlock
    else DictionaryOverwrite
  }

  // ---------- the line itself ----------

  /** A quoted name with its colon, a number, and what follows. */
  function Entered(name: string, n: nat, rest: string): string { name + (Decimal(n) + rest) }

  /** A name in quotation marks, and a colon. */
  function Quoted(name: string): string { ['"'] + name + ['"', ':'] }

  lemma KeysAreQuoted(name: string)
    ensures Key(name) == Quoted(name)
    ensures OPERATORS == Quoted("operators") + "{"
  {
    assert forall n: string :: Key(n) == Quoted(n);
  }

  /** Fields, each followed by a comma, and then the rest of the line. */
  function FieldsThen(fields: seq<Count>, rest: string): string {
    if fields == [] then rest
    else Entered(Key(fields[0].name), fields[0].n, "," + FieldsThen(fields[1..], rest))
  }

  lemma {:induction false} FieldsThenRest(fields: seq<Count>, rest: string)
    ensures FieldsText(fields) + rest == FieldsThen(fields, rest)
  {
    hide Key, Decimal;
    if fields == [] {
      assert "" + rest == rest;
    } else {
      FieldsThenRest(fields[1..], rest);
      Assoc(PairText(fields[0]), "," + FieldsText(fields[1..]), rest);
      Assoc(",", FieldsText(fields[1..]), rest);
      Assoc(Key(fields[0].name), Decimal(fields[0].n), "," + FieldsThen(fields[1..], rest));
    }
  }

  lemma SixFields(f: seq<Count>, rest: string)
    requires |f| == 6
    ensures FieldsThen(f, rest) ==
            Entered(Key(f[0].name), f[0].n, "," + Entered(Key(f[1].name), f[1].n, "," +
            Entered(Key(f[2].name), f[2].n, "," + Entered(Key(f[3].name), f[3].n, "," +
            Entered(Key(f[4].name), f[4].n, "," + Entered(Key(f[5].name), f[5].n, "," + rest))))))
  {
    hide Entered, Key;
    assert f[1..][1..] == f[2..] && f[2..][1..] == f[3..] && f[3..][1..] == f[4..] && f[4..][1..] == f[5..];
    assert f[5..][1..] == [];
    assert FieldsThen(f[5..], rest) == Entered(Key(f[5].name), f[5].n, "," + rest);
    assert FieldsThen(f[4..], rest) == Entered(Key(f[4].name), f[4].n, "," + FieldsThen(f[5..], rest));
    assert FieldsThen(f[3..], rest) == Entered(Key(f[3].name), f[3].n, "," + FieldsThen(f[4..], rest));
    assert FieldsThen(f[2..], rest) == Entered(Key(f[2].name), f[2].n, "," + FieldsThen(f[3..], rest));
    assert FieldsThen(f[1..], rest) == Entered(Key(f[1].name), f[1].n, "," + FieldsThen(f[2..], rest));
  }

  /** The line of a flush, spelled out up to the operators. */
  lemma FlushLineIs(c: Counters, offset: nat, before: nat, after: nat)
    requires |c.ops| == NUM_OPS
    ensures FlushLine(c, offset, before, after) ==
            "{" + Entered(Quoted("recipe_hits"), c.hits, "," +
            Entered(Quoted("recipe_misses"), c.misses, "," +
            Entered(Quoted("mutation_count"), c.mutations, "," +
            Entered(Quoted("last_offset"), offset, "," +
            Entered(Quoted("last_size_before"), before, "," +
            Entered(Quoted("last_size_after"), after, "," +
            (Quoted("operators") + "{" + (PairsText(OpsFrom(c, 0)) + "}}\n"))))))))
  {
    hide Entered, Key, Quoted, OpsFrom, FieldsText, PairsText, FieldsThen, OPERATORS;
    var fs, body := Fields(c, offset, before, after), PairsText(OpsFrom(c, 0));
    var tail := OPERATORS + (body + "}}");
    Assoc("{", FieldsText(fs) + tail, "\n");
    Assoc(FieldsText(fs), tail, "\n");
    Assoc(OPERATORS, body + "}}", "\n");
    Assoc(body, "}}", "\n");
    assert "}}" + "\n" == "}}\n";
    FieldsThenRest(fs, OPERATORS + (body + "}}\n"));
    SixFields(fs, OPERATORS + (body + "}}\n"));
    KeysAreQuoted("recipe_hits");
    KeysAreQuoted("recipe_misses");
    KeysAreQuoted("mutation_count");
    KeysAreQuoted("last_offset");
    KeysAreQuoted("last_size_before");
    KeysAreQuoted("last_size_after");
  }

  /** Operators that were never counted are not listed, and the catch-all comes last. */
  lemma ListedExample(c: Counters)
    requires c.ops == [1, 0, 3, 0, 0, 6, 0, 0, 0, 0, 0, 0, 0, 0, 0, 0] && c.other == 27
    ensures PairsText(OpsFrom(c, 0)) ==
            Quoted("bit_flip") + "1" + ("," + (Quoted("insert_token") + "3" + (","
            + (Quoted("delete_block") + "6" + ("," + (Quoted("other") + "27"))))))
  {
    hide PairsText, PairText, Quoted, OpsFrom;
    ListedOps(c);
    var p0, p1, p2, p3 := Count("bit_flip", 1), Count("insert_token", 3), Count("delete_block", 6), Count("other", 27);
    FourPairs(p0, p1, p2, p3);
    ListedPairs();
  }

  lemma FourPairs(p0: Count, p1: Count, p2: Count, p3: Count)
    ensures PairsText([p0, p1, p2, p3]) ==
            PairText(p0) + ("," + (PairText(p1) + ("," + (PairText(p2) + ("," + PairText(p3))))))
  {
    hide PairText;
    assert [p0, p1, p2, p3][1..] == [p1, p2, p3] && [p1, p2, p3][1..] == [p2, p3] && [p2, p3][1..] == [p3];
    assert PairText(p3) + "" == PairText(p3);
    assert PairsText([p3]) == PairText(p3);
    assert PairsText([p2, p3]) == PairText(p2) + ("," + PairsText([p3]));
    assert PairsText([p1, p2, p3]) == PairText(p1) + ("," + PairsText([p2, p3]));
  }

  lemma ListedPairs()
    ensures PairText(Count("bit_flip", 1)) == Quoted("bit_flip") + "1"
    ensures PairText(Count("insert_token", 3)) == Quoted("insert_token") + "3"
    ensures PairText(Count("delete_block", 6)) == Quoted("delete_block") + "6"
    ensures PairText(Count("other", 27)) == Quoted("other") + "27"
  {
    hide Key, Quoted;
    KeysAreQuoted("bit_flip");
    KeysAreQuoted("insert_token");
    KeysAreQuoted("delete_block");
    KeysAreQuoted("other");
    assert Decimal(27) == "27";
  }

  lemma NoneFrom(c: Counters, i: nat)
    requires |c.ops| == NUM_OPS && i <= NUM_OPS
    requires forall k :: i <= k < NUM_OPS ==> c.ops[k] == 0
    ensures OpsFrom(c, i) == if c.other > 0 then [Count("other", c.other)] else []
    decreases NUM_OPS - i
  {
    if i < NUM_OPS {
      NoneFrom(c, i + 1);
    }
  }

  lemma ListedOps(c: Counters)
    requires c.ops == [1, 0, 3, 0, 0, 6, 0, 0, 0, 0, 0, 0, 0, 0, 0, 0] && c.other == 27
    ensures OpsFrom(c, 0) ==
            [Count("bit_flip", 1), Count("insert_token", 3), Count("delete_block", 6), Count("other", 27)]
  {
    NoneFrom(c, 6);
    assert OpsFrom(c, 5) == [Count("delete_block", 6)] + OpsFrom(c, 6);
    assert OpsFrom(c, 3) == OpsFrom(c, 4) == OpsFrom(c, 5);
    assert OpsFrom(c, 2) == [Count("insert_token", 3)] + OpsFrom(c, 3);
    assert OpsFrom(c, 1) == OpsFrom(c, 2);
    assert OpsFrom(c, 0) == [Count("bit_flip", 1)] + OpsFrom(c, 1);
  }

  // ---------- one name in both files ----------

  /**
    A recipe file names an operator as the telemetry does; the mutator reads the name of the one it
    lacks as a bit flip.
   */
  lemma RecipeNamesOperatorsAlike(op: StrategyOp)
    ensures op != OpCloneBlock ==> OpName(op) == PrintedName(MutatorOp(op))
    ensures OpFromName(OpName(op)) == MutatorOp(op)
    ensures MutatorOp(op) == BitFlip <==> op == OpBitFlip || op == OpCloneBlock
  {
    hide OpFromName;
    OpNameReads(op);
  }
}
