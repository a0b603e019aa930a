/**
  The line a flush appends, read back by the controller: every counter survives.  Because the
  counters are running totals and the reader adds lines up, several flushes are over-counted.
 */
module TelemetryFlush {
  import opened Wrappers
  import opened JsonGrammar
  import opened JsonRecognizer
  import opened TextFormat
  import opened TelemetryLog
  import opened TelemetryRings

  /** A name and a count. */
  datatype Count = Count(name: string, n: nat)

  // ---------- printing ----------

  function PairText(c: Count): string { Key(c.name) + Decimal(c.n) }

  function FieldsText(fields: seq<Count>): string {
    if fields == [] then "" else PairText(fields[0]) + ("," + FieldsText(fields[1..]))
  }

  /** Pairs separated by commas. */
  function PairsText(pairs: seq<Count>): string {
    if pairs == [] then ""
    else PairText(pairs[0]) + (if |pairs| == 1 then "" else "," + PairsText(pairs[1..]))
  }

  function LineText(fields: seq<Count>, ops: seq<Count>): string {
    "{" + (FieldsText(fields) + (OPERATORS + (PairsText(ops) + "}}")))
  }

  function Fields(c: Counters, offset: nat, before: nat, after: nat): seq<Count> {
    [Count("recipe_hits", c.hits),
     Count("recipe_misses", c.misses),
     Count("mutation_count", c.mutations),
     Count("last_offset", offset),
     Count("last_size_before", before),
     Count("last_size_after", after)]
  }

  /** The operators with a name and a nonzero count, from position `i` on, then the catch-all. */
  function OpsFrom(c: Counters, i: nat): seq<Count>
    requires |c.ops| == NUM_OPS && i <= NUM_OPS
    decreases NUM_OPS - i
  {
    if i == NUM_OPS then (if c.other > 0 then [Count("other", c.other)] else [])
    else (if i < |NAMES| && c.ops[i] > 0 then [Count(NAMES[i], c.ops[i])] else []) + OpsFrom(c, i + 1)
  }

  lemma {:induction false} PairsAppend(a: seq<Count>, b: seq<Count>)
    ensures PairsText(a + b) == PairsText(a) + ((if a == [] || b == [] then "" else ",") + PairsText(b))
  {
    if a == [] {
      assert a + b == b;
      assert "" + ("" + PairsText(b)) == PairsText(b);
    } else if b == [] {
      assert a + b == a;
      assert PairsText(a) + ("" + "") == PairsText(a);
    } else {
      assert (a + b)[1..] == a[1..] + b;
      PairsAppend(a[1..], b);
      if |a| == 1 {
        assert a[1..] == [];
        assert "" + ("" + PairsText(b)) == PairsText(b);
        assert PairText(a[0]) + "" == PairText(a[0]);
      } else {
        Assoc4(PairText(a[0]), ",", PairsText(a[1..]), "," + PairsText(b));
      }
    }
  }

  lemma OneMorePair(done: seq<Count>, pair: Count, rest: seq<Count>)
    ensures PairsText(done + [pair]) == PairsText(done) + ((if done == [] then "" else ",") + PairText(pair))
    ensures done + ([pair] + rest) == (done + [pair]) + rest
  {
    PairsAppend(done, [pair]);
    assert PairText(pair) + "" == PairText(pair);
    assert [pair][1..] == [];
  }

  /** `flush_from_environment`, as the text it appends. */
  method FlushText(ring: TelemetryRing) returns (text: string)
    requires ring.Valid()
    ensures text == FlushLine(ring.Value(), ring.lastOffset, ring.lastSizeBefore, ring.lastSizeAfter)
  {
    hide PairText, OpsFrom;
    var head := FieldsText(
      [Count("recipe_hits", ring.hits),
       Count("recipe_misses", ring.misses),
       Count("mutation_count", ring.mutationCount),
       Count("last_offset", ring.lastOffset),
       Count("last_size_before", ring.lastSizeBefore),
       Count("last_size_after", ring.lastSizeAfter)]);
    var body := OperatorsText(ring);
    text := ("{" + (head + (OPERATORS + (body + "}}")))) + "\n";
  }

  /** The loop over the operator counters. */
  method OperatorsText(ring: TelemetryRing) returns (body: string)
    requires ring.Valid()
    ensures body == PairsText(OpsFrom(ring.Value(), 0))
  {
    hide PairText, PairsText;
    ghost var c := ring.Value();
    var first := true;
    ghost var done: seq<Count> := [];
    body := "";
    assert PairsText([]) == "" by { NoPairs(); }
    assert done + OpsFrom(c, 0) == OpsFrom(c, 0);
    for i := 0 to NUM_OPS
      invariant c == ring.Value() && done + OpsFrom(c, i) == OpsFrom(c, 0)
      invariant body == PairsText(done) && (first <==> done == [])
    {
      if ring.opCounts[i] == 0 || i >= |NAMES| {
        assert [] + OpsFrom(c, i + 1) == OpsFrom(c, i + 1);
        continue;
      }
      var pair := Count(NAMES[i], ring.opCounts[i]);
      OneMorePair(done, pair, OpsFrom(c, i + 1));
      body := body + ((if first then "" else ",") + PairText(pair));
      first := false;
      done := done + [pair];
    }
    if ring.opOther > 0 {
      var pair := Count("other", ring.opOther);
      OneMorePair(done, pair, []);
      body := body + ((if first then "" else ",") + PairText(pair));
      done := done + [pair];
    }
    assert done + [] == done;
  }

  lemma NoPairs()
    ensures PairsText([]) == ""
  {
  }

  function FlushLine(c: Counters, offset: nat, before: nat, after: nat): string
    requires |c.ops| == NUM_OPS
  {
    LineText(Fields(c, offset, before, after), OpsFrom(c, 0)) + "\n"
  }

  // ---------- reading back ----------

  /** Names that cannot be confused with the punctuation of the line. */
  predicate PlainName(name: string) {
    name != "" && '"' !in name && ':' !in name && '}' !in name && '\n' !in name
  }

  /** Where the quotes of a pair are, and what follows the second one. */
  lemma PairQuotes(c: Count, i: nat)
    requires PlainName(c.name) && i <= |PairText(c)|
    ensures var pair := PairText(c) + ",";
      && (pair[i] == '"' <==> i == 0 || i == |c.name| + 1)
      && |c.name| + 2 < |pair| && pair[|c.name| + 2] == ':'
  {
    var pair := PairText(c) + ",";
    assert Key(c.name)[|c.name| + 2] == ':';
    if 0 < i <= |c.name| {
      assert pair[i] == c.name[i - 1];
    } else if |c.name| + 2 < i < |PairText(c)| {
      assert pair[i] == Decimal(c.n)[i - |c.name| - 3];
    }
  }

  /** A word that starts with a quoted name is not found inside a pair with another name. */
  lemma NotInPair(c: Count, rest: string, name: string, word: string, i: nat)
    requires PlainName(c.name) && PlainName(name) && c.name != name && Key(name) <= word
    requires i <= |PairText(c)|
    ensures !(word <= ((PairText(c) + ",") + rest)[i..])
  {
    hide PairText;
    var pair := PairText(c) + ",";
    var s := pair + rest;
    assert word[0] == Key(name)[0] == '"' && word[1] == Key(name)[1] == name[0];
    PairQuotes(c, i);
    assert s[i..][0] == s[i] == pair[i];
    if i == 0 {
      assert s[0..] == s;
      if word <= s {
        NamesAgree(c, rest, name, word);
      }
    } else if i == |c.name| + 1 {
      assert s[i..][1] == s[i + 1] == pair[i + 1];
    }
  }

  lemma QuotedName(name: string, s: string)
    requires '"' !in name && Key(name) <= s
    ensures Cut(s[1..], '"').Some? && Cut(s[1..], '"').value.0 == name
  {
    var t := s[1..];
    assert t == name + ("\"" + t[|name| + 1..]) by {
      assert forall k :: 0 <= k <= |name| ==> t[k] == s[k + 1] == Key(name)[k + 1];
    }
    CutAfter(name, '"', t[|name| + 1..]);
  }

  lemma NamesAgree(c: Count, rest: string, name: string, word: string)
    requires PlainName(c.name) && PlainName(name) && Key(name) <= word
    requires word <= (PairText(c) + ",") + rest
    ensures c.name == name
  {
    hide Key, Cut;
    var s := (PairText(c) + ",") + rest;
    assert Key(name) <= s;
    QuotedName(name, s);
    assert Key(c.name) <= PairText(c) <= s;
    QuotedName(c.name, s);
  }

  predicate PlainNames(cs: seq<Count>) { forall i :: 0 <= i < |cs| ==> PlainName(cs[i].name) }

  /** Searching for a word with a given name skips the fields with other names. */
  lemma {:induction false} SkipsFields(fields: seq<Count>, rest: string, name: string, word: string)
    requires PlainNames(fields) && PlainName(name) && Key(name) <= word
    requires forall i :: 0 <= i < |fields| ==> fields[i].name != name
    ensures AfterWord(FieldsText(fields) + rest, word) == AfterWord(rest, word)
    decreases |fields|
  {
    if fields == [] {
      assert "" + rest == rest;
    } else {
      var pair, more := PairText(fields[0]) + ",", FieldsText(fields[1..]);
      Assoc(PairText(fields[0]), ",", more);
      Assoc(pair, more, rest);
      forall i | 0 <= i < |pair|
        ensures !(word <= (pair + (more + rest))[i..])
      {
        NotInPair(fields[0], more + rest, name, word, i);
      }
      AfterWordSkips(pair, more + rest, word);
      SkipsFields(fields[1..], rest, name, word);
    }
  }

  lemma {:induction false} FieldsAppend(a: seq<Count>, b: seq<Count>)
    ensures FieldsText(a + b) == FieldsText(a) + FieldsText(b)
  {
    if a == [] {
      assert a + b == b;
      assert "" + FieldsText(b) == FieldsText(b);
    } else {
      assert (a + b)[1..] == a[1..] + b;
      FieldsAppend(a[1..], b);
      Assoc4(PairText(a[0]), ",", FieldsText(a[1..]), FieldsText(b));
    }
  }

  lemma BraceSkipped(rest: string, word: string)
    requires word != "" && word[0] == '"'
    ensures AfterWord("{" + rest, word) == AfterWord(rest, word)
  {
    assert ("{" + rest)[1..] == rest;
  }

  lemma NumberReads(n: nat, rest: string)
    requires n < TWO_64 && !StartsDigit(rest)
    ensures ParseU64(Decimal(n) + rest) == Some(n) && SkipDigits(Decimal(n) + rest) == rest
    ensures SkipSpace(Decimal(n) + rest) == Decimal(n) + rest
  {
    LeadingDigitsOver(Decimal(n), rest);
    SkipDigitsOver(Decimal(n), rest);
    DecimalValue(n);
    assert (Decimal(n) + rest)[0] == Decimal(n)[0];
  }

  /** The first field with a name is found and its number read. */
  lemma FieldReads(fields: seq<Count>, ops: seq<Count>, k: nat)
    requires PlainNames(fields) && k < |fields| && fields[k].n < TWO_64
    requires forall i :: 0 <= i < k ==> fields[i].name != fields[k].name
    ensures FieldValue(LineText(fields, ops), fields[k].name) == fields[k].n
  {
    var f := fields[k];
    var tail := OPERATORS + (PairsText(ops) + "}}");
    assert fields == fields[..k] + fields[k..];
    FieldsAppend(fields[..k], fields[k..]);
    var after := "," + FieldsText(fields[k + 1..]);
    assert fields[k..][1..] == fields[k + 1..];
    Assoc(FieldsText(fields[..k]), FieldsText(fields[k..]), tail);
    BraceSkipped(FieldsText(fields) + tail, Key(f.name));
    SkipsFields(fields[..k], FieldsText(fields[k..]) + tail, f.name, Key(f.name));
    Assoc(PairText(f), after, tail);
    Assoc(Key(f.name), Decimal(f.n), after + tail);
    AfterWordHere(Key(f.name), Decimal(f.n) + (after + tail));
    NumberReads(f.n, after + tail);
  }

  /** Adding named counts to a table. */
  function BumpAll(ops: map<string, nat>, pairs: seq<Count>): map<string, nat>
    decreases |pairs|
  {
    if pairs == [] then ops else BumpAll(Bump(ops, pairs[0].name, pairs[0].n), pairs[1..])
  }

  predicate Small(cs: seq<Count>) { forall i :: 0 <= i < |cs| ==> cs[i].n < TWO_64 }

  lemma {:induction false} PairsRead(pairs: seq<Count>, ops: map<string, nat>)
    requires PlainNames(pairs) && Small(pairs)
    ensures AddOps(PairsText(pairs), ops) == BumpAll(ops, pairs)
    decreases |pairs|
  {
    hide PairText, PlainName, Decimal, Bump;
    if pairs != [] {
      var c := pairs[0];
      var more := if |pairs| == 1 then "" else "," + PairsText(pairs[1..]);
      PairCuts(c, more);
      NumberReads(c.n, more);
      if |pairs| > 1 {
        assert more[1..] == PairsText(pairs[1..]);
      } else {
        assert pairs[1..] == [];
      }
      PairsRead(pairs[1..], Bump(ops, c.name, c.n));
    }
  }

  /** The three searches for punctuation find the pair's own. */
  lemma PairCuts(c: Count, more: string)
    requires PlainName(c.name)
    ensures var s := PairText(c) + more;
      && Cut(s, '"') == Some(("", c.name + ("\"" + (":" + (Decimal(c.n) + more)))))
      && Cut(c.name + ("\"" + (":" + (Decimal(c.n) + more))), '"') == Some((c.name, ":" + (Decimal(c.n) + more)))
      && Cut(":" + (Decimal(c.n) + more), ':') == Some(("", Decimal(c.n) + more))
  {
    var digits := Decimal(c.n) + more;
    Assoc(Key(c.name), Decimal(c.n), more);
    Assoc4("\"", c.name, "\":", digits);
    Assoc("\"", ":", digits);
    assert "\"" + ":" == "\":";
    CutAfter(c.name, '"', ":" + digits);
    CutHere('"', c.name + ("\"" + (":" + digits)));
    CutHere(':', digits);
  }

  lemma CutHere(c: char, rest: string)
    ensures Cut([c] + rest, c) == Some(("", rest))
  {
  }

  lemma {:induction false} PairsHaveNoBrace(pairs: seq<Count>)
    requires PlainNames(pairs)
    ensures '}' !in PairsText(pairs)
  {
    if pairs != [] {
      var c := pairs[0];
      assert '}' !in Decimal(c.n);
      assert '}' !in Key(c.name);
      PairsHaveNoBrace(pairs[1..]);
    }
  }

  lemma BodyReads(fields: seq<Count>, ops: seq<Count>)
    requires PlainNames(fields) && PlainNames(ops)
    requires forall i :: 0 <= i < |fields| ==> fields[i].name != "operators"
    ensures OperatorsBody(LineText(fields, ops)) == PairsText(ops)
  {
    var body := PairsText(ops) + "}}";
    BraceSkipped(FieldsText(fields) + (OPERATORS + body), OPERATORS);
    assert PlainName("operators");
    SkipsFields(fields, OPERATORS + body, "operators", OPERATORS);
    AfterWordHere(OPERATORS, body);
    PairsHaveNoBrace(ops);
    CutAfter(PairsText(ops), '}', "}");
    assert "}" + "}" == "}}";
  }

  lemma LineIsStripped(fields: seq<Count>, ops: seq<Count>)
    ensures Strip(IsSpace, LineText(fields, ops)) == LineText(fields, ops) != ""
  {
    StripIsStripped(IsSpace, LineText(fields, ops));
  }

  // ---------- one flush ----------

  lemma {:induction false} OpsArePlain(c: Counters, i: nat)
    requires |c.ops| == NUM_OPS && i <= NUM_OPS
    ensures PlainNames(OpsFrom(c, i))
    decreases NUM_OPS - i
  {
    if i < NUM_OPS {
      OpsArePlain(c, i + 1);
      if i < |NAMES| {
        NameIsPlain(i);
      }
    }
  }

  lemma NameIsPlain(i: nat)
    requires i < |NAMES|
    ensures PlainName(NAMES[i])
  {
    hide PlainName;
    OneWordNames();
    OverwriteRangeIsPlain();
    InsertTokenIsPlain();
    DeleteBlockIsPlain();
    DictionaryOverwriteIsPlain();
  }

  lemma OneWordNames()
    ensures PlainName("bit_flip") && PlainName("arith") && PlainName("splice")
  {
  }

  lemma OverwriteRangeIsPlain()
    ensures PlainName("overwrite_range")
  {
    PlainParts("overwrite", "_range");
    assert "overwrite" + "_range" == "overwrite_range";
  }

  lemma InsertTokenIsPlain()
    ensures PlainName("insert_token")
  {
    PlainParts("insert", "_token");
    assert "insert" + "_token" == "insert_token";
  }

  lemma DeleteBlockIsPlain()
    ensures PlainName("delete_block")
  {
    PlainParts("delete", "_block");
    assert "delete" + "_block" == "delete_block";
  }

  lemma DictionaryOverwriteIsPlain()
    ensures PlainName("dictionary_overwrite")
  {
    PlainParts("dictionary", "_overwrite");
    assert "dictionary" + "_overwrite" == "dictionary_overwrite";
  }

  lemma PlainParts(a: string, b: string)
    requires PlainName(a) && PlainName(b)
    ensures PlainName(a + b)
  {
  }

  /** Every counter fits in 64 bits. */
  predicate Fits64(c: Counters) {
    && |c.ops| == NUM_OPS && c.hits < TWO_64 && c.misses < TWO_64 && c.mutations < TWO_64 && c.other < TWO_64
    && forall i :: 0 <= i < |c.ops| ==> c.ops[i] < TWO_64
  }

  lemma {:induction false} OpsAreSmall(c: Counters, i: nat)
    requires Fits64(c) && i <= NUM_OPS
    ensures Small(OpsFrom(c, i))
    decreases NUM_OPS - i
  {
    if i < NUM_OPS {
      OpsAreSmall(c, i + 1);
    }
  }

  lemma HitNames()
    ensures PlainName("recipe_hits") && PlainName("recipe_misses")
  {
    PlainParts("recipe", "_hits");
    PlainParts("recipe", "_misses");
    assert "recipe" + "_hits" == "recipe_hits" && "recipe" + "_misses" == "recipe_misses";
  }

  lemma CounterNames()
    ensures PlainName("mutation_count") && PlainName("last_offset")
  {
    PlainParts("mutation", "_count");
    PlainParts("last", "_offset");
    assert "mutation" + "_count" == "mutation_count" && "last" + "_offset" == "last_offset";
  }

  lemma SizeNames()
    ensures PlainName("last_size_before") && PlainName("last_size_after")
  {
    PlainParts("last_size", "_before");
    PlainParts("last_size", "_after");
    assert "last_size" + "_before" == "last_size_before" && "last_size" + "_after" == "last_size_after";
  }

  lemma NamesDiffer()
    ensures "recipe_hits" != "recipe_misses" && "recipe_hits" != "mutation_count" && "recipe_misses" != "mutation_count"
    ensures "operators" !in ["recipe_hits", "recipe_misses", "mutation_count"]
    ensures "operators" !in ["last_offset", "last_size_before", "last_size_after"]
  {
    assert "operators"[0] == 'o' && "recipe_hits"[0] == "recipe_misses"[0] == 'r' && "mutation_count"[0] == 'm';
    assert "last_offset"[0] == "last_size_before"[0] == "last_size_after"[0] == 'l';
    assert "recipe_hits"[7] == 'h' && "recipe_misses"[7] == 'm';
  }

  lemma FieldsArePlain(c: Counters, offset: nat, before: nat, after: nat)
    ensures PlainNames(Fields(c, offset, before, after))
    ensures forall i :: 0 <= i < 6 ==> Fields(c, offset, before, after)[i].name != "operators"
    ensures var fs := Fields(c, offset, before, after);
      fs[0].name != fs[1].name && fs[0].name != fs[2].name && fs[1].name != fs[2].name
  {
    hide PlainName;
    HitNames();
    CounterNames();
    SizeNames();
    NamesDiffer();
    var fs := Fields(c, offset, before, after);
    forall i | 0 <= i < 6
      ensures PlainName(fs[i].name) && fs[i].name != "operators"
    {
      assert fs[i].name in ["recipe_hits", "recipe_misses", "mutation_count"] ||
             fs[i].name in ["last_offset", "last_size_before", "last_size_after"];
    }
  }

  /** Reading a flushed line adds exactly the counters that were flushed. */
  lemma FlushReads(acc: Snapshot, c: Counters, offset: nat, before: nat, after: nat)
    requires Fits64(c)
    ensures AddLine(acc, LineText(Fields(c, offset, before, after), OpsFrom(c, 0))) ==
            Plus(acc, c)
  {
    hide FieldValue, LineText, Fields, OpsFrom, AddOps, OperatorsBody;
    var fs, ops := Fields(c, offset, before, after), OpsFrom(c, 0);
    LineIsStripped(fs, ops);
    FieldsArePlain(c, offset, before, after);
    OpsArePlain(c, 0);
    OpsAreSmall(c, 0);
    FieldsAre(c, offset, before, after);
    FieldReads(fs, ops, 0);
    FieldReads(fs, ops, 1);
    FieldReads(fs, ops, 2);
    BodyReads(fs, ops);
    PairsRead(ops, acc.ops);
  }

  lemma FieldsAre(c: Counters, offset: nat, before: nat, after: nat)
    ensures var fs := Fields(c, offset, before, after);
      && |fs| == 6 && fs[0] == Count("recipe_hits", c.hits) && fs[1] == Count("recipe_misses", c.misses)
      && fs[2] == Count("mutation_count", c.mutations)
  {
  }

  lemma {:induction false} PairsHaveNoNewline(pairs: seq<Count>)
    requires PlainNames(pairs)
    ensures '\n' !in PairsText(pairs) && '\n' !in FieldsText(pairs)
  {
    if pairs != [] {
      assert '\n' !in Decimal(pairs[0].n);
      assert '\n' !in Key(pairs[0].name);
      PairsHaveNoNewline(pairs[1..]);
    }
  }

  // ---------- several flushes ----------

  /** The counters at each flush of a run, with the last mutation's offset and sizes. */
  datatype Flush = Flush(c: Counters, offset: nat, before: nat, after: nat)

  predicate AllFit(fs: seq<Flush>) { forall i :: 0 <= i < |fs| ==> Fits64(fs[i].c) }

  function TextOf(f: Flush): string
    requires Fits64(f.c)
  {
    FlushLine(f.c, f.offset, f.before, f.after)
  }

  function FlushTexts(fs: seq<Flush>): string
    requires AllFit(fs)
  {
    if fs == [] then "" else FlushTexts(fs[..|fs| - 1]) + TextOf(fs[|fs| - 1])
  }

  /** One flush's counters added to a snapshot. */
  function Plus(acc: Snapshot, c: Counters): Snapshot
    requires |c.ops| == NUM_OPS
  {
    Snapshot(acc.hits + c.hits, acc.misses + c.misses, acc.mutations + c.mutations, BumpAll(acc.ops, OpsFrom(c, 0)))
  }

  function Totals(fs: seq<Flush>): Snapshot
    requires AllFit(fs)
  {
    if fs == [] then EMPTY else Plus(Totals(fs[..|fs| - 1]), fs[|fs| - 1].c)
  }

  function TotalMutations(fs: seq<Flush>): nat {
    if fs == [] then 0 else TotalMutations(fs[..|fs| - 1]) + fs[|fs| - 1].c.mutations
  }

  lemma LineHasNoNewline(fields: seq<Count>, ops: seq<Count>)
    requires PlainNames(fields) && PlainNames(ops)
    ensures '\n' !in LineText(fields, ops)
  {
    hide PlainName, PairsText, FieldsText;
    PairsHaveNoNewline(fields);
    PairsHaveNoNewline(ops);
    assert '\n' !in OPERATORS;
    assert '\n' !in OPERATORS + (PairsText(ops) + "}}");
    assert '\n' !in FieldsText(fields) + (OPERATORS + (PairsText(ops) + "}}"));
  }

  lemma OneFlushLine(f: Flush)
    requires Fits64(f.c)
    ensures EndsLine(TextOf(f))
    ensures Lines(TextOf(f)) == [LineText(Fields(f.c, f.offset, f.before, f.after), OpsFrom(f.c, 0))]
  {
    hide LineText, Fields, OpsFrom, PlainName, Lines;
    var fs, ops := Fields(f.c, f.offset, f.before, f.after), OpsFrom(f.c, 0);
    FieldsArePlain(f.c, f.offset, f.before, f.after);
    OpsArePlain(f.c, 0);
    LineHasNoNewline(fs, ops);
    LinesOfLine(LineText(fs, ops), "");
    NoLines();
    assert "\n" + "" == "\n";
  }

  /** One more flush at the end of the file adds its counters to a full parse. */
  lemma ParseOneMore(text: string, f: Flush)
    requires EndsLine(text) && Fits64(f.c)
    ensures EndsLine(text + TextOf(f))
    ensures FullParse(text + TextOf(f)) == Plus(FullParse(text), f.c)
  {
    hide LineText, Fields, OpsFrom, Lines, AddLine, FlushLine, Plus;
    var acc, lines := FullParse(text), Lines(TextOf(f));
    OneFlushLine(f);
    LinesAppend(text, TextOf(f));
    AddLinesAppend(EMPTY, Lines(text), lines);
    FlushReads(acc, f.c, f.offset, f.before, f.after);
    assert lines[1..] == [];
    assert AddLines(acc, lines) == AddLine(acc, lines[0]);
  }

  /** A full parse adds all flushed counters up, flush by flush. */
  lemma {:induction false} FlushesAddUp(fs: seq<Flush>)
    requires AllFit(fs)
    ensures EndsLine(FlushTexts(fs)) && FullParse(FlushTexts(fs)) == Totals(fs)
  {
    hide Fits64, TextOf, EndsLine, Plus;
    if fs == [] {
      NothingFlushed();
    } else {
      var n := |fs| - 1;
      assert Fits64(fs[n].c);
      FlushesAddUp(fs[..n]);
      ParseOneMore(FlushTexts(fs[..n]), fs[n]);
    }
  }

  lemma {:induction false} TotalsMutations(fs: seq<Flush>)
    requires AllFit(fs)
    ensures Totals(fs).mutations == TotalMutations(fs)
  {
    hide Fits64, BumpAll, OpsFrom;
    if fs != [] {
      assert Fits64(fs[|fs| - 1].c);
      TotalsMutations(fs[..|fs| - 1]);
    }
  }

  lemma NothingFlushed()
    ensures EndsLine("") && FullParse("") == EMPTY
  {
  }

  lemma {:induction false} TotalIsZero(fs: seq<Flush>)
    ensures TotalMutations(fs) == 0 <==> forall i :: 0 <= i < |fs| ==> fs[i].c.mutations == 0
  {
    if fs != [] {
      var n := |fs| - 1;
      TotalIsZero(fs[..n]);
      assert (forall i :: 0 <= i < |fs| ==> fs[i].c.mutations == 0) <==>
             (forall i :: 0 <= i < n ==> fs[..n][i].c.mutations == 0) && fs[n].c.mutations == 0;
    }
  }

  /**
    The parsed mutation count of a run is the run's own count if and only if every flush but the
    last happened before the first mutation.
   */
  lemma ParsedCountIsRunCount(fs: seq<Flush>)
    requires fs != [] && AllFit(fs)
    ensures FullParse(FlushTexts(fs)).mutations == fs[|fs| - 1].c.mutations <==>
            forall i :: 0 <= i < |fs| - 1 ==> fs[i].c.mutations == 0
  {
    hide FullParse, FlushTexts, AllFit, Totals;
    var earlier := fs[..|fs| - 1];
    FlushesAddUp(fs);
    TotalsMutations(fs);
    TotalIsZero(earlier);
    assert forall i :: 0 <= i < |earlier| ==> earlier[i] == fs[i];
  }
}
