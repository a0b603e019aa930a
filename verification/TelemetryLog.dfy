/**
  The telemetry file: the line the mutator appends on a flush, and the controller's full and
  incremental readers.
 */
module TelemetryLog {
  import opened Wrappers
  import opened JsonGrammar
  import opened JsonRecognizer
  import opened TextFormat

  datatype Snapshot = Snapshot(hits: nat, misses: nat, mutations: nat, ops: map<string, nat>)

  const EMPTY := Snapshot(0, 0, 0, map[])

  // ---------- reading one line ----------

  /** A quoted name and a colon. */
  function Key(name: string): string { "\"" + (name + "\":") }

  /** The decimal number at the start of a text, or nothing if there is none or it needs more than 64 bits. */
  function ParseU64(s: string): Option<nat> {
    var ds := LeadingDigits(s);
    if ds == "" || NumberOf(ds) >= TWO_64 then None else Some(NumberOf(ds))
  }

  function FieldValue(line: string, name: string): nat {
    var rest := AfterWord(line, Key(name));
    if rest.None? then 0 else
    var n := ParseU64(SkipSpace(rest.value));
    if n.None? then 0 else n.value
  }

  /** White space may come before the number, and a number beyond 64 bits counts as none. */
  lemma FieldValueReads(name: string, space: string, n: nat, rest: string)
    requires AllSpace(space) && !StartsDigit(rest)
    ensures FieldValue(Key(name) + (space + (Decimal(n) + rest)), name) == if n < TWO_64 then n else 0
  {
    hide Key, Decimal;
    var number := Decimal(n) + rest;
    AfterWordHere(Key(name), space + number);
    SkipSpaceOver(space, number);
    LeadingDigitsOver(Decimal(n), rest);
    DecimalValue(n);
  }

  const OPERATORS := Key("operators") + "{"

  function OperatorsBody(line: string): string {
    var rest := AfterWord(line, OPERATORS);
    if rest.None? then "" else
    var cut := Cut(rest.value, '}');
    if cut.None? then "" else cut.value.0
  }

  function Bump(ops: map<string, nat>, op: string, n: nat): map<string, nat> {
    ops[op := (if op in ops then ops[op] else 0) + n]
  }

  /** Pairs of a quoted name and a number after a colon; a number that does not parse changes nothing. */
  function AddOps(body: string, ops: map<string, nat>): map<string, nat>
    decreases |body|
  {
    var open := Cut(body, '"');
    if open.None? then ops else
    var close := Cut(open.value.1, '"');
    if close.None? then ops else
    var colon := Cut(close.value.1, ':');
    if colon.None? then ops else
    var n := ParseU64(colon.value.1);
    var after := SkipDigits(colon.value.1);
    AddOps(if after == "" then "" else after[1..],
           if n.None? then ops else Bump(ops, close.value.0, n.value))
  }

  function AddLine(acc: Snapshot, line: string): Snapshot {
    var t := Strip(IsSpace, line);
    if t == "" then acc
    else Snapshot(acc.hits + FieldValue(t, "recipe_hits"),
                  acc.misses + FieldValue(t, "recipe_misses"),
                  acc.mutations + FieldValue(t, "mutation_count"),
                  AddOps(OperatorsBody(t), acc.ops))
  }

  function AddLines(acc: Snapshot, lines: seq<string>): Snapshot
    decreases |lines|
  {
    if lines == [] then acc else AddLines(AddLine(acc, lines[0]), lines[1..])
  }

  lemma {:induction false} AddLinesAppend(acc: Snapshot, a: seq<string>, b: seq<string>)
    ensures AddLines(acc, a + b) == AddLines(AddLines(acc, a), b)
    decreases |a|
  {
    if a == [] {
      assert a + b == b;
    } else {
      assert (a + b)[1..] == a[1..] + b;
      AddLinesAppend(AddLine(acc, a[0]), a[1..], b);
    }
  }

  method FindU64(line: string, name: string) returns (value: nat)
    ensures value == FieldValue(line, name)
  {
    var rest := AfterWord(line, Key(name));
    if rest.None? {
      return 0;
    }
    var t := rest.value;
    var start := 0;
    while start < |t| && IsSpace(t[start])
      invariant start <= |t| && SkipSpace(t[start..]) == SkipSpace(t)
    {
      assert t[start..][1..] == t[start + 1..];
      start := start + 1;
    }
    var end := DigitsEnd(t, start);
    if end == start {
      return 0;
    }
    var n := NumberOf(t[start..end]);
    value := if n < TWO_64 then n else 0;
  }

  lemma OneMoreDigit(t: string, start: nat, end: nat, ds: string)
    requires start <= end < |t| && IsDigit(t[end]) && ds == t[start..end] + LeadingDigits(t[end..])
    ensures ds == t[start..end + 1] + LeadingDigits(t[end + 1..])
    ensures SkipDigits(t[end..]) == SkipDigits(t[end + 1..])
  {
    assert t[end..][1..] == t[end + 1..];
    assert t[start..end + 1] == t[start..end] + [t[end]];
    Assoc(t[start..end], [t[end]], LeadingDigits(t[end + 1..]));
  }

  lemma NoMoreDigits(t: string, start: nat, end: nat)
    requires start <= end <= |t| && !StartsDigit(t[end..])
    ensures t[start..end] + LeadingDigits(t[end..]) == t[start..end] && SkipDigits(t[end..]) == t[end..]
  {
  }

  method DigitsEnd(t: string, start: nat) returns (end: nat)
    requires start <= |t|
    ensures start <= end <= |t| && t[start..end] == LeadingDigits(t[start..]) && t[end..] == SkipDigits(t[start..])
  {
    hide LeadingDigits, SkipDigits;
    end := start;
    assert t[start..start] + LeadingDigits(t[start..]) == LeadingDigits(t[start..]);
    while end < |t| && IsDigit(t[end])
      invariant start <= end <= |t|
      invariant LeadingDigits(t[start..]) == t[start..end] + LeadingDigits(t[end..])
      invariant SkipDigits(t[start..]) == SkipDigits(t[end..])
    {
      OneMoreDigit(t, start, end, LeadingDigits(t[start..]));
      end := end + 1;
    }
    NoMoreDigits(t, start, end);
  }

  /** Counts are only added to. */
  lemma {:induction false} CountsGrow(body: string, ops: map<string, nat>)
    ensures forall op :: op in ops ==> op in AddOps(body, ops) && AddOps(body, ops)[op] >= ops[op]
    decreases |body|
  {
    hide ParseU64, SkipDigits, Cut;
    if Cut(body, '"').Some? {
      var close := Cut(Cut(body, '"').value.1, '"');
      if close.Some? && Cut(close.value.1, ':').Some? {
        var rest := Cut(close.value.1, ':').value.1;
        var n, after := ParseU64(rest), SkipDigits(rest);
        CountsGrow(if after == "" then "" else after[1..], if n.None? then ops else Bump(ops, close.value.0, n.value));
      }
    }
  }

  method ParseOperatorCounts(line: string, counts: map<string, nat>) returns (ops: map<string, nat>)
    ensures ops == AddOps(OperatorsBody(line), counts)
    ensures forall op :: op in counts ==> op in ops && ops[op] >= counts[op]
  {
    CountsGrow(OperatorsBody(line), counts);
    var body := OperatorsBody(line);
    ops := counts;
    var rest := body;
    while rest != ""
      invariant AddOps(rest, ops) == AddOps(body, counts)
      decreases |rest|
    {
      var open := Cut(rest, '"');
      if open.None? {
        return;
      }
      var close := Cut(open.value.1, '"');
      if close.None? {
        return;
      }
      var colon := Cut(close.value.1, ':');
      if colon.None? {
        return;
      }
      var t := colon.value.1;
      var end := DigitsEnd(t, 0);
      assert t[0..] == t;
      var op := close.value.0;
      if 0 < end && NumberOf(t[0..end]) < TWO_64 {
        ops := Bump(ops, op, NumberOf(t[0..end]));
      }
      rest := if end < |t| then t[end + 1..] else "";
    }
  }

  method CountLine(acc: Snapshot, line: string) returns (next: Snapshot)
    ensures next == AddLine(acc, line)
  {
    hide FieldValue, OperatorsBody, AddOps, Strip;
    var t := Strip(IsSpace, line);
    if t == "" {
      return acc;
    }
    var hits := FindU64(t, "recipe_hits");
    var misses := FindU64(t, "recipe_misses");
    var mutations := FindU64(t, "mutation_count");
    var ops := ParseOperatorCounts(t, acc.ops);
    next := Snapshot(acc.hits + hits, acc.misses + misses, acc.mutations + mutations, ops);
  }

  // ---------- the full reader ----------

  function FullParse(content: string): Snapshot { AddLines(EMPTY, Lines(content)) }

  method ParseMutatorTelemetry(content: Option<string>) returns (snapshot: Option<Snapshot>)
    ensures content.None? ==> snapshot.None?
    ensures content.Some? ==> snapshot == Some(FullParse(content.value))
  {
    if content.None? {
      return None;
    }
    var acc, rest := EMPTY, content.value;
    while rest != ""
      invariant AddLines(acc, Lines(rest)) == FullParse(content.value)
      decreases |rest|
    {
      var cut := Cut(rest, '\n');
      if cut.None? {
        assert Lines(rest)[1..] == [];
        acc := CountLine(acc, rest);
        rest := "";
      } else {
        assert Lines(rest)[1..] == Lines(cut.value.1);
        acc := CountLine(acc, cut.value.0);
        rest := cut.value.1;
      }
    }
    snapshot := Some(acc);
  }

  // ---------- the incremental reader ----------

  /** Everything up to and including the last newline. */
  function CompletePart(s: string): (r: string)
    ensures |r| <= |s| && r == s[..|r|]
    ensures EndsLine(r)
    ensures '\n' !in s[|r|..]
  {
    if EndsLine(s) then s
    else
      var r := CompletePart(s[..|s| - 1]);
      assert s[|r|..] == s[..|s| - 1][|r|..] + [s[|s| - 1]];
      r
  }

  lemma {:induction false} CompletePartAppend(a: string, b: string)
    requires EndsLine(a)
    ensures CompletePart(a + b) == a + CompletePart(b)
    decreases |b|
  {
    if b == "" {
      assert a + b == a;
    } else if !EndsLine(b) {
      assert (a + b)[..|a + b| - 1] == a + b[..|b| - 1];
      CompletePartAppend(a, b[..|b| - 1]);
    }
  }

  datatype Reader = Reader(offset: nat, acc: Snapshot)

  const FRESH := Reader(0, EMPTY)

  /** A file shorter than the offset was rotated: start over. */
  function Rewound(content: string, st: Reader): (r: Reader)
    ensures r.offset <= |content|
  {
    if |content| < st.offset then FRESH else st
  }

  /** Read the complete lines after the offset, leave an unterminated one for later. */
  function ReadStep(content: string, st: Reader): Reader {
    var from := Rewound(content, st);
    var part := CompletePart(content[from.offset..]);
    Reader(from.offset + |part|, AddLines(from.acc, Lines(part)))
  }

  lemma {:induction false} OneLineFewer(s: string, acc: Snapshot)
    requires '\n' in s
    ensures var (line, rest) := Cut(s, '\n').value;
      && |CompletePart(s)| == |line| + 1 + |CompletePart(rest)|
      && AddLines(acc, Lines(CompletePart(s))) == AddLines(AddLine(acc, line), Lines(CompletePart(rest)))
  {
    CutParts(s, '\n');
    var (line, rest) := Cut(s, '\n').value;
    Assoc(line, "\n", rest);
    CompletePartAppend(line + "\n", rest);
    Assoc(line, "\n", CompletePart(rest));
    LinesOfLine(line, CompletePart(rest));
    assert Lines(CompletePart(s))[1..] == Lines(CompletePart(rest));
  }

  lemma NoCompleteLine(s: string, acc: Snapshot)
    requires '\n' !in s
    ensures CompletePart(s) == "" && AddLines(acc, Lines(CompletePart(s))) == acc
  {
  }

  lemma NothingToRead(acc: Snapshot)
    ensures CompletePart("") == "" && AddLines(acc, Lines("")) == acc
  {
  }

  /**
    One incremental read.  After an unterminated line the stream is at its end and reports position
    -1, so the source's test for a complete last line never holds: such a line is never committed.
   */
  method ParseIncremental(content: Option<string>, startOffset: nat, accumulator: Snapshot)
    returns (offset: nat, acc: Snapshot)
    ensures content.None? ==> offset == startOffset && acc == accumulator
    ensures content.Some? ==> Reader(offset, acc) == ReadStep(content.value, Reader(startOffset, accumulator))
  {
    hide AddLine, CompletePart, AddLines, Cut, Lines;
    offset, acc := startOffset, accumulator;
    if content.None? {
      return;
    }
    var text := content.value;
    if |text| < offset {
      offset, acc := 0, EMPTY;
    }
    ghost var from := Reader(offset, acc);
    if |text| == offset {
      assert text[offset..] == "";
      NothingToRead(acc);
      return;
    }
    ghost var tail := text[offset..];
    while true
      invariant offset <= |text|
      invariant from.offset + |CompletePart(tail)| == offset + |CompletePart(text[offset..])|
      invariant AddLines(from.acc, Lines(CompletePart(tail))) == AddLines(acc, Lines(CompletePart(text[offset..])))
      decreases |text| - offset
    {
      var rest := text[offset..];
      if rest == "" {
        NothingToRead(acc);
        break;
      }
      var cut := Cut(rest, '\n');
      if cut.None? {
        NoCompleteLine(rest, acc);
        break;
      }
      CutParts(rest, '\n');
      OneLineFewer(rest, acc);
      offset := offset + |cut.value.0| + 1;
      assert text[offset..] == cut.value.1;
      acc := CountLine(acc, cut.value.0);
    }
  }

  // ---------- incremental reads add up to the full parse ----------

  /** The reader has counted exactly the complete lines of this content. */
  ghost predicate CaughtUp(content: string, st: Reader) {
    st.offset == |CompletePart(content)| && st.acc == FullParse(CompletePart(content))
  }

  lemma StepCatchesUp(before: string, st: Reader, content: string)
    requires CaughtUp(before, st)
    requires CompletePart(before) <= content || |content| < st.offset
    ensures CaughtUp(content, ReadStep(content, st))
  {
    var done := CompletePart(before);
    if |content| < st.offset {
      assert content[0..] == content;
    } else {
      var rest := content[st.offset..];
      assert content == done + rest;
      CompletePartAppend(done, rest);
      LinesAppend(done, CompletePart(rest));
      AddLinesAppend(EMPTY, Lines(done), Lines(CompletePart(rest)));
    }
  }

  function Reads(contents: seq<string>): Reader {
    if contents == [] then FRESH
    else ReadStep(contents[|contents| - 1], Reads(contents[..|contents| - 1]))
  }

  /** Between reads the file keeps its complete lines, or is replaced by something shorter than what was read. */
  predicate GrowsOrRotates(contents: seq<string>) {
    forall i :: 0 < i < |contents| ==> Continues(contents[i - 1], contents[i])
  }

  predicate Continues(before: string, after: string) {
    CompletePart(before) <= after || |after| < |CompletePart(before)|
  }

  /** After any schedule of reads the reader has caught up with the last content. */
  lemma {:induction false} ReadsCatchUp(contents: seq<string>)
    requires contents != [] && GrowsOrRotates(contents)
    ensures CaughtUp(contents[|contents| - 1], Reads(contents))
  {
    var n := |contents| - 1;
    var before := contents[..n];
    if n == 0 {
      assert CaughtUp("", FRESH);
      StepCatchesUp("", FRESH, contents[0]);
      assert Reads(before) == FRESH;
    } else {
      forall i | 0 < i < n
        ensures Continues(before[i - 1], before[i])
      {
        assert Continues(contents[i - 1], contents[i]);
      }
      ReadsCatchUp(before);
      assert before[|before| - 1] == contents[n - 1];
      StepCatchesUp(contents[n - 1], Reads(before), contents[n]);
    }
  }

  /**
    If the file only grew and now ends in a newline, any schedule of incremental reads has the
    totals of one full parse; an unterminated tail is left out, and a full parse would count it.
   */
  lemma IncrementalIsFull(contents: seq<string>)
    requires contents != [] && GrowsOrRotates(contents)
    ensures var last := contents[|contents| - 1];
      && (EndsLine(last) ==> Reads(contents) == Reader(|last|, FullParse(last)))
      && (!EndsLine(last) ==>
            FullParse(last) == AddLine(Reads(contents).acc, last[|CompletePart(last)|..]))
  {
    var last := contents[|contents| - 1];
    ReadsCatchUp(contents);
    if !EndsLine(last) {
      var done := CompletePart(last);
      var tail := last[|done|..];
      assert last == done + tail && tail != "";
      LinesAppend(done, tail);
      AddLinesAppend(EMPTY, Lines(done), Lines(tail));
      assert Lines(tail) == [tail] && [tail][1..] == [];
    }
  }

  lemma GrowingOnly(contents: seq<string>)
    requires forall i :: 0 < i < |contents| ==> contents[i - 1] <= contents[i]
    ensures GrowsOrRotates(contents)
  {
  }

  /** In particular, a file that only grew and now ends in a newline was counted once, whatever the schedule. */
  lemma GrowingFileIsFull(contents: seq<string>)
    requires contents != [] && forall i :: 0 < i < |contents| ==> contents[i - 1] <= contents[i]
    ensures var last := contents[|contents| - 1];
      EndsLine(last) ==> Reads(contents) == Reader(|last|, FullParse(last))
  {
    GrowingOnly(contents);
    IncrementalIsFull(contents);
  }
}
