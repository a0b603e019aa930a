/**
  The compact recipe file: the controller's writer, the mutator's reader, and exactly when the
  reader gets back what was written.
 */
module RecipeText {
  import opened Wrappers
  import opened JsonRecognizer
  import opened TextFormat
  import opened Ranges
  import opened Recipes
  import opened StructuralRepair

  // ---------- strategies ----------

  datatype StrategyOp =
    | OpBitFlip
    | OpOverwriteRange
    | OpInsertToken
    | OpArith
    | OpSplice
    | OpDeleteBlock
    | OpCloneBlock
    | OpDictionaryOverwrite

  /** An operator and its weight as printed; the printed form of a double is not modelled. */
  datatype PrintedWeight = PrintedWeight(op: StrategyOp, text: string)

  datatype Strategy = Strategy(
    id: string, mode: string, seedId: string, seedHash: string, family: string,
    priority: nat, ttl: nat, weights: seq<PrintedWeight>,
    focus: seq<Range>, protect: seq<Range>, tokens: seq<string>)

  function OpName(op: StrategyOp): string {
    match op
    case OpBitFlip => "bit_flip"
    case OpOverwriteRange => "overwrite_range"
    case OpInsertToken => "insert_token"
    case OpArith => "arith"
    case OpSplice => "splice"
    case OpDeleteBlock => "delete_block"
    case OpCloneBlock => "clone_block"
    case OpDictionaryOverwrite => "dictionary_overwrite"
  }

  const MODES: set<string> := {"global", "seed_id", "seed_hash", "family"}

  predicate TokenAllowed(token: string) {
    |token| <= 4096 && '\n' !in token && '\r' !in token && (0 as char) !in token
  }

  /** The longest token has 4096 characters, and three characters are allowed in none. */
  lemma TokensAllowed(n: nat, before: string, after: string)
    ensures TokenAllowed(seq(n, i => 'a')) <==> n <= 4096
    ensures forall c :: c as int in [0, 10, 13] ==> !TokenAllowed(before + [c] + after)
  {
    forall c | c as int in [0, 10, 13]
      ensures !TokenAllowed(before + [c] + after)
    {
      assert (before + [c] + after)[|before|] == c;
    }
  }

  predicate IsValid(s: Strategy) {
    && s.id != ""
    && s.mode in MODES
    && (s.mode == "seed_id" ==> s.seedId != "")
    && (s.mode == "seed_hash" ==> s.seedHash != "")
    && s.weights != []
    && NonEmpty(s.focus) && NonEmpty(s.protect)
    && forall i :: 0 <= i < |s.tokens| ==> TokenAllowed(s.tokens[i])
  }

  method ValidateStrategy(s: Strategy) returns (errors: seq<string>)
    ensures errors == [] <==> IsValid(s)
  {
    hide TokenAllowed;
    errors := CheckSelector(s);
    if s.weights == [] {
      errors := errors + ["operator_weights must not be empty"];
    }
    errors := CheckRanges(errors, s.focus, "focus range end must be greater than begin");
    errors := CheckRanges(errors, s.protect, "protect range end must be greater than begin");
    errors := CheckTokens(errors, s.tokens);
  }

  method CheckSelector(s: Strategy) returns (errors: seq<string>)
    ensures errors == [] <==>
      && s.id != ""
      && s.mode in MODES
      && (s.mode == "seed_id" ==> s.seedId != "")
      && (s.mode == "seed_hash" ==> s.seedHash != "")
  {
    errors := [];
    if s.id == "" {
      errors := errors + ["strategy.id is required"];
    }
    if s.mode != "global" && s.mode != "seed_id" && s.mode != "seed_hash" && s.mode != "family" {
      errors := errors + ["unsupported seed selector mode: " + s.mode];
    }
    if s.mode == "seed_id" && s.seedId == "" {
      errors := errors + ["seed_id selector requires seed_selector.seed_id"];
    }
    if s.mode == "seed_hash" && s.seedHash == "" {
      errors := errors + ["seed_hash selector requires seed_selector.seed_hash"];
    }
  }

  /** Only the first bad token is reported. */
  method CheckTokens(before: seq<string>, tokens: seq<string>) returns (errors: seq<string>)
    ensures errors == [] <==> before == [] && forall i :: 0 <= i < |tokens| ==> TokenAllowed(tokens[i])
  {
    errors := before;
    for i := 0 to |tokens|
      invariant errors == before && forall k :: 0 <= k < i ==> TokenAllowed(tokens[k])
    {
      var token := tokens[i];
      if |token| > 4096 {
        errors := errors + ["dictionary token is too large"];
        assert !TokenAllowed(tokens[i]);
        return;
      }
      if '\n' in token || '\r' in token || (0 as char) in token {
        errors := errors + ["dictionary token contains unsupported control characters"];
        assert !TokenAllowed(tokens[i]);
        return;
      }
    }
  }

  method CheckRanges(before: seq<string>, ranges: seq<Range>, message: string) returns (errors: seq<string>)
    ensures errors == [] <==> before == [] && NonEmpty(ranges)
  {
    errors := before;
    for i := 0 to |ranges|
      invariant errors == [] <==> before == [] && NonEmpty(ranges[..i])
    {
      assert NonEmpty(ranges[..i + 1]) <==> NonEmpty(ranges[..i]) && ranges[i].begin < ranges[i].end by {
        assert ranges[..i + 1] == ranges[..i] + [ranges[i]];
      }
      if ranges[i].end <= ranges[i].begin {
        errors := errors + [message];
      }
    }
    assert ranges[..|ranges|] == ranges;
  }

  // ---------- the writer ----------

  function SelectorKey(s: Strategy): string {
    if s.mode == "seed_id" then s.seedId
    else if s.mode == "seed_hash" then s.seedHash
    else if s.mode == "family" then s.family
    else "global"
  }

  function Directive(key: string, value: string): string { key + ("=" + value) }

  function RangeValue(r: Range): string { Decimal(r.begin) + ("," + Decimal(r.end)) }

  function WeightValue(w: PrintedWeight): string { OpName(w.op) + ("," + w.text) }

  const HEADER := "# FuzzPilot v1 compact mutator recipe"

  function HeadLines(s: Strategy): seq<string> {
    [HEADER, Directive("id", s.id), Directive("selector", s.mode + ("," + SelectorKey(s))),
     Directive("priority", Decimal(s.priority)), Directive("ttl_sec", Decimal(s.ttl))]
  }

  function WeightLines(ws: seq<PrintedWeight>): (r: seq<string>)
    ensures |r| == |ws|
  {
    seq(|ws|, i requires 0 <= i < |ws| => Directive("operator", WeightValue(ws[i])))
  }

  function RangeLines(key: string, rs: seq<Range>): (r: seq<string>)
    ensures |r| == |rs|
  {
    seq(|rs|, i requires 0 <= i < |rs| => Directive(key, RangeValue(rs[i])))
  }

  function TokenLines(tokens: seq<string>): (r: seq<string>)
    ensures |r| == |tokens|
  {
    seq(|tokens|, i requires 0 <= i < |tokens| => Directive("token", tokens[i]))
  }

  function BodyLines(s: Strategy): seq<string> {
    HeadLines(s) + (WeightLines(s.weights)
      + (RangeLines("focus", s.focus) + (RangeLines("protect", s.protect) + TokenLines(s.tokens))))
  }

  function Unlines(lines: seq<string>): string {
    if lines == [] then "" else Unlines(lines[..|lines| - 1]) + (lines[|lines| - 1] + "\n")
  }

  lemma {:induction false} UnlinesAppend(a: seq<string>, b: seq<string>)
    ensures Unlines(a + b) == Unlines(a) + Unlines(b)
  {
    if b == [] {
      assert a + b == a;
    } else {
      var n := |b| - 1;
      assert (a + b)[..|a| + n] == a + b[..n];
      UnlinesAppend(a, b[..n]);
      Assoc(Unlines(a), Unlines(b[..n]), b[n] + "\n");
    }
  }

  /** Append one group of lines to the output, line by line. */
  method PutLines(before: string, lines: seq<string>) returns (out: string)
    ensures out == before + Unlines(lines)
  {
    out := before;
    for i := 0 to |lines|
      invariant out == before + Unlines(lines[..i])
    {
      assert lines[..i + 1][..i] == lines[..i];
      Assoc(before, Unlines(lines[..i]), lines[i] + "\n");
      out := out + (lines[i] + "\n");
    }
    assert lines[..|lines|] == lines;
  }

  method WriteCompactRecipeBody(s: Strategy) returns (out: string)
    ensures out == Unlines(BodyLines(s))
    ensures IsValid(s) && IsPrintable(s) ==>
      forall stod: Stod :: Recovers(stod, ReadRecipe(stod, out), s) <==> CleanStrategy(s)
  {
    hide IsValid, IsPrintable, Recovers, ReadRecipe, CleanStrategy;
    forall stod: Stod | IsValid(s) && IsPrintable(s)
      ensures Recovers(stod, ReadRecipe(stod, Unlines(BodyLines(s))), s) <==> CleanStrategy(s)
    {
      RecoversExactlyCleanStrategies(stod, s);
    }
    var head, weights, focus, protect, tokens :=
      HeadLines(s), WeightLines(s.weights), RangeLines("focus", s.focus), RangeLines("protect", s.protect),
        TokenLines(s.tokens);
    UnlinesAppend(protect, tokens);
    UnlinesAppend(focus, protect + tokens);
    UnlinesAppend(weights, focus + (protect + tokens));
    UnlinesAppend(head, weights + (focus + (protect + tokens)));
    out := PutLines("", head);
    assert "" + Unlines(head) == Unlines(head);
    out := PutLines(out, weights);
    out := PutLines(out, focus);
    out := PutLines(out, protect);
    out := PutLines(out, tokens);
    FiveParts(Unlines(head), Unlines(weights), Unlines(focus), Unlines(protect), Unlines(tokens));
  }

  lemma FiveParts(a: string, b: string, c: string, d: string, e: string)
    ensures (((a + b) + c) + d) + e == a + (b + (c + (d + e)))
  {
    Assoc((a + b) + c, d, e);
    Assoc(a + b, c, d + e);
    Assoc(a, b, c + (d + e));
  }

  // ---------- the reader ----------

  predicate IsBlank(c: char) { c in " \t\r\n" }

  function Trim(s: string): string { Strip(IsBlank, s) }

  /** std::stoul: leading space, an optional sign, digits; nothing without digits or beyond 64 bits. */
  function Stoul(s: string): Option<nat> {
    var t := SkipSpace(s);
    var ds := LeadingDigits(SkipSign(t));
    if ds == "" || NumberOf(ds) >= TWO_64 then None
    else if Starts(t, '-') then Some((TWO_64 - NumberOf(ds)) % TWO_64)
    else Some(NumberOf(ds))
  }

  /** The number cast to 32 bits, or a default. */
  function U32Of(s: string): nat {
    var n := Stoul(s);
    if n.None? then 0 else U32(n.value)
  }

  function ParseRange(value: string): Option<Range> {
    var cut := Cut(value, ',');
    if cut.None? then None else
    var begin, end := Stoul(cut.value.0), Stoul(cut.value.1);
    if begin.None? || end.None? || U32(end.value) <= U32(begin.value) then None
    else Some(Range(U32(begin.value), U32(end.value)))
  }

  /** Pieces between commas; a trailing empty piece is dropped, as by `getline`. */
  function Pieces(s: string): seq<string>
    decreases |s|
  {
    if s == "" then [] else
    var cut := Cut(s, ',');
    if cut.None? then [Trim(s)] else [Trim(cut.value.0)] + Pieces(cut.value.1)
  }

  function FieldTypeOf(n: nat): FieldType {
    var k := n % 256;
    if k == 0 then Data else if k == 1 then Length else if k == 2 then Magic else if k == 3 then Checksum else OtherType
  }

  function ParseField(value: string): Option<Field> {
    var p := Pieces(value);
    if |p| < 3 then None else
    var offset, size, kind := Stoul(p[0]), Stoul(p[1]), Stoul(p[2]);
    if offset.None? || size.None? || kind.None? then None else
    var big := if |p| >= 4 then p[3] == "1" || p[3] == "true" else true;
    if |p| < 6 then Some(Field(U32(offset.value), U32(size.value), FieldTypeOf(kind.value), big, 0, 0)) else
    var begin, end := Stoul(p[4]), Stoul(p[5]);
    if begin.None? || end.None? then None
    else Some(Field(U32(offset.value), U32(size.value), FieldTypeOf(kind.value), big, U32(begin.value), U32(end.value)))
  }

  function OpFromName(name: string): MutationOp {
    if name == "overwrite_range" then OverwriteRange
    else if name == "insert_token" then InsertToken
    else if name == "arith" then Arith
    else if name == "splice" then Splice
    else if name == "delete_block" then DeleteBlock
    else if name == "dictionary_overwrite" then DictionaryOverwrite
    else BitFlip
  }

  const DEFAULT := Recipe("fallback", "global", "global", 0, 0, [], [], [], [], [])

  /** The reader of doubles is a parameter. */
  type Stod = string -> Option<real>

  function ParseWeight(stod: Stod, value: string): Weight {
    var cut := Cut(value, ',');
    if cut.None? then Weight(OpFromName(Trim(value)), 1.0) else
    var w := stod(cut.value.1);
    Weight(OpFromName(Trim(cut.value.0)), if w.None? then 1.0 else w.value)
  }

  function Apply(stod: Stod, r: Recipe, key: string, value: string): Recipe {
    if key == "id" then r.(id := value)
    else if key == "selector" then
      var cut := Cut(value, ',');
      if cut.None? then r.(mode := Trim(value), key := "") else r.(mode := Trim(cut.value.0), key := Trim(cut.value.1))
    else if key == "priority" then r.(priority := U32Of(value))
    else if key == "ttl_sec" then r.(ttl := U32Of(value))
    else if key == "operator" then r.(weights := r.weights + [ParseWeight(stod, value)])
    else if key == "focus" then
      if ParseRange(value).None? then r else r.(focus := r.focus + [ParseRange(value).value])
    else if key == "protect" then
      if ParseRange(value).None? then r else r.(protect := r.protect + [ParseRange(value).value])
    else if key == "field" then
      if ParseField(value).None? then r else r.(fields := r.fields + [ParseField(value).value])
    else if key == "token" then r.(tokens := r.tokens + [value])
    else r
  }

  function ApplyLine(stod: Stod, r: Recipe, line: string): Recipe {
    var t := Trim(line);
    if t == "" || t[0] == '#' then r else
    var cut := Cut(t, '=');
    if cut.None? then r else Apply(stod, r, Trim(cut.value.0), Trim(cut.value.1))
  }

  function ApplyLines(stod: Stod, r: Recipe, lines: seq<string>): Recipe
    decreases |lines|
  {
    if lines == [] then r else ApplyLines(stod, ApplyLine(stod, r, lines[0]), lines[1..])
  }

  function ReadRecipe(stod: Stod, text: string): Recipe {
    var r := ApplyLines(stod, DEFAULT, Lines(text));
    r.(weights := Normalized(r.weights))
  }

  method ParseRecipeFile(stod: Stod, text: Option<string>) returns (loaded: Recipe)
    ensures text.None? ==> loaded == DEFAULT
    ensures text.Some? ==> loaded == ReadRecipe(stod, text.value)
  {
    loaded := DEFAULT;
    if text.None? {
      return;
    }
    var rest := text.value;
    while rest != ""
      invariant ApplyLines(stod, loaded, Lines(rest)) == ApplyLines(stod, DEFAULT, Lines(text.value))
      decreases |rest|
    {
      var cut := Cut(rest, '\n');
      var line := if cut.None? then rest else cut.value.0;
      var after := if cut.None? then "" else cut.value.1;
      assert Lines(rest)[0] == line && Lines(rest)[1..] == Lines(after);
      loaded := ApplyLine(stod, loaded, line);
      rest := after;
    }
    var weights := Normalize(loaded.weights);
    loaded := loaded.(weights := weights);
  }

  // ---------- what the reader can produce ----------

  /** Text that survives a line format: no line end inside, no blank at either end. */
  predicate Clean(s: string) { '\n' !in s && Stripped(IsBlank, s) }

  predicate CleanTexts(r: Recipe) {
    Clean(r.id) && Clean(r.mode) && Clean(r.key) && forall i :: 0 <= i < |r.tokens| ==> Clean(r.tokens[i])
  }

  lemma TrimIsClean(s: string)
    requires '\n' !in s
    ensures Clean(Trim(s))
    ensures forall c :: c in Trim(s) ==> c in s
  {
    StripIsStripped(IsBlank, s);
  }

  lemma CutHasNo(s: string, c: char, d: char)
    requires d !in s && Cut(s, c).Some?
    ensures d !in Cut(s, c).value.0 && d !in Cut(s, c).value.1
  {
    CutParts(s, c);
  }

  lemma ApplyLineKeepsClean(stod: Stod, r: Recipe, line: string)
    requires CleanTexts(r) && '\n' !in line
    ensures CleanTexts(ApplyLine(stod, r, line))
  {
    hide Trim, ParseRange, ParseField, ParseWeight, U32Of, Cut;
    var t := Trim(line);
    TrimIsClean(line);
    if Cut(t, '=').Some? {
      CutHasNo(t, '=', '\n');
      var value := Cut(t, '=').value.1;
      TrimIsClean(value);
      TrimIsClean(Trim(value));
      if Cut(Trim(value), ',').Some? {
        CutHasNo(Trim(value), ',', '\n');
        TrimIsClean(Cut(Trim(value), ',').value.0);
        TrimIsClean(Cut(Trim(value), ',').value.1);
      }
    }
  }

  lemma {:induction false} LinesHaveNoNewline(s: string)
    ensures forall i :: 0 <= i < |Lines(s)| ==> '\n' !in Lines(s)[i]
    decreases |s|
  {
    if '\n' in s {
      CutParts(s, '\n');
      LinesHaveNoNewline(Cut(s, '\n').value.1);
    }
  }

  lemma {:induction false} ApplyLinesKeepsClean(stod: Stod, r: Recipe, lines: seq<string>)
    requires CleanTexts(r) && forall i :: 0 <= i < |lines| ==> '\n' !in lines[i]
    ensures CleanTexts(ApplyLines(stod, r, lines))
    decreases |lines|
  {
    if lines != [] {
      ApplyLineKeepsClean(stod, r, lines[0]);
      ApplyLinesKeepsClean(stod, ApplyLine(stod, r, lines[0]), lines[1..]);
    }
  }

  /** Whatever the file holds, the texts read from it are clean. */
  lemma ReadTextsAreClean(stod: Stod, text: string)
    ensures CleanTexts(ReadRecipe(stod, text))
  {
    LinesHaveNoNewline(text);
    ApplyLinesKeepsClean(stod, DEFAULT, Lines(text));
  }

  predicate GoodRanges(r: Recipe) { NonEmpty(r.focus) && NonEmpty(r.protect) }

  lemma ApplyLineKeepsRanges(stod: Stod, r: Recipe, line: string)
    requires GoodRanges(r)
    ensures GoodRanges(ApplyLine(stod, r, line))
  {
    hide Trim, Cut, Stoul, ParseField, ParseWeight, U32Of;
  }

  lemma {:induction false} ApplyLinesKeepsRanges(stod: Stod, r: Recipe, lines: seq<string>)
    requires GoodRanges(r)
    ensures GoodRanges(ApplyLines(stod, r, lines))
    decreases |lines|
  {
    if lines != [] {
      ApplyLineKeepsRanges(stod, r, lines[0]);
      ApplyLinesKeepsRanges(stod, ApplyLine(stod, r, lines[0]), lines[1..]);
    }
  }

  /** Whatever the file holds, the ranges read from it are not empty and the weights are a distribution. */
  lemma ReadRecipeIsSound(stod: Stod, text: string)
    ensures GoodRanges(ReadRecipe(stod, text)) && IsDistribution(ReadRecipe(stod, text).weights)
  {
    hide ApplyLine;
    ApplyLinesKeepsRanges(stod, DEFAULT, Lines(text));
    NormalizedIsDistribution(ApplyLines(stod, DEFAULT, Lines(text)).weights);
  }

  // ---------- reading back what was written ----------

  /** Values that came out of 32-bit variables, and weights printed without blanks or line ends. */
  predicate IsPrintable(s: Strategy) {
    && s.priority < TWO_32 && s.ttl < TWO_32
    && (forall i :: 0 <= i < |s.focus| ==> s.focus[i].end < TWO_32)
    && (forall i :: 0 <= i < |s.protect| ==> s.protect[i].end < TWO_32)
    && (forall i :: 0 <= i < |s.weights| ==> Clean(s.weights[i].text) && s.weights[i].text != "")
  }

  /** The id, the text that the selector goes by, and the tokens. */
  predicate CleanStrategy(s: Strategy) {
    && Clean(s.id)
    && (s.mode == "seed_id" ==> Clean(s.seedId))
    && (s.mode == "seed_hash" ==> Clean(s.seedHash))
    && (s.mode == "family" ==> Clean(s.family))
    && forall i :: 0 <= i < |s.tokens| ==> Clean(s.tokens[i])
  }

  /** What the selector goes by. */
  predicate KeyMeant(s: Strategy, key: string) {
    && (s.mode == "global" ==> key == "global")
    && (s.mode == "seed_id" ==> key == s.seedId)
    && (s.mode == "seed_hash" ==> key == s.seedHash)
    && (s.mode == "family" ==> key == s.family)
  }

  lemma SelectorKeyIsMeant(s: Strategy)
    requires s.mode in MODES
    ensures KeyMeant(s, SelectorKey(s))
    ensures forall key :: KeyMeant(s, key) ==> key == SelectorKey(s)
    ensures CleanStrategy(s) ==> Clean(SelectorKey(s))
  {
    hide Clean;
    ModesDiffer();
    assert Clean("global") by { ModesAreClean("global"); }
  }

  lemma ModesDiffer()
    ensures "global" != "seed_id" && "global" != "seed_hash" && "global" != "family"
    ensures "seed_id" != "seed_hash" && "seed_id" != "family" && "seed_hash" != "family"
  {
  }

  /** The recipe says what the strategy says, field by field. */
  ghost predicate Recovers(stod: Stod, r: Recipe, s: Strategy) {
    && r.id == s.id && r.mode == s.mode && KeyMeant(s, r.key)
    && r.priority == s.priority && r.ttl == s.ttl
    && KeepsProportions(ReadWeights(stod, s.weights), r.weights) && IsDistribution(r.weights)
    && r.focus == s.focus && r.protect == s.protect && r.tokens == s.tokens && r.fields == []
  }

  /** The mutator has no clone operator: it reads that name as a bit flip. */
  function MutatorOp(op: StrategyOp): MutationOp {
    match op
    case OpBitFlip => BitFlip
    case OpOverwriteRange => OverwriteRange
    case OpInsertToken => InsertToken
    case OpArith => Arith
    case OpSplice => Splice
    case OpDeleteBlock => DeleteBlock
    case OpCloneBlock => BitFlip
    case OpDictionaryOverwrite => DictionaryOverwrite
  }

  function ReadWeight(stod: Stod, w: PrintedWeight): Weight {
    Weight(MutatorOp(w.op), if stod(w.text).None? then 1.0 else stod(w.text).value)
  }

  function ReadWeights(stod: Stod, ws: seq<PrintedWeight>): (r: seq<Weight>)
    ensures |r| == |ws|
  {
    seq(|ws|, i requires 0 <= i < |ws| => ReadWeight(stod, ws[i]))
  }

  /** The recipe that says what the strategy says. */
  function AsRecipe(stod: Stod, s: Strategy): Recipe {
    Recipe(s.id, s.mode, SelectorKey(s), s.priority, s.ttl, Normalized(ReadWeights(stod, s.weights)),
           s.focus, s.protect, [], s.tokens)
  }

  predicate PlainKey(key: string) { key != "" && key[0] != '#' && '=' !in key && Clean(key) }

  /** A directive line gives back its key and value, whatever the value looks like. */
  lemma DirectiveReads(stod: Stod, r: Recipe, key: string, value: string)
    requires PlainKey(key) && Clean(value)
    ensures ApplyLine(stod, r, Directive(key, value)) == Apply(stod, r, key, value)
    ensures '\n' !in Directive(key, value)
  {
    hide Apply, ApplyLine, Trim, Cut;
    var line := Directive(key, value);
    TrimmedDirective(key, value);
    CutAfter(key, '=', value);
    TrimmedIs(key);
    TrimmedIs(value);
    ApplyDirective(stod, r, line, key, value);
  }

  predicate AllBlank(s: string) { forall i :: 0 <= i < |s| ==> IsBlank(s[i]) }

  /** Blanks around key and value make no difference. */
  lemma BlanksAreTrimmed(stod: Stod, r: Recipe, key: string, value: string, w: seq<string>)
    requires PlainKey(key) && Clean(value) && |w| == 4 && forall i :: 0 <= i < 4 ==> AllBlank(w[i])
    ensures ApplyLine(stod, r, w[0] + (key + (w[1] + ("=" + (w[2] + (value + w[3])))))) == Apply(stod, r, key, value)
  {
    hide Apply, ApplyLine, Strip, Trim, IsBlank;
    var tail := if value == "" then "" else w[2] + value;
    var end := if value == "" then w[2] + w[3] else w[3];
    var core, line := key + (w[1] + ("=" + tail)), w[0] + (key + (w[1] + ("=" + (w[2] + (value + w[3])))));
    LineAroundCore(key, value, w);
    CoreIsStripped(key, w[1], w[2], value);
    TrimTakesBlanks(w[0], core, end);
    TrimTakesBlanks(w[2], value, "");
    assert value + "" == value;
    TrimTakesBlanks("", "", "");
    KeyAndValueRead(stod, r, line, key, w[1], tail);
  }

  lemma LineAroundCore(key: string, value: string, w: seq<string>)
    requires |w| == 4
    ensures var tail, end := if value == "" then "" else w[2] + value, if value == "" then w[2] + w[3] else w[3];
      w[0] + (key + (w[1] + ("=" + (w[2] + (value + w[3]))))) == w[0] + ((key + (w[1] + ("=" + tail))) + end)
  {
    if value == "" {
      assert w[2] + ("" + w[3]) == "" + (w[2] + w[3]);
    }
  }

  lemma CoreIsStripped(key: string, w1: string, w2: string, value: string)
    requires PlainKey(key) && Clean(value)
    ensures var tail := if value == "" then "" else w2 + value; Stripped(IsBlank, key + (w1 + ("=" + tail)))
  {
    var tail := if value == "" then "" else w2 + value;
    var core := key + (w1 + ("=" + tail));
    assert core[0] == key[0] && core[|core| - 1] == if value == "" then '=' else value[|value| - 1];
  }

  lemma TrimTakesBlanks(a: string, s: string, b: string)
    requires AllBlank(a) && AllBlank(b) && Stripped(IsBlank, s)
    ensures Trim(a + (s + b)) == s
  {
    StripTakesSpace(IsBlank, a, s, b);
  }

  lemma KeyAndValueRead(stod: Stod, r: Recipe, line: string, key: string, w: string, tail: string)
    requires PlainKey(key) && AllBlank(w) && Trim(line) == key + (w + ("=" + tail))
    ensures ApplyLine(stod, r, line) == Apply(stod, r, key, Trim(tail))
  {
    hide Apply, Trim, Cut;
    var t := Trim(line);
    assert t[0] == key[0];
    assert t == (key + w) + (['='] + tail);
    CutAfter(key + w, '=', tail);
    TrimTakesBlanks("", key, w);
    assert "" + (key + w) == key + w;
  }

  lemma TrimmedIs(s: string)
    requires Stripped(IsBlank, s)
    ensures Trim(s) == s
  {
    StripIsStripped(IsBlank, s);
  }

  lemma TrimmedDirective(key: string, value: string)
    requires PlainKey(key) && Clean(value)
    ensures var line := Directive(key, value);
      Trim(line) == line && line[0] == key[0] && '\n' !in line
  {
    hide Trim;
    var line := Directive(key, value);
    assert line[|line| - 1] == if value == "" then '=' else value[|value| - 1];
    TrimmedIs(line);
  }

  lemma ApplyDirective(stod: Stod, r: Recipe, line: string, key: string, value: string)
    requires line != "" && line[0] != '#' && Trim(line) == line && Cut(line, '=') == Some((key, value))
    requires Trim(key) == key && Trim(value) == value
    ensures ApplyLine(stod, r, line) == Apply(stod, r, key, value)
  {
    hide Apply, Trim, Cut;
  }

  lemma HeadKeysArePlain()
    ensures PlainKey("id") && PlainKey("priority") && PlainKey("ttl_sec")
  {
  }

  lemma RangeKeysArePlain()
    ensures PlainKey("focus") && PlainKey("protect") && PlainKey("token")
  {
  }

  lemma OtherKeysArePlain()
    ensures PlainKey("operator") && PlainKey("selector")
  {
  }

  lemma KeysArePlain()
    ensures PlainKey("id") && PlainKey("selector") && PlainKey("priority") && PlainKey("ttl_sec")
    ensures PlainKey("operator") && PlainKey("focus") && PlainKey("protect") && PlainKey("token")
  {
    hide PlainKey;
    HeadKeysArePlain();
    RangeKeysArePlain();
    OtherKeysArePlain();
  }

  // One lemma per directive, so that the comparisons of names are made once.

  lemma ApplyOperator(stod: Stod, r: Recipe, value: string)
    ensures Apply(stod, r, "operator", value) == r.(weights := r.weights + [ParseWeight(stod, value)])
  {
    hide ParseWeight;
  }

  lemma ApplyFocus(stod: Stod, r: Recipe, value: string)
    requires ParseRange(value).Some?
    ensures Apply(stod, r, "focus", value) == r.(focus := r.focus + [ParseRange(value).value])
  {
    hide ParseRange;
  }

  lemma ApplyProtect(stod: Stod, r: Recipe, value: string)
    requires ParseRange(value).Some?
    ensures Apply(stod, r, "protect", value) == r.(protect := r.protect + [ParseRange(value).value])
  {
    hide ParseRange;
  }

  lemma ApplyToken(stod: Stod, r: Recipe, value: string)
    ensures Apply(stod, r, "token", value) == r.(tokens := r.tokens + [value])
  {
  }

  lemma ApplySelector(stod: Stod, r: Recipe, value: string)
    requires Cut(value, ',').Some?
    ensures var (mode, key) := Cut(value, ',').value;
      Apply(stod, r, "selector", value) == r.(mode := Trim(mode), key := Trim(key))
  {
    hide Cut, Trim;
  }

  lemma DecimalIsClean(n: nat)
    ensures Clean(Decimal(n)) && ',' !in Decimal(n)
  {
    assert forall c :: c in Decimal(n) ==> '0' <= c <= '9';
  }

  lemma DecimalReads(n: nat)
    requires n < TWO_64
    ensures Stoul(Decimal(n)) == Some(n)
  {
    var s := Decimal(n);
    assert s + "" == s;
    LeadingDigitsOver(s, "");
    DecimalValue(n);
    assert SkipSpace(s) == s && SkipSign(s) == s;
  }

  lemma RangeReads(r: Range)
    requires r.begin < r.end < TWO_32
    ensures ParseRange(RangeValue(r)) == Some(r) && Clean(RangeValue(r))
  {
    hide Stoul, Decimal;
    DecimalIsClean(r.begin);
    DecimalIsClean(r.end);
    DecimalReads(r.begin);
    DecimalReads(r.end);
    CutAfter(Decimal(r.begin), ',', Decimal(r.end));
  }

  lemma OpNameReads(op: StrategyOp)
    ensures OpFromName(OpName(op)) == MutatorOp(op)
    ensures Clean(OpName(op)) && ',' !in OpName(op) && OpName(op) != ""
  {
    hide Clean;
    if op in {OpBitFlip, OpInsertToken, OpArith, OpSplice} {
      ShortOpNames(op);
    } else {
      LongOpNames(op);
    }
  }

  lemma ShortOpNames(op: StrategyOp)
    requires op in {OpBitFlip, OpInsertToken, OpArith, OpSplice}
    ensures Clean(OpName(op)) && ',' !in OpName(op)
  {
    hide OpFromName;
  }

  lemma LongOpNames(op: StrategyOp)
    requires op in {OpOverwriteRange, OpDeleteBlock, OpCloneBlock, OpDictionaryOverwrite}
    ensures Clean(OpName(op)) && ',' !in OpName(op)
  {
    hide OpFromName;
  }

  lemma WeightReads(stod: Stod, w: PrintedWeight)
    requires Clean(w.text) && w.text != ""
    ensures ParseWeight(stod, WeightValue(w)) == ReadWeight(stod, w) && Clean(WeightValue(w))
  {
    hide OpName, OpFromName, MutatorOp;
    OpNameReads(w.op);
    CutAfter(OpName(w.op), ',', w.text);
    StripIsStripped(IsBlank, OpName(w.op));
  }

  lemma {:induction false} ApplyAppend(stod: Stod, r: Recipe, a: seq<string>, b: seq<string>)
    ensures ApplyLines(stod, r, a + b) == ApplyLines(stod, ApplyLines(stod, r, a), b)
    decreases |a|
  {
    if a == [] {
      assert a + b == b;
    } else {
      assert (a + b)[1..] == a[1..] + b;
      ApplyAppend(stod, ApplyLine(stod, r, a[0]), a[1..], b);
    }
  }

  lemma {:induction false} WeightsRead(stod: Stod, r: Recipe, ws: seq<PrintedWeight>)
    requires forall i :: 0 <= i < |ws| ==> Clean(ws[i].text) && ws[i].text != ""
    ensures ApplyLines(stod, r, WeightLines(ws)) == r.(weights := r.weights + ReadWeights(stod, ws))
    decreases |ws|
  {
    hide ApplyLine, Apply, Clean, PlainKey, WeightValue, ReadWeight, ParseWeight, Directive;
    if ws == [] {
      assert r.weights + [] == r.weights;
    } else {
      var w := ws[0];
      KeysArePlain();
      WeightReads(stod, w);
      DirectiveReads(stod, r, "operator", WeightValue(w));
      ApplyOperator(stod, r, WeightValue(w));
      assert WeightLines(ws)[1..] == WeightLines(ws[1..]);
      WeightsRead(stod, r.(weights := r.weights + [ReadWeight(stod, w)]), ws[1..]);
      assert r.weights + [ReadWeight(stod, w)] + ReadWeights(stod, ws[1..]) == r.weights + ReadWeights(stod, ws);
    }
  }

  lemma {:induction false} FocusReads(stod: Stod, r: Recipe, rs: seq<Range>)
    requires forall i :: 0 <= i < |rs| ==> rs[i].begin < rs[i].end < TWO_32
    ensures ApplyLines(stod, r, RangeLines("focus", rs)) == r.(focus := r.focus + rs)
    decreases |rs|
  {
    hide ApplyLine, Apply, Clean, PlainKey, RangeValue, ParseRange, Directive;
    if rs == [] {
      assert r.focus + [] == r.focus;
    } else {
      KeysArePlain();
      RangeReads(rs[0]);
      DirectiveReads(stod, r, "focus", RangeValue(rs[0]));
      ApplyFocus(stod, r, RangeValue(rs[0]));
      assert RangeLines("focus", rs)[1..] == RangeLines("focus", rs[1..]);
      FocusReads(stod, r.(focus := r.focus + [rs[0]]), rs[1..]);
      assert r.focus + [rs[0]] + rs[1..] == r.focus + rs;
    }
  }

  lemma {:induction false} ProtectReads(stod: Stod, r: Recipe, rs: seq<Range>)
    requires forall i :: 0 <= i < |rs| ==> rs[i].begin < rs[i].end < TWO_32
    ensures ApplyLines(stod, r, RangeLines("protect", rs)) == r.(protect := r.protect + rs)
    decreases |rs|
  {
    hide ApplyLine, Apply, Clean, PlainKey, RangeValue, ParseRange, Directive;
    if rs == [] {
      assert r.protect + [] == r.protect;
    } else {
      KeysArePlain();
      RangeReads(rs[0]);
      DirectiveReads(stod, r, "protect", RangeValue(rs[0]));
      ApplyProtect(stod, r, RangeValue(rs[0]));
      assert RangeLines("protect", rs)[1..] == RangeLines("protect", rs[1..]);
      ProtectReads(stod, r.(protect := r.protect + [rs[0]]), rs[1..]);
      assert r.protect + [rs[0]] + rs[1..] == r.protect + rs;
    }
  }

  lemma {:induction false} TokensRead(stod: Stod, r: Recipe, tokens: seq<string>)
    requires forall i :: 0 <= i < |tokens| ==> Clean(tokens[i])
    ensures ApplyLines(stod, r, TokenLines(tokens)) == r.(tokens := r.tokens + tokens)
    decreases |tokens|
  {
    hide ApplyLine, Apply, Clean, PlainKey, Directive;
    if tokens == [] {
      assert r.tokens + [] == r.tokens;
    } else {
      KeysArePlain();
      DirectiveReads(stod, r, "token", tokens[0]);
      ApplyToken(stod, r, tokens[0]);
      assert TokenLines(tokens)[1..] == TokenLines(tokens[1..]);
      TokensRead(stod, r.(tokens := r.tokens + [tokens[0]]), tokens[1..]);
      assert r.tokens + [tokens[0]] + tokens[1..] == r.tokens + tokens;
    }
  }

  lemma SelectorReads(stod: Stod, r: Recipe, mode: string, key: string)
    requires mode in MODES && Clean(key)
    ensures Apply(stod, r, "selector", mode + ("," + key)) == r.(mode := mode, key := key)
    ensures Clean(mode + ("," + key))
  {
    hide Apply, Cut;
    ModesAreClean(mode);
    StripIsStripped(IsBlank, mode);
    StripIsStripped(IsBlank, key);
    CutAfter(mode, ',', key);
    var value := mode + ("," + key);
    ApplySelector(stod, r, value);
    assert value[|value| - 1] == if key == "" then ',' else key[|key| - 1];
  }

  lemma ModesAreClean(mode: string)
    requires mode in MODES
    ensures Clean(mode) && ',' !in mode && mode != ""
  {
  }

  lemma HeadReads(stod: Stod, s: Strategy)
    requires IsValid(s) && IsPrintable(s) && Clean(s.id) && Clean(SelectorKey(s))
    ensures ApplyLines(stod, DEFAULT, HeadLines(s)) ==
            DEFAULT.(id := s.id, mode := s.mode, key := SelectorKey(s), priority := s.priority, ttl := s.ttl)
    ensures forall i :: 0 <= i < 5 ==> '\n' !in HeadLines(s)[i]
  {
    hide IsValid, IsPrintable, SelectorKey, Clean, ApplyLine, Directive, ApplyLines;
    ValidParts(s);
    var r1 := DEFAULT.(id := s.id);
    var r2 := r1.(mode := s.mode, key := SelectorKey(s));
    HeaderReads(stod, DEFAULT);
    IdReads(stod, DEFAULT, s.id);
    SelectorLineReads(stod, r1, s.mode, SelectorKey(s));
    NumbersRead(stod, r2, s.priority, s.ttl);
    FiveLines(stod, DEFAULT, HeadLines(s));
  }

  lemma IdReads(stod: Stod, r: Recipe, id: string)
    requires Clean(id)
    ensures ApplyLine(stod, r, Directive("id", id)) == r.(id := id) && '\n' !in Directive("id", id)
  {
    hide ApplyLine, Clean, PlainKey;
    HeadKeysArePlain();
    DirectiveReads(stod, r, "id", id);
  }

  lemma SelectorLineReads(stod: Stod, r: Recipe, mode: string, key: string)
    requires mode in MODES && Clean(key)
    ensures var line := Directive("selector", mode + ("," + key));
            ApplyLine(stod, r, line) == r.(mode := mode, key := key) && '\n' !in line
  {
    hide ApplyLine, Apply, Clean, PlainKey;
    OtherKeysArePlain();
    SelectorReads(stod, r, mode, key);
    DirectiveReads(stod, r, "selector", mode + ("," + key));
  }

  lemma NumbersRead(stod: Stod, r: Recipe, priority: nat, ttl: nat)
    requires priority < TWO_32 && ttl < TWO_32
    ensures var a, b := Directive("priority", Decimal(priority)), Directive("ttl_sec", Decimal(ttl));
      && ApplyLine(stod, r, a) == r.(priority := priority) && '\n' !in a
      && ApplyLine(stod, r.(priority := priority), b) == r.(priority := priority, ttl := ttl) && '\n' !in b
  {
    hide ApplyLine, Clean, PlainKey, Stoul, Decimal;
    HeadKeysArePlain();
    DecimalIsClean(priority);
    DecimalIsClean(ttl);
    DecimalReads(priority);
    DecimalReads(ttl);
    DirectiveReads(stod, r, "priority", Decimal(priority));
    DirectiveReads(stod, r.(priority := priority), "ttl_sec", Decimal(ttl));
  }

  lemma ValidParts(s: Strategy)
    requires IsValid(s) && IsPrintable(s)
    ensures s.mode in MODES && s.priority < TWO_32 && s.ttl < TWO_32
  {
  }

  lemma HeaderReads(stod: Stod, r: Recipe)
    ensures ApplyLine(stod, r, HEADER) == r && '\n' !in HEADER
  {
    hide ApplyLine;
    HeaderIsPlain();
    CommentReads(stod, r, HEADER);
  }

  lemma CommentReads(stod: Stod, r: Recipe, line: string)
    requires line != "" && line[0] == '#' && !IsBlank(line[|line| - 1])
    ensures ApplyLine(stod, r, line) == r
  {
    hide Apply, Cut, Trim;
    TrimmedIs(line);
  }

  lemma HeaderIsPlain()
    ensures '\n' !in HEADER && HEADER[0] == '#' && HEADER[|HEADER| - 1] == 'e'
  {
    var a, b := "# FuzzPilot v1 ", "compact mutator recipe";
    assert HEADER == a + b;
    assert '\n' !in a;
    assert '\n' !in b;
  }

  lemma FiveLines(stod: Stod, r: Recipe, ls: seq<string>)
    requires |ls| == 5
    ensures var three := ApplyLine(stod, ApplyLine(stod, ApplyLine(stod, r, ls[0]), ls[1]), ls[2]);
      ApplyLines(stod, r, ls) == ApplyLine(stod, ApplyLine(stod, three, ls[3]), ls[4])
  {
    hide ApplyLine;
    var r1 := ApplyLine(stod, r, ls[0]);
    var r2 := ApplyLine(stod, r1, ls[1]);
    var r3 := ApplyLine(stod, r2, ls[2]);
    var r4 := ApplyLine(stod, r3, ls[3]);
    assert ls[1..][1..] == ls[2..] && ls[2..][1..] == ls[3..] && ls[3..][1..] == ls[4..] && ls[4..][1..] == [];
    assert ApplyLines(stod, r4, ls[4..]) == ApplyLine(stod, r4, ls[4]);
    assert ApplyLines(stod, r3, ls[3..]) == ApplyLines(stod, r4, ls[4..]);
    assert ApplyLines(stod, r2, ls[2..]) == ApplyLines(stod, r3, ls[3..]);
    assert ApplyLines(stod, r1, ls[1..]) == ApplyLines(stod, r2, ls[2..]);
  }

  lemma {:induction false} LinesOfUnlines(lines: seq<string>)
    requires forall i :: 0 <= i < |lines| ==> '\n' !in lines[i]
    ensures Lines(Unlines(lines)) == lines && EndsLine(Unlines(lines))
  {
    if lines != [] {
      var n := |lines| - 1;
      LinesOfUnlines(lines[..n]);
      LinesAppend(Unlines(lines[..n]), lines[n] + "\n");
      LinesOfLine(lines[n], "");
      assert "\n" + "" == "\n";
      assert lines == lines[..n] + [lines[n]];
    }
  }

  predicate PlainLines(lines: seq<string>) { forall i :: 0 <= i < |lines| ==> '\n' !in lines[i] }

  lemma WeightLinesArePlain(stod: Stod, ws: seq<PrintedWeight>)
    requires forall i :: 0 <= i < |ws| ==> Clean(ws[i].text) && ws[i].text != ""
    ensures PlainLines(WeightLines(ws))
  {
    hide ApplyLine, Apply, Directive, WeightValue, Clean, PlainKey;
    OtherKeysArePlain();
    forall i | 0 <= i < |ws|
      ensures '\n' !in WeightLines(ws)[i]
    {
      WeightReads(stod, ws[i]);
      DirectiveReads(stod, DEFAULT, "operator", WeightValue(ws[i]));
    }
  }

  lemma RangeLinesArePlain(stod: Stod, key: string, rs: seq<Range>)
    requires PlainKey(key) && forall i :: 0 <= i < |rs| ==> rs[i].begin < rs[i].end < TWO_32
    ensures PlainLines(RangeLines(key, rs))
  {
    hide ApplyLine, Apply, Directive, RangeValue, Clean, PlainKey;
    forall i | 0 <= i < |rs|
      ensures '\n' !in RangeLines(key, rs)[i]
    {
      RangeReads(rs[i]);
      DirectiveReads(stod, DEFAULT, key, RangeValue(rs[i]));
    }
  }

  lemma TokenLinesArePlain(stod: Stod, tokens: seq<string>)
    requires forall i :: 0 <= i < |tokens| ==> Clean(tokens[i])
    ensures PlainLines(TokenLines(tokens))
  {
    hide ApplyLine, Apply, Directive, Clean, PlainKey;
    RangeKeysArePlain();
    forall i | 0 <= i < |tokens|
      ensures '\n' !in TokenLines(tokens)[i]
    {
      DirectiveReads(stod, DEFAULT, "token", tokens[i]);
    }
  }

  lemma BodyHasPlainLines(stod: Stod, s: Strategy)
    requires IsValid(s) && IsPrintable(s) && CleanStrategy(s)
    ensures PlainLines(BodyLines(s))
  {
    hide SelectorKey, HeadLines, WeightLines, RangeLines, TokenLines, Clean, PlainKey, ApplyLines;
    SelectorKeyIsMeant(s);
    RangeKeysArePlain();
    HeadReads(stod, s);
    assert |HeadLines(s)| == 5 by { HeadSize(s); }
    WeightLinesArePlain(stod, s.weights);
    RangeLinesArePlain(stod, "focus", s.focus);
    RangeLinesArePlain(stod, "protect", s.protect);
    TokenLinesArePlain(stod, s.tokens);
  }

  lemma HeadSize(s: Strategy)
    ensures |HeadLines(s)| == 5
  {
  }

  lemma WrittenIsAsRecipe(stod: Stod, s: Strategy)
    requires IsValid(s) && IsPrintable(s) && CleanStrategy(s)
    ensures ReadRecipe(stod, Unlines(BodyLines(s))) == AsRecipe(stod, s)
  {
    hide Apply, ApplyLine, ApplyLines, Lines, Unlines, SelectorKey, HeadLines, Clean;
    SelectorKeyIsMeant(s);
    var weights, focus, protect, tokens :=
      WeightLines(s.weights), RangeLines("focus", s.focus), RangeLines("protect", s.protect), TokenLines(s.tokens);
    BodyHasPlainLines(stod, s);
    LinesOfUnlines(BodyLines(s));
    var r1 := DEFAULT.(id := s.id, mode := s.mode, key := SelectorKey(s), priority := s.priority, ttl := s.ttl);
    var r2 := r1.(weights := ReadWeights(stod, s.weights));
    var r3 := r2.(focus := s.focus);
    HeadReads(stod, s);
    ApplyAppend(stod, DEFAULT, HeadLines(s), weights + (focus + (protect + tokens)));
    WeightsRead(stod, r1, s.weights);
    assert r1.weights + ReadWeights(stod, s.weights) == ReadWeights(stod, s.weights);
    ApplyAppend(stod, r1, weights, focus + (protect + tokens));
    FocusReads(stod, r2, s.focus);
    assert r2.focus + s.focus == s.focus;
    ApplyAppend(stod, r2, focus, protect + tokens);
    ProtectReads(stod, r3, s.protect);
    assert r3.protect + s.protect == s.protect;
    ApplyAppend(stod, r3, protect, tokens);
    TokensRead(stod, r3.(protect := s.protect), s.tokens);
    assert r3.tokens + s.tokens == s.tokens;
  }

  lemma AsRecipeRecovers(stod: Stod, s: Strategy)
    requires s.mode in MODES
    ensures Recovers(stod, AsRecipe(stod, s), s)
  {
    hide KeepsProportions, IsDistribution, Normalized, KeyMeant;
    SelectorKeyIsMeant(s);
    NormalizedIsDistribution(ReadWeights(stod, s.weights));
    NormalizedKeepsProportions(ReadWeights(stod, s.weights));
  }

  /** Clean texts come back, the key from the field that the mode names, with everything else in order. */
  lemma WrittenRecipeReads(stod: Stod, s: Strategy)
    requires IsValid(s) && IsPrintable(s) && CleanStrategy(s)
    ensures Recovers(stod, ReadRecipe(stod, Unlines(BodyLines(s))), s)
  {
    hide Recovers, AsRecipe, ReadRecipe, CleanStrategy, BodyLines;
    WrittenIsAsRecipe(stod, s);
    AsRecipeRecovers(stod, s);
  }

  /**
    For a strategy that passes validation the mutator reads back exactly what the controller meant
    if and only if the id, the text the selector goes by and every token have no line end inside and
    no blank at either end.  Nothing else a token holds can turn it into another directive.
   */
  lemma RecoversExactlyCleanStrategies(stod: Stod, s: Strategy)
    requires IsValid(s) && IsPrintable(s)
    ensures Recovers(stod, ReadRecipe(stod, Unlines(BodyLines(s))), s) <==> CleanStrategy(s)
  {
    hide ReadRecipe, BodyLines, Clean, KeepsProportions, IsDistribution;
    if CleanStrategy(s) {
      WrittenRecipeReads(stod, s);
    } else {
      ReadTextsAreClean(stod, Unlines(BodyLines(s)));
    }
  }

  // ---------- the lines as text ----------

  lemma Labelled(key: string, value: string, name: string)
    requires name == key + "="
    ensures Directive(key, value) == name + value
  {
  }

  /** The first lines of a body. */
  lemma HeadLinesAre(s: Strategy)
    ensures HeadLines(s) == ["# FuzzPilot v1 compact mutator recipe",
                             "id=" + s.id,
                             "selector=" + (s.mode + ("," + SelectorKey(s))),
                             "priority=" + Decimal(s.priority),
                             "ttl_sec=" + Decimal(s.ttl)]
  {
    hide Directive, Decimal, SelectorKey;
    Labelled("id", s.id, "id=");
    Labelled("selector", s.mode + ("," + SelectorKey(s)), "selector=");
    Labelled("priority", Decimal(s.priority), "priority=");
    Labelled("ttl_sec", Decimal(s.ttl), "ttl_sec=");
  }

  /** The others. */
  lemma BodyLinesAre(s: Strategy, i: nat)
    ensures i < |s.weights| ==>
      WeightLines(s.weights)[i] == "operator=" + (OpName(s.weights[i].op) + ("," + s.weights[i].text))
    ensures i < |s.focus| ==>
      RangeLines("focus", s.focus)[i] == "focus=" + (Decimal(s.focus[i].begin) + ("," + Decimal(s.focus[i].end)))
    ensures i < |s.protect| ==>
      RangeLines("protect", s.protect)[i] ==
      "protect=" + (Decimal(s.protect[i].begin) + ("," + Decimal(s.protect[i].end)))
    ensures i < |s.tokens| ==> TokenLines(s.tokens)[i] == "token=" + s.tokens[i]
  {
    hide Directive, OpName, Decimal;
    if i < |s.weights| {
      Labelled("operator", WeightValue(s.weights[i]), "operator=");
    }
    if i < |s.focus| {
      Labelled("focus", RangeValue(s.focus[i]), "focus=");
    }
    if i < |s.protect| {
      Labelled("protect", RangeValue(s.protect[i]), "protect=");
    }
    if i < |s.tokens| {
      Labelled("token", s.tokens[i], "token=");
    }
  }

  /** The names of the operators. */
  lemma OperatorNames(op: StrategyOp)
    ensures OpName(op) == match op
      case OpBitFlip => "bit_flip"
      case OpOverwriteRange => "overwrite_range"
      case OpInsertToken => "insert_token"
      case OpArith => "arith"
      case OpSplice => "splice"
      case OpDeleteBlock => "delete_block"
      case OpCloneBlock => "clone_block"
      case OpDictionaryOverwrite => "dictionary_overwrite"
  {
  }

  // ---------- lines that the writer never writes ----------

  /** The characters that are trimmed: space, tab, line feed and carriage return. */
  lemma BlanksAre(c: char)
    ensures IsBlank(c) <==> c as int in [9, 10, 13, 32]
  {
  }

  /** An operator without a weight, or with one that is no number, has weight 1. */
  lemma WeightDefaultsToOne(stod: Stod, op: StrategyOp, text: string)
    requires stod(text).None?
    ensures ParseWeight(stod, OpName(op)) == Weight(MutatorOp(op), 1.0)
    ensures ParseWeight(stod, OpName(op) + ("," + text)) == Weight(MutatorOp(op), 1.0)
  {
    hide OpName, OpFromName, MutatorOp;
    OpNameReads(op);
    CutAfter(OpName(op), ',', text);
    StripIsStripped(IsBlank, OpName(op));
  }

  /** A priority that is no number is 0, as is a time to live. */
  lemma BadNumberIsZero(stod: Stod, r: Recipe, value: string)
    requires Stoul(value).None?
    ensures Apply(stod, r, "priority", value) == r.(priority := 0)
    ensures Apply(stod, r, "ttl_sec", value) == r.(ttl := 0)
  {
  }

  /** An empty file is the fallback recipe: global, flipping bits. */
  lemma EmptyFileReads(stod: Stod)
    ensures ReadRecipe(stod, "") ==
            Recipe("fallback", "global", "global", 0, 0, [Weight(BitFlip, 1.0)], [], [], [], [])
  {
  }

  /** Numbers may be signed and followed by anything; a negative one wraps around. */
  lemma NumbersAreRead(n: nat, rest: string)
    requires n < TWO_64 && !StartsDigit(rest)
    ensures Stoul(Decimal(n) + rest) == Some(n) == Stoul(['+'] + (Decimal(n) + rest))
    ensures Stoul(['-'] + (Decimal(n) + rest)) == Some(if n == 0 then 0 else 0x1_0000_0000_0000_0000 - n)
  {
    hide Decimal, LeadingDigits, NumberOf, SkipSpace, SkipSign;
    var s := Decimal(n) + rest;
    LeadingDigitsOver(Decimal(n), rest);
    DecimalValue(n);
    NothingSkipped(s);
    SignSkipped('+', s);
    SignSkipped('-', s);
  }

  lemma NothingSkipped(s: string)
    requires StartsDigit(s)
    ensures SkipSpace(s) == s && SkipSign(s) == s && !Starts(s, '-')
  {
  }

  lemma SignSkipped(sign: char, s: string)
    requires sign == '+' || sign == '-'
    ensures SkipSpace([sign] + s) == [sign] + s && SkipSign([sign] + s) == s
    ensures Starts([sign] + s, '-') <==> sign == '-'
  {
    assert ([sign] + s)[1..] == s;
  }

  /** Pieces with commas between. */
  function Joined(ps: seq<string>): string {
    if ps == [] then "" else if |ps| == 1 then ps[0] else ps[0] + ("," + Joined(ps[1..]))
  }

  predicate PlainPiece(p: string) { p != "" && Clean(p) && ',' !in p }

  lemma {:induction false} PiecesRead(ps: seq<string>)
    requires forall i :: 0 <= i < |ps| ==> PlainPiece(ps[i])
    ensures Pieces(Joined(ps)) == ps
    decreases |ps|
  {
    hide Trim;
    if ps != [] {
      StripIsStripped(IsBlank, ps[0]);
      assert Trim(ps[0]) == ps[0] by { TrimOfPiece(ps[0]); }
      if |ps| > 1 {
        CutAfter(ps[0], ',', Joined(ps[1..]));
        PiecesRead(ps[1..]);
        assert ps == [ps[0]] + ps[1..];
      }
    }
  }

  lemma TrimOfPiece(p: string)
    requires PlainPiece(p)
    ensures Trim(p) == p
  {
    StripIsStripped(IsBlank, p);
  }

  lemma DecimalIsPiece(n: nat)
    ensures PlainPiece(Decimal(n))
  {
    DecimalIsClean(n);
  }

  /** The numbers that a file may give for a field's kind, each one byte wide in the source. */
  lemma KindsAre(n: nat)
    ensures n < 256 ==> FieldTypeOf(n) == if n < 4 then [Data, Length, Magic, Checksum][n] else OtherType
    ensures FieldTypeOf(n) == FieldTypeOf(n % 256)
  {
  }

  /** Offset, size and kind alone: big-endian, without a target. */
  lemma ShortFieldReads(offset: nat, size: nat, kind: nat)
    requires offset < TWO_32 && size < TWO_32 && kind < TWO_64
    ensures ParseField(Joined([Decimal(offset), Decimal(size), Decimal(kind)])) ==
            Some(Field(offset, size, FieldTypeOf(kind), true, 0, 0))
  {
    hide Decimal, Stoul, Joined, Pieces, PlainPiece;
    ThreeNumbers(offset, size, kind);
    PiecesRead([Decimal(offset), Decimal(size), Decimal(kind)]);
  }

  lemma ThreeNumbers(a: nat, b: nat, c: nat)
    requires a < TWO_64 && b < TWO_64 && c < TWO_64
    ensures PlainPiece(Decimal(a)) && PlainPiece(Decimal(b)) && PlainPiece(Decimal(c))
    ensures Stoul(Decimal(a)) == Some(a) && Stoul(Decimal(b)) == Some(b) && Stoul(Decimal(c)) == Some(c)
  {
    hide Decimal, Stoul, PlainPiece;
    DecimalIsPiece(a);
    DecimalIsPiece(b);
    DecimalIsPiece(c);
    DecimalReads(a);
    DecimalReads(b);
    DecimalReads(c);
  }

  predicate SaysTrue(flag: string) { flag == "1" || flag == "true" }

  /** With a byte order, which is big-endian for `1` and `true` only, and a target. */
  lemma FullFieldReads(ps: seq<string>, offset: nat, size: nat, kind: nat, begin: nat, end: nat)
    requires offset < TWO_32 && size < TWO_32 && kind < TWO_64 && begin < TWO_32 && end < TWO_32
    requires |ps| == 6 && PlainPiece(ps[3])
    requires ps[0] == Decimal(offset) && ps[1] == Decimal(size) && ps[2] == Decimal(kind)
    requires ps[4] == Decimal(begin) && ps[5] == Decimal(end)
    ensures ParseField(Joined(ps)) ==
            Some(Field(offset, size, FieldTypeOf(kind), SaysTrue(ps[3]), begin, end))
  {
    hide Decimal, Stoul, Joined, Pieces, PlainPiece, ParseField, FieldTypeOf, U32, SaysTrue;
    ThreeNumbers(offset, size, kind);
    ThreeNumbers(begin, end, 0);
    forall i | 0 <= i < 6
      ensures PlainPiece(ps[i])
    {
      assert i == 0 || i == 1 || i == 2 || i == 3 || i == 4 || i == 5;
    }
    PiecesRead(ps);
    SixPieces(Joined(ps), ps);
  }

  /** A byte order and at most one more number: no target. */
  lemma FlaggedFieldReads(ps: seq<string>, offset: nat, size: nat, kind: nat)
    requires offset < TWO_32 && size < TWO_32 && kind < TWO_64
    requires |ps| in {4, 5} && PlainPiece(ps[3]) && (|ps| == 5 ==> PlainPiece(ps[4]))
    requires ps[0] == Decimal(offset) && ps[1] == Decimal(size) && ps[2] == Decimal(kind)
    ensures ParseField(Joined(ps)) == Some(Field(offset, size, FieldTypeOf(kind), SaysTrue(ps[3]), 0, 0))
  {
    hide Decimal, Stoul, Joined, Pieces, PlainPiece, FieldTypeOf, U32;
    ThreeNumbers(offset, size, kind);
    forall i | 0 <= i < |ps|
      ensures PlainPiece(ps[i])
    {
      assert i == 0 || i == 1 || i == 2 || i == 3 || i == 4;
    }
    PiecesRead(ps);
  }

  lemma SixPieces(value: string, ps: seq<string>)
    requires |ps| == 6 && Pieces(value) == ps
    requires Stoul(ps[0]).Some? && Stoul(ps[1]).Some? && Stoul(ps[2]).Some? && Stoul(ps[4]).Some? && Stoul(ps[5]).Some?
    ensures ParseField(value) == Some(
      Field(U32(Stoul(ps[0]).value), U32(Stoul(ps[1]).value), FieldTypeOf(Stoul(ps[2]).value),
            SaysTrue(ps[3]), U32(Stoul(ps[4]).value), U32(Stoul(ps[5]).value)))
  {
    hide Stoul, Pieces;
  }

  /** A field line adds its field, and one with too few numbers changes nothing. */
  lemma FieldLineReads(stod: Stod, r: Recipe, value: string)
    requires Clean(value)
    ensures ApplyLine(stod, r, "field=" + value) ==
            if ParseField(value).Some? then r.(fields := r.fields + [ParseField(value).value]) else r
    ensures |Pieces(value)| < 3 ==> ParseField(value).None?
  {
    hide ApplyLine, ParseField, Clean, Directive;
    Labelled("field", value, "field=");
    assert PlainKey("field") by { FieldKeyIsPlain(); }
    DirectiveReads(stod, r, "field", value);
    ApplyFieldLine(stod, r, value);
    if |Pieces(value)| < 3 {
      TooFewPieces(value);
    }
  }

  lemma FieldKeyIsPlain()
    ensures PlainKey("field")
  {
  }

  lemma ApplyFieldLine(stod: Stod, r: Recipe, value: string)
    ensures Apply(stod, r, "field", value) ==
            if ParseField(value).Some? then r.(fields := r.fields + [ParseField(value).value]) else r
  {
    hide ParseField;
  }

  lemma TooFewPieces(value: string)
    requires |Pieces(value)| < 3
    ensures ParseField(value).None?
  {
  }
}
