# FuzzPilot kernels in Dafny

FuzzPilot steers AFL++: a controller asks language models for advice, writes *recipes*, and a
custom mutator linked into AFL++ reads the recipes and edits inputs.  This project models the parts
of it that compute something without touching the outside world, and proves what they promise.

| files | what they model |
|---|---|
| `JsonGrammar`, `JsonRecognizer`, `JsonMembers`, `JsonParser` | the JSON language of RFC 8259 sections 2 to 7 as syntax trees; the recursive-descent parser as a function on the unread text, proved equivalent to the grammar; the parser class with its cursor and depth counter, proved against that function |
| `JsonEscapes` | what escapes stand for, by code points and letters |
| `JsonDepth` | the depth cap: refused if and only if nested too deep |
| `JsonPrinters`, `JsonScanners` | escaping and printing, with their round trips; the two scanners that cut texts at brackets without parsing |
| `ProposalFields` | the micro manager's own string decoder, against the parser's |
| `PrintedParams`, `InterventionParams`, `ProposalJourney` | objects printed by hand and what the parser makes of them; the three that the micro manager wraps around a proposal; what can be read from the last one |
| `Ranges` | protected and focus ranges: merging, binary search, picking an offset |
| `Recipes`, `RecipeRanking`, `RecipeRuns`, `RecipeCache` | operator weights; what a bounded cache of ranked recipes should hold; what runs of offers can leave in it; the cache with its hash map, sorted list and index |
| `SeedHash` | the hash that recipes are filed and looked up under |
| `StructuralRepair` | rewriting length and checksum fields, against the gates of the packet target |
| `TelemetryRing`, `Mutator` | the counters, and one mutation call from lookup to repair |
| `TextFormat`, `TelemetryLog`, `TelemetryFlush`, `TelemetryTotals` | lines and decimal numbers; the full and the incremental telemetry reader; the line a flush writes; what a parsed file holds, by sums over the flushes |
| `RecipeText` | the compact recipe file: writer, reader, and when the one undoes the other |
| `RankStats` | the Mann-Whitney mid-rank computation and the A12 effect size |
| `PlateauDetector`, `WinnerSelection`, `RewardTracker` | the controller's decisions |

Objects that the source updates in place are classes.  Their methods are proved against functions
of the old state or of a ghost history, and the lemmas are about those functions.  Bytes are `bv8`
where they are edited and characters 0 to 255 where they are text; doubles are real numbers, with
infinities and NaNs where they are read and printed; a random draw is any value of its range; file
contents are arguments.

## Findings

Some properties that one would expect do not hold of the code.  Each is stated with the exact
condition under which it does.

- `is_protected` searches ranges that the loader has only sorted by `begin`.  It agrees with a
  linear scan at every offset if and only if no range reaches past a later one into offsets left to
  that one (`Ranges.SearchAgreesExactlyWhen`; `Ranges.HiddenOffsetExample` is an input where it
  fails).  Ranges that went through `normalize_ranges` always qualify.  The ranges of a global recipe
  are not sorted at all: without overlaps the two agree if and only if the ranges happen to be sorted
  (`Ranges.DisjointSearchExactlyWhenSorted`, `Ranges.UnsortedExample`).
- `split_top_level_array_objects` also returns objects nested in inner arrays.  It returns exactly
  the elements that are objects if and only if no inner array holds an object
  (`JsonScanners.SplitsElements`, `JsonScanners.HiddenObjectExample`).
- `extract_json_string_field` decodes escapes by hand.  It agrees with the parser on a string if and
  only if the string has no `\b`, `\f` or `\u` escape (`ProposalFields.DecodersAgreeExactlyWhen`).
- A parameter object printed by the micro manager is accepted by its own parser if and only if every
  number printed is finite and nothing in it nests more than 63 levels
  (`PrintedParams.AcceptedExactlyWhen`).  The priority is read with `std::stod` from a proposal, where
  it may be quoted, so `{"action":"x","priority":"inf"}` gives an object that is refused
  (`ProposalJourney.InfinitePriorityExample`).
- The three objects wrapped around a proposal collapse into strings at different depths.  One
  proposal can be read from the last object if and only if its priority is finite and it nests at most
  61 levels; that object is a document unless its own priority is not finite or the proposal, having
  come through with a finite one, nests exactly 61 levels (`ProposalJourney.ProposalSurvivesExactlyWhen`).
- Protected ranges are respected by the one-byte operators only.  A deletion starts at an unprotected
  byte and may run into protected ones; an insertion or a splice does not look at them.  For a protected
  prefix the exact condition is `Mutators.ProtectedPrefixSurvives`, for the packet target
  `Mutators.GatesHoldExactlyWhen`, with `Mutators.DeletionRunsIntoProtectedExample` and
  `Mutators.InsertionBreaksMagicExample` as inputs.  Over all draws of a call on a packet with a
  payload: every outcome passes the gates if and only if no operator that may be chosen has something
  to insert and room for it, and, if deletions may be chosen, the packet has more than 25 bytes, or
  more than ten with a focus behind the first ten (`Mutators.AllPassExactlyWhen`).
- Recipes may tie in priority and id, such as those of files that cannot be read, and at an eviction
  the order in which the map is visited decides between tied entries
  (`RecipeRanking.WorstExactlyWhenTied`, `RecipeRanking.TieExample`).  Offered in a given order, the
  recipes determine the cache if and only if no more keys than the cap have fewer than the cap of
  better ones (`RecipeRuns.FileOrderExactlyWhen`).  The set of recipes offered, in any order,
  determines it if and only if, besides, no recipe offered differs from and ties with the one kept
  offline for its key (`RecipeRuns.AnyOrderExactlyWhen`, `RecipeRuns.SameKeyTieExample`).
- Repairing the packet fields makes the length gate hold if and only if the packet has a payload: on
  a bare nine-byte header the field's fallback writes 1 (`StructuralRepair.RepairedPacketPasses`).
- The mutator appends its running totals on every flush and the controller adds the lines up.  The
  parsed mutation count is the run's own count if and only if every flush but the last came before
  the first mutation (`TelemetryFlush.ParsedCountIsRunCount`).
- A `\u` escape above U+007F decodes to one question mark (`JsonEscapes.UnicodeEscapeReads`), so a
  typographic apostrophe in a model's answer is lost.
- `json_value_or_raw` keeps a document as it is if and only if no vertical tab or form feed comes
  before it; the parser itself skips both (`PrintedParams.DocumentKeptExactlyWhen`).
- A strategy that passes validation comes back unchanged from the recipe file if and only if its id,
  selector key and tokens have no newline inside and no blank at either end; validation checks
  newlines in tokens only (`RecipeText.RecoversExactlyCleanStrategies`).
- The credit walk stops at the first decision outside the window.  It credits exactly the decisions
  in the window if and only if those are the latest ones (`RewardTracking.WalkIsExactlyWhen`).
- `json_object_satisfies_required_schema` never looks at the text after the object, and
  `extract_string_array_field` keeps the strings read before a failure.
- The comment in `parse_mutator_telemetry_incremental` says a complete last line is committed at end
  of file; `tellg` reports -1 there, so that branch is never taken, and a line is committed only when
  its newline has been read.

## Model

| member | source | states |
|---|---|---|
| JsonParsing.IsCompleteJsonValue | src/json_utils.cpp:484-487 | accepts a text if and only if it is white space, an object or array of the grammar nested at most 64 levels deep, and white space |
| JsonRecognizer.RecognizesGrammar | src/json_utils.cpp:47-57 | the recogniser as a function accepts exactly the texts of documents of the grammar |
| JsonRecognizer.ValueComplete | src/json_utils.cpp:178-221 | any valid value nested within the room left is consumed exactly, whatever follows it, except that a number must not be followed by a character that would continue it |
| JsonRecognizer.ValueSound | src/json_utils.cpp:178-221 | whatever is consumed as a value is white space and the text of a valid value nested within the room left |
| JsonRecognizer.ObjectSound | src/json_utils.cpp:223-252 | whatever is consumed as an object is the text of a valid object |
| JsonRecognizer.ArraySound | src/json_utils.cpp:254-276 | whatever is consumed as an array is the text of a valid array |
| JsonRecognizer.MembersComplete | src/json_utils.cpp:232-251 | the text of any list of members up to the closing brace is consumed exactly |
| JsonRecognizer.ElementsComplete | src/json_utils.cpp:263-275 | the text of any list of elements up to the closing bracket is consumed exactly |
| JsonRecognizer.NumberComplete | src/json_utils.cpp:360-401 | every numeral of RFC 8259 section 6 is consumed whole when nothing that continues it follows |
| JsonRecognizer.NumberSound | src/json_utils.cpp:360-401 | whatever is consumed as a number is a numeral of RFC 8259 section 6 |
| JsonRecognizer.StringComplete | src/json_utils.cpp:278-358 | every string of RFC 8259 section 7 is consumed up to its closing quote and decoded item by item |
| JsonRecognizer.StringSound | src/json_utils.cpp:278-358 | whatever is consumed as a string is one, and the decoded text is that of its items |
| JsonParsing.JsonParser.SkipSpace | src/json_utils.cpp:164-168 | the unread text afterwards is the old one without its leading white space |
| JsonParsing.JsonParser.Consume | src/json_utils.cpp:170-176 | succeeds exactly on the expected character and then moves by one |
| JsonParsing.JsonParser.ParseValue | src/json_utils.cpp:178-221 | succeeds exactly when the function does, with the same unread text; the depth is restored on every exit and the cursor stays in bounds |
| JsonParsing.JsonParser.ParseObject | src/json_utils.cpp:223-252 | the same for objects |
| JsonParsing.JsonParser.ParseArray | src/json_utils.cpp:254-276 | the same for arrays |
| JsonParsing.JsonParser.ParseString | src/json_utils.cpp:278-358 | succeeds exactly on a string of the grammar, yields its decoded text and moves past it |
| JsonParsing.JsonParser.ReadEscape | src/json_utils.cpp:298-355 | one escape decodes to one character, or the string is bad |
| JsonParsing.JsonParser.ReadHex | src/json_utils.cpp:339-349 | succeeds exactly on four hexadecimal digits, with the number they spell, in either case; the character is the code point's up to 0x7f and a question mark above |
| JsonEscapes.UnicodeEscapeReads | src/json_utils.cpp:335-352 | anywhere in a string, `\u` and the four digits of n, each in lower or upper case, stand for the character n up to 0x7f and for a question mark above |
| JsonEscapes.UnicodeStringReads | src/json_utils.cpp:335-352 | in particular the quoted escape of any n is parsed as that one character |
| JsonEscapes.EveryFourDigitsSpell | src/json_utils.cpp:339-349 | any four hexadecimal digits spell some n below 0x10000 in this way, so nothing else can follow `\u` |
| JsonEscapes.LetterEscapeReads | src/json_utils.cpp:302-334 | anywhere in a string, each of the eight escape letters stands for the character with its listed code |
| JsonEscapes.CharacterClasses | src/json_utils.cpp:22-24 | digits, hexadecimal digits and white space of the parser, as lists of characters |
| JsonParsing.JsonParser.ParseNumber | src/json_utils.cpp:360-401 | succeeds exactly when the function of the unread text does and stops where it stops |
| JsonParsing.JsonParser.ParseWhole | src/json_utils.cpp:361-376 | the digits before the point: a lone zero or digits that do not start with one |
| JsonParsing.JsonParser.ParseFraction | src/json_utils.cpp:378-385 | an optional point with at least one digit |
| JsonParsing.JsonParser.ParseExponent | src/json_utils.cpp:387-398 | an optional exponent with at least one digit |
| JsonParsing.JsonParser.ParseDocumentValue | src/json_utils.cpp:47-57 | accepts exactly the documents of the grammar and leaves the depth at 0 |
| JsonParsing.JsonParser.ParseDocumentStringArray | src/json_utils.cpp:59-86 | verdict and values read are those of the function on the text, also on failure |
| JsonParsing.JsonParser.ParseTopLevelObjectKeys | src/json_utils.cpp:88-120 | verdict and keys read are those of the function on the text, also on failure |
| JsonParsing.JsonParser.ExtractTopLevelMemberValue | src/json_utils.cpp:122-161 | returns what the function on the text finds |
| JsonMembers.FindTopLevelOfTree | src/json_utils.cpp:122-161 | on an object, whatever follows it, the result is the exact text of the first top-level member whose decoded key matches, and nothing if there is none; on any other value it is nothing |
| JsonMembers.FindTopLevelIsValue | src/json_utils.cpp:143-150 | on any text at all, a returned slice is the text of one valid value and is consumed from end to end on its own |
| JsonParsing.ExtractTopLevelJsonValue | src/json_utils.cpp:514-518 | returns what the function on the text finds |
| JsonMembers.StringArrayExactlyWhen | src/json_utils.cpp:59-86 | the reader of string arrays succeeds if and only if the text is one, with white space around |
| JsonMembers.StringArrayOfTree | src/json_utils.cpp:59-86 | on any value the strings handed back are the decoded elements before the first that is not a string |
| JsonMembers.TopLevelKeysExactlyWhen | src/json_utils.cpp:88-120 | the key reader succeeds if and only if the text starts with an object of the grammar |
| JsonMembers.TopLevelKeysOfTree | src/json_utils.cpp:88-120 | on an object, whatever follows it, the keys are the decoded top-level keys in order |
| JsonMembers.SatisfiesSchemaOfTrees | src/json_utils.cpp:494-512 | on trees, the check says that every required key (or `agent` if none is named) is a top-level key; the text after the object plays no part |
| JsonParsing.ExtractRequiredSchemaKeys | src/json_utils.cpp:415-427 | the strings of the top-level array `required`, and none if it is missing or not an array of strings |
| JsonParsing.RequiredOrAgent | src/json_utils.cpp:506-509 | those, or the key `agent` alone when there are none |
| JsonParsing.JsonObjectSatisfiesRequiredSchema | src/json_utils.cpp:494-512 | returns the verdict that the lemmas on trees describe |
| JsonMembers.StringArrayFieldOfTree | src/json_utils.cpp:520-535 | the strings at the start of the first member with the key; those before a failure are kept |
| JsonParsing.ExtractStringArrayField | src/json_utils.cpp:520-535 | returns what that function gives |
| JsonDepth.DepthCapIsExact | src/json_utils.cpp:183-188 | an object or array of the grammar of any depth, with white space around, is accepted if and only if it nests at most 64 levels |
| JsonDepth.BracketsAreDocumentUpTo64 | src/json_utils.cpp:177-186 | n opening and n closing brackets are a document if and only if n is at most 64 |
| JsonDepth.ValueTooDeep | src/json_utils.cpp:178-221 | a valid value that nests deeper than the room left is refused, whatever follows it |
| JsonPrinters.EscapeRoundTrip | src/json_utils.cpp:431-470 | parsing the quoted escape of any text consumes exactly it and yields the text |
| JsonPrinters.EscapeItemIsShortest | src/json_utils.cpp:431-470 | no valid way to write a character in a string is shorter than the printed one, and none as short differs except in the case of digits |
| JsonPrinters.JsonEscape | src/json_utils.cpp:431-470 | the escape loop prints a text that, quoted, parses back to the argument |
| JsonPrinters.StringArrayRoundTrip | src/micro/manager.cpp:193-202 | a printed array of strings is a document and reads back as the same strings |
| JsonPrinters.JsonStringArray | src/micro/manager.cpp:193-202 | the printing loop yields a document from which the strings read back |
| JsonPrinters.ValueOrRawIsDocument | src/json_utils.cpp:472-482 | the result is always an accepted document, and applying the function again changes nothing |
| JsonPrinters.RawRoundTrip | src/json_utils.cpp:481 | text that was wrapped is recovered from the member `raw` |
| JsonPrinters.JsonValueOrRaw | src/json_utils.cpp:472-482 | the method computes that function and yields an accepted document |
| JsonScanners.SplitTopLevelArrayObjects | src/micro/manager.cpp:141-175 | the loop over flags, depth and start index yields what the automaton yields |
| JsonScanners.SplitsOuterObjects | src/micro/manager.cpp:141-175 | on any value of the grammar the scanner returns exactly the texts of its outermost objects, whatever strings hold |
| JsonScanners.SplitsElements | src/micro/manager.cpp:141-175 | on an array of objects only, exactly the element texts in order; on any array, exactly the elements that are objects if and only if no inner array holds an object |
| JsonScanners.HiddenObjectExample | src/micro/manager.cpp:141-175 | the text `[[{}]]` is an array without an element that is an object, and one text is returned |
| JsonScanners.IterJsonObjects | scripts/paper01/architecture_pilot_summary.py:31-60 | the generator's loop yields what the automaton yields |
| JsonScanners.YieldsDocuments | scripts/paper01/architecture_pilot_summary.py:31-60 | from objects and arrays with bracket-free text between them exactly their texts come out, in order |
| JsonScanners.YieldsLines | scripts/paper01/architecture_pilot_summary.py:31-60 | accepted documents joined by newlines come back, without their outer white space |
| ProposalFields.ExtractJsonStringField | src/micro/manager.cpp:65-91 | the loop with its flag computes the hand decoding of the first member with the key |
| ProposalFields.HandReadsEscape | src/micro/manager.cpp:65-91 | after a backslash three letters stand for control characters and any other character for itself |
| ProposalFields.DecodersAgreeExactlyWhen | src/micro/manager.cpp:72-89 | the hand decoder and the parser read a string alike if and only if it has no `\b`, `\f` or `\u` escape |
| ProposalFields.StringFieldOfTree | src/micro/manager.cpp:65-91 | on an object, a string member comes out hand-decoded and any other member empty |
| ProposalFields.HandReadsEscapesExactlyWhen | src/micro/manager.cpp:72-89 | what the escaper wrote is read back if and only if the text has no control character but newline, return and tab |
| PrintedParams.NotFiniteIsRefused | src/json_utils.cpp:178-221 | what is printed for an infinity or a NaN is refused wherever a value is expected, whatever follows it |
| PrintedParams.PrintedDoubleIsClose | src/micro/manager.cpp:177-191 | a printed double has six decimals, is at most half a millionth off, and has a minus exactly below 0 |
| PrintedParams.PrintedWholeIsExact | src/micro/manager.cpp:177-191 | a printed integer is its own decimal numeral |
| PrintedParams.AcceptedExactlyWhen | src/micro/manager.cpp:177-191 | whatever the strings hold, an object printed by hand is an accepted document if and only if every number printed is finite and nothing in it nests more than 63 levels |
| PrintedParams.ParamReads | src/micro/manager.cpp:177-191 | extraction by name gives back exactly the first parameter with that name, unless one up to it cannot be read; no string poses as another parameter |
| PrintedParams.StringParamReads | src/micro/manager.cpp:177-191 | a string parameter that can be read is read back as it was |
| InterventionParams.ParamsForIntervention | src/micro/manager.cpp:177-191 | the printed text; accepted exactly when the priority is finite and the pasted proposal has a level to spare; extraction gives the proposal back exactly when the priority is finite |
| InterventionParams.ProposalMembersRead | src/micro/manager.cpp:177-191 | decision, agent, index, stage, priority and dependency are each read back under their own name, the last two if the priority is finite |
| InterventionParams.AppendAllMeans | src/micro/manager.cpp:213-217 | appending if absent keeps every non-empty name once, in order of first appearance |
| InterventionParams.LargestMeans | src/micro/manager.cpp:252-261 | the merged priority is the start or one of those given, and none given exceeds it in the comparison of doubles, NaNs included |
| InterventionParams.Collect | src/micro/manager.cpp:249-265 | the loop over a stage's proposals collects sources and tokens once, the largest priority, and every non-empty parameter text, pasted |
| InterventionParams.PasteAll | src/micro/manager.cpp:286-291 | the loop prints the texts with commas between |
| InterventionParams.GroupText | src/micro/manager.cpp:280-294 | for a stage with proposals: the printed text; accepted exactly when every contribution has two levels to spare |
| InterventionParams.GroupMembersRead | src/micro/manager.cpp:280-293 | stage, action, agents and decisions of a stage's object are each read back under their own name |
| InterventionParams.SourcesAre | src/micro/manager.cpp:254-257 | the merged agents and decisions are those of the proposals, each from its own field, without empty names |
| InterventionParams.TokensAre | src/micro/manager.cpp:256-258 | the tokens offered for merging are those of the proposals |
| InterventionParams.PastedInOrder | src/micro/manager.cpp:262-264 | pasted texts keep the order of the proposals, one for each that has parameters |
| InterventionParams.ExceedsMeans | src/micro/manager.cpp:259-261 | priorities compare by size between the infinities, and a NaN exceeds nothing and is exceeded by nothing |
| InterventionParams.CampaignText | src/micro/manager.cpp:476-483 | the printed text; accepted exactly when the priority is finite and the campaign's own parameters have a level to spare; extraction gives those back in any case |
| InterventionParams.CampaignMembersRead | src/micro/manager.cpp:476-483 | stage, priority and dependency of a campaign's object are each read back under their own name |
| PrintedParams.KeptExactlyWhen | src/json_utils.cpp:472-482 | a text that starts like a container is pasted in unchanged if and only if it is a document |
| PrintedParams.DocumentKeptExactlyWhen | src/json_utils.cpp:472-482 | a document is pasted as it is if and only if only spaces, tabs, line feeds and carriage returns come before it |
| PrintedParams.PastedNesting | src/json_utils.cpp:472-482 | a printed object, pasted in, adds one level to its deepest parameter if it was accepted, and is a string two levels deep otherwise |
| ProposalJourney.ExtractJsonDoubleField | src/micro/manager.cpp:125-139 | a number member, quoted or not, as the reader of doubles takes it; the fallback when there is none or it does not parse |
| ProposalJourney.DoubleFieldOfTree | src/micro/manager.cpp:123-139 | on an object a string member is hand-decoded and read, any other member is read as written, and without the member or a number the fallback comes back |
| ProposalJourney.InfinitePriorityExample | src/micro/manager.cpp:177-191 | for `{"action":"x","priority":"inf"}` the priority is an infinity, and the printed parameters are refused at two levels of depth |
| ProposalJourney.CampaignAcceptedExactlyWhen | src/micro/manager.cpp:476-483 | a campaign's object around a stage's object is a document if and only if its priority is finite and the deepest contribution does not nest exactly 62 levels |
| ProposalJourney.ContributionsReachedExactlyWhen | src/micro/manager.cpp:280-298 | from the campaign's object the contributions can be extracted if and only if none nests more than 62 levels |
| ProposalJourney.ProposalSurvivesExactlyWhen | src/micro/manager.cpp:177-191 | one proposal through all three objects: when the last text is a document, and that the proposal can be read from it exactly when its priority is finite and it nests at most 61 levels |
| Recipes.NotBetterIsTransitive | mutators/fuzzpilot/recipe_cache.cpp:375-379 | the ranking by priority and id is a weak order, so replace-if-better and sorting make sense |
| Recipes.LessIsLexicographic | mutators/fuzzpilot/recipe_cache.cpp:375-379 | the comparison of ids is the lexicographic order |
| Recipes.Normalize | mutators/fuzzpilot/recipe_cache.cpp:78-90 | the two loops give non-negative weights that add up to 1: the same operators in the same places, in the proportions of the given positive weights, 0 for the others; one bit flip if none is positive |
| Recipes.NormalizedIsDistribution | mutators/fuzzpilot/recipe_cache.cpp:78-90 | normalizing any weights gives a distribution |
| Recipes.NormalizedKeepsProportions | mutators/fuzzpilot/recipe_cache.cpp:78-90 | every operator keeps its place and its proportion to the others |
| Recipes.NormalizedIsUnique | mutators/fuzzpilot/recipe_cache.cpp:78-90 | nothing else keeps the proportions and adds up to 1 |
| Recipes.NormalizedTwice | mutators/fuzzpilot/recipe_cache.cpp:78-90 | normalizing again changes nothing, so the repeated calls while loading are harmless |
| Recipes.ChooseOperator | mutators/fuzzpilot/recipe_cache.cpp:189-203 | the needle picks the operator in whose slice of the unit interval it lies; an operator without weight only at position 0 by needle 0 |
| RecipeRanking.OfferWithinCap | mutators/fuzzpilot/recipe_cache.cpp:367-379 | replacing if strictly better keeps the map a best recipe for each of the best keys, while it fits |
| RecipeRanking.OfferAndEvict | mutators/fuzzpilot/recipe_cache.cpp:367-396 | on overflow, erasing a worst entry keeps that too, also when evicted keys come back |
| RecipeRanking.LeftOutRanksBelow | mutators/fuzzpilot/recipe_cache.cpp:367-396 | no recipe offered and not kept has a higher priority than a kept one, nor a smaller id at equal priority |
| RecipeRanking.OfferReplacesExactlyWhen | mutators/fuzzpilot/recipe_cache.cpp:375-379 | an offer replaces the kept recipe if and only if its priority is higher, or equal with a smaller id |
| RecipeRanking.TopKIsOffline | mutators/fuzzpilot/recipe_cache.cpp:367-396 | without ties such a map equals the offline result: the best recipe per key, then the best keys up to the cap |
| RecipeRanking.OrderDoesNotMatter | mutators/fuzzpilot/recipe_cache.cpp:367-396 | without ties the map depends only on the set of recipes offered, not on order or repeats |
| RecipeRanking.DeterminedExactlyWhen | mutators/fuzzpilot/recipe_cache.cpp:367-396 | ties included: a top selection of a set of recipes, which is what their offers in all orders can leave, is the only one if and only if no offered recipe ties with a kept one, for its key or from a key left out |
| RecipeRuns.RunIsTopK | mutators/fuzzpilot/recipe_cache.cpp:367-396 | whatever a run of offers leaves, with any visiting order at each eviction, is a top selection of the recipes offered |
| RecipeRuns.MayLeaveExactlyTopK | mutators/fuzzpilot/recipe_cache.cpp:367-396 | conversely every top selection is left by some order of the same offers, so the two say the same |
| RecipeRuns.SteeredRun | mutators/fuzzpilot/recipe_cache.cpp:384-394 | for any best keys that fit, the visiting order can be such that a run keeps each of them, with its first best recipe |
| RecipeRuns.FileOrderExactlyWhen | mutators/fuzzpilot/recipe_cache.cpp:258-283 | offers in a given order, ties included: all visiting orders leave one map if and only if the offline keys fit the cap, and then it is the offline result |
| RecipeRuns.AnyOrderExactlyWhen | mutators/fuzzpilot/recipe_cache.cpp:367-396 | the same recipes in any order, ties included: all runs leave one map if and only if the offline keys fit and no offered recipe differs from and ties with the one kept offline for its key |
| RecipeRuns.SameKeyTieExample | mutators/fuzzpilot/recipe_cache.cpp:369-379 | two tied recipes for one key: each order has one outcome, and they differ |
| RecipeRanking.WorstExactlyWhenTied | mutators/fuzzpilot/recipe_cache.cpp:384-394 | at an eviction the visiting order decides exactly between the worst entry and those tied with it |
| RecipeRanking.TieExample | mutators/fuzzpilot/recipe_cache.cpp:384-394 | two recipes of one priority and id: with room for one, either may stay |
| RecipeCaching.RecipeCache.OfferRecipe | mutators/fuzzpilot/recipe_cache.cpp:367-396 | one offer extends the history by one step: the map stays what a run over the recipes offered leaves |
| RecipeCaching.RecipeCache.FindWorst | mutators/fuzzpilot/recipe_cache.cpp:384-394 | the scan finds a worst entry in whatever order the map is visited |
| RecipeCaching.RecipeCache.MapIsTopK | mutators/fuzzpilot/recipe_cache.cpp:367-396 | in every reachable state the map is a top selection of the recipes offered, whatever ties |
| RecipeCaching.RecipeCache.IsBounded | mutators/fuzzpilot/recipe_cache.hpp:70-71 | at most 8192 recipes are kept by hash and 4096 by name |
| RecipeCaching.RecipeCache.MapIsOffline | mutators/fuzzpilot/recipe_cache.cpp:367-396 | in every reachable state the map is the offline result of the recipes offered if and only if the offline keys fit the cap, as they do without ties |
| RecipeCaching.RecipeCache.AddRecipe | mutators/fuzzpilot/recipe_cache.cpp:355-397 | weights normalized, ranges sorted; then to the map, to the list, or dropped, by selector mode |
| RecipeCaching.StableSort | mutators/fuzzpilot/recipe_cache.cpp:287-294 | a ranking of all loaded entries in which tied entries keep the load order |
| RecipeCaching.RecipeCache.RebuildSeedIdIndex | mutators/fuzzpilot/recipe_cache.cpp:345-353 | every index entry is in bounds, and the index finds what a scan for the first recipe with a non-empty key finds |
| RecipeCaching.RecipeCache.FinishLoad | mutators/fuzzpilot/recipe_cache.cpp:285-299 | sort, cut to 4096 and index rebuild leave the whole cache valid |
| RecipeCaching.RecipeCache.AddAll | mutators/fuzzpilot/recipe_cache.cpp:258-283 | after the loop the map and the list stem from exactly the entries of their mode, in file order |
| RecipeCaching.RecipeCache.Load | mutators/fuzzpilot/recipe_cache.cpp:240-299 | a load leaves a valid cache whose contents stem from exactly the given recipes |
| RecipeCaching.RecipeCache.Reload | mutators/fuzzpilot/recipe_cache.cpp:334-340 | a reload leaves exactly what a fresh load would, except that the global recipe stays if there is no new one |
| RecipeCaching.LoadedGlobalMeans | mutators/fuzzpilot/recipe_cache.cpp:240-256 | a global recipe is global whatever its file says, takes the earlier weights if it has none, and keeps their proportions |
| RecipeRanking.PositionIsRank | mutators/fuzzpilot/recipe_cache.cpp:287-294 | an entry's position in the sorted list is the number of entries ranked ahead of it |
| RecipeRanking.SortedByPriorityAndId | mutators/fuzzpilot/recipe_cache.cpp:287-294 | the sorted list falls in priority, rises in id at equal priority, and keeps the load order at equal id |
| RecipeRanking.FirstKeptIsBestLoaded | mutators/fuzzpilot/recipe_cache.cpp:287-299 | the first kept entry with a key is the best-ranked loaded one, and there is one exactly when fewer than the cap rank ahead of it |
| RecipeCaching.RecipeCache.IndexIsBestLoaded | mutators/fuzzpilot/recipe_cache.cpp:415-424 | a name is indexed exactly when its best-ranked loaded recipe made the cut, and then points to it |
| RecipeCaching.RecipeCache.Lookup | mutators/fuzzpilot/recipe_cache.cpp:406-448 | the best loaded recipe for the name if it made the cut, else the kept recipe for the hash, else the global one, with the hit flag of each |
| SeedHashing.ComputeSeedHash | mutators/fuzzpilot/recipe_cache.cpp:43-52 | the mutator's loop computes the hash and its 16 digits |
| SeedHashing.StableSeedHashHex | src/mutation/strategy.cpp:150-160 | the controller's loop computes the same, so a recipe is found under the key it was filed under |
| SeedHashing.SameKeyExactlyWhen | src/mutation/strategy.cpp:156-159 | two seeds share a key if and only if their 64-bit hashes are equal |
| SeedHashing.OneByteChangesKey | mutators/fuzzpilot/recipe_cache.cpp:43-52 | two seeds of one size that differ in a single byte never share a key |
| SeedHashing.KeyExamples | src/mutation/strategy.cpp:150-160 | the keys of an empty seed and of one `a` |
| Ranges.OffsetInRanges | src/mutation/range_selector.cpp:8-15 | true exactly when some range holds the offset |
| Ranges.NormalizeRanges | src/mutation/range_selector.cpp:61-82 | the result covers the same offsets, is sorted with gaps between, and is the only such list |
| Ranges.GappedIsCanonical | src/mutation/range_selector.cpp:61-82 | two sorted lists with gaps that cover the same offsets are equal |
| Ranges.SelectMutationOffset | src/mutation/range_selector.cpp:17-59 | an unprotected offset inside the input, and none exactly when every offset is protected; it is drawn from the focus, or the first unprotected one if a draw can be protected |
| Ranges.IsProtected | mutators/fuzzpilot/mutator_core.cpp:17-38 | the loop computes the bisection on ranges in any order; on sorted ones it looks at the last range that begins at or before the offset; on any it reports covered offsets only |
| Ranges.SearchAgreesExactlyWhen | mutators/fuzzpilot/mutator_core.cpp:17-38 | on sorted ranges the search agrees with the linear scan at every offset if and only if nothing is hidden |
| Ranges.HiddenOffsetExample | mutators/fuzzpilot/mutator_core.cpp:17-38 | two ranges, sorted as the loader does, and a covered offset that the search misses |
| Ranges.SearchHitsLast | mutators/fuzzpilot/mutator_core.cpp:17-38 | where ranges that begin at or before the offset come first, the bisection is that promised search |
| Ranges.DisjointSearchExactlyWhenSorted | mutators/fuzzpilot/mutator_core.cpp:17-38 | on ranges without overlaps, in any order, the search agrees with the linear scan at every offset if and only if they are sorted |
| Ranges.UnsortedExample | mutators/fuzzpilot/mutator_core.cpp:17-38 | two unsorted ranges, and a covered offset that the search misses |
| Ranges.GappedHidesNothing | src/mutation/range_selector.cpp:61-82 | normalized ranges hide nothing, so there the search and the scan agree |
| Ranges.ChooseFocusOffset | mutators/fuzzpilot/mutator_core.cpp:40-74 | always inside the buffer: an unprotected draw from the focus, any unprotected offset if some draw is protected, or 0 if all are; with sorted ranges unprotected whenever any offset is |
| Ranges.WrapsAround | mutators/fuzzpilot/mutator_core.cpp:66-72 | the modular scan visits every offset from any start |
| Ranges.ChoosersAgree | mutators/fuzzpilot/mutator_core.cpp:40-74 | with nothing hidden, what the mutator calls unprotected is covered by no range |
| StructuralRepair.ApplyStructuralRepairs | mutators/fuzzpilot/mutator_core.cpp:182-265 | the loop over the fields computes the repair function |
| StructuralRepair.ApplyField | mutators/fuzzpilot/mutator_core.cpp:198-260 | one field: bounds check, length or checksum rewritten |
| StructuralRepair.XorLoop | mutators/fuzzpilot/mutator_core.cpp:249-255 | the loop computes the exclusive or of a range of bytes |
| StructuralRepair.XorOutside | mutators/fuzzpilot/mutator_core.cpp:245-256 | whole minus field is the exclusive or of the bytes outside the field |
| StructuralRepair.WriteLength | mutators/fuzzpilot/mutator_core.cpp:223-243 | the length bytes go to the field's position |
| StructuralRepair.LengthReadsBack | mutators/fuzzpilot/mutator_core.cpp:202-243 | the field read back in its byte order gives the length, cut to 16 bits for two bytes |
| StructuralRepair.LengthCountsPositions | mutators/fuzzpilot/mutator_core.cpp:205-218 | the length written is the number of positions in the target, else behind its begin, else behind the field |
| StructuralRepair.RepairKeepsOutside | mutators/fuzzpilot/mutator_core.cpp:194-261 | for any fields, the size and every byte in no field stay |
| StructuralRepair.LengthsWriteConstants | mutators/fuzzpilot/mutator_core.cpp:202-243 | what length fields write depends on the size of the buffer only |
| StructuralRepair.RepairBalancesAndStays | mutators/fuzzpilot/mutator_core.cpp:194-261 | length fields, then one-byte checksums in the buffer that overlap none of them: the exclusive or of everything is 0 and repairing again changes nothing |
| StructuralRepair.ProcessPacket | experiments/targets/vuln_target/vuln.c:7-35 | a packet passes exactly when all three gates hold |
| StructuralRepair.RepairedPacketPasses | mutators/fuzzpilot/mutator_core.cpp:194-261 | repairing the packet fields keeps every byte outside 4 to 8, makes the checksum gate hold, and the length gate if and only if there is a payload |
| TelemetryRings.TelemetryRing.Hit | mutators/fuzzpilot/telemetry_ring.cpp:27-29 | one more hit, nothing else |
| TelemetryRings.TelemetryRing.Miss | mutators/fuzzpilot/telemetry_ring.cpp:31-33 | one more miss, nothing else |
| TelemetryRings.TelemetryRing.Record | mutators/fuzzpilot/telemetry_ring.cpp:35-51 | one more mutation under its operator; the counts still add up |
| TelemetryRings.TelemetryRing.RecordName | mutators/fuzzpilot/telemetry_ring.cpp:53-83 | a known name counts like its operator, any other under the catch-all, so no sample is lost |
| Mutators.FpMutator.MutateBitFlip | mutators/fuzzpilot/mutator_core.cpp:76-85 | exactly one bit flips at an editable position, and one flip is counted |
| Mutators.FpMutator.MutateOverwriteByte | mutators/fuzzpilot/mutator_core.cpp:87-95 | at most one byte changes, at an editable position |
| Mutators.FpMutator.MutateArith | mutators/fuzzpilot/mutator_core.cpp:97-106 | one byte goes up or down by one modulo 256, at an editable position |
| Mutators.NudgeIsByOne | mutators/fuzzpilot/mutator_core.cpp:97-106 | up is the next byte and down the one before, with 255 and 0 as neighbours |
| Mutators.FpMutator.MutateInsertToken | mutators/fuzzpilot/mutator_core.cpp:108-133 | as much of a non-empty token as there is room for goes in, or nothing happens for a stated reason |
| Mutators.FpMutator.MutateDeleteBlock | mutators/fuzzpilot/mutator_core.cpp:135-157 | between 1 and 16 bytes go, from an editable position on, unless the buffer has fewer than two |
| Mutators.FpMutator.MutateSplice | mutators/fuzzpilot/mutator_core.cpp:159-179 | consecutive bytes of the other input go in: as many as there are from the drawn one on, as there is room for, and at most 32 |
| Mutators.SpliceSize | mutators/fuzzpilot/mutator_core.cpp:166-172 | a splice brings in exactly the least of 32 bytes, the room left and what there is from the drawn byte on |
| Mutators.FpMutator.ApplyOperator | mutators/fuzzpilot/mutator_core.cpp:312-341 | the chosen operator's effect, or a bit flip where it could do nothing; one record in any case |
| Mutators.FpMutator.LookupRecipe | mutators/fuzzpilot/mutator_core.cpp:294-302 | the cached hash answers like a fresh one while the input is the one that was hashed |
| Mutators.FpMutator.MutateWith | mutators/fuzzpilot/mutator_core.cpp:303-343 | one hit or miss, one mutation, an operator with weight (or the first listed), then the repair |
| Mutators.FpMutator.Fuzz | mutators/fuzzpilot/mutator_core.cpp:282-347 | a rejected call changes nothing; an accepted one yields at most the maximal size and keeps hits plus misses equal to mutations, to the sum over operators and to the number of calls |
| Mutators.FpMutator.QueueGet | mutators/fuzzpilot/mutator_core.cpp:358-377 | reloads if the store changed and otherwise leaves the cache alone; takes the new name and forgets the cached hash |
| Mutators.FpMutator.QueueNewEntry | mutators/fuzzpilot/mutator_core.cpp:379-389 | takes the new name and forgets the cached hash |
| Mutators.EditsKeepPrefix | mutators/fuzzpilot/mutator_core.cpp:76-157 | every one-byte edit and every deletion leaves a protected prefix alone, unless everything is protected |
| Mutators.InsertionKeepsPrefixExactlyWhen | mutators/fuzzpilot/mutator_core.cpp:119-129 | an insertion leaves a prefix as it is if and only if it comes behind it or happens to put the same bytes there |
| Mutators.InsertionKeepsByteExactlyWhen | mutators/fuzzpilot/mutator_core.cpp:119-129 | an insertion leaves a byte in place if and only if it comes behind it or happens to put an equal byte there |
| Mutators.DeletionKeepsByteExactlyWhen | mutators/fuzzpilot/mutator_core.cpp:139-153 | a deletion leaves a byte in place if and only if it comes behind it or moves an equal byte there |
| Mutators.DeletionRunsIntoProtectedExample | mutators/fuzzpilot/mutator_core.cpp:135-157 | a deletion that starts at an unprotected byte and takes two protected ones away |
| Mutators.ProtectedPrefixSurvives | mutators/fuzzpilot/mutator_core.cpp:282-347 | a whole call, any operator: a protected prefix outside the fields survives one-byte edits and deletions, and insertions exactly when they come behind it or coincide |
| Mutators.ProtectedBytesSurvive | mutators/fuzzpilot/mutator_core.cpp:60-106 | a protected byte anywhere outside the fields survives every one-byte edit and the repair, unless everything is protected |
| Mutators.GatesHoldExactlyWhen | mutators/fuzzpilot/mutator_core.cpp:282-347 | a whole call on a packet with payload and the magic protected: all three gates hold always after a one-byte edit, after a deletion if and only if a payload is left, after an insertion or splice if and only if it comes behind the magic or reproduces it |
| Mutators.AllPassExactlyWhen | mutators/fuzzpilot/mutator_core.cpp:282-347 | all draws of one call on a packet with payload and the magic protected: every outcome passes the three gates after repair if and only if no operator that may be chosen can insert, and deletions, if they may be chosen, cannot leave a bare header for reasons of size or focus |
| Mutators.InsertionBreaksMagicExample | mutators/fuzzpilot/mutator_core.cpp:108-133 | a token inserted before the protected magic, and the repaired packet refused |
| RankStats.MidRanks | scripts/paper01/review_stats.py:129-139 | the block loop gives every value the score it has against all values, plus a half |
| RankStats.BlockScore | scripts/paper01/review_stats.py:133-138 | the average rank of a block of ties is that score |
| RankStats.RankSumCountsPairs | scripts/paper01/review_stats.py:140-141 | whatever the ties, the rank sum is the number of pairs won (ties half) plus nx(nx+1)/2 |
| RankStats.PairsComplement | scripts/paper01/review_stats.py:142 | the pairs won by either side add up to nx times ny |
| RankStats.MannWhitneyU | scripts/paper01/review_stats.py:122-143 | U1 counts the pairs that x wins and U is the smaller count of the two sides |
| RankStats.VarghaDelaneyA12 | scripts/paper01/review_stats.py:181-195 | the share of pairs won, ties half, between 0 and 1 |
| RankStats.StatisticsAgree | scripts/paper01/review_stats.py:122-195 | both routines on the same samples: U does not depend on their order and is the smaller of the two A12 shares times the number of pairs; the two shares add up to 1 |
| TelemetryLog.FindU64 | src/telemetry/mutation_events.cpp:14-36 | the number after the first quoted name and colon, 0 if there is none or it needs more than 64 bits |
| TelemetryLog.FieldValueReads | src/telemetry/mutation_events.cpp:14-36 | white space before the number is skipped, and a number beyond 64 bits counts as 0 |
| TelemetryLog.ParseOperatorCounts | src/telemetry/mutation_events.cpp:38-83 | adds every pair of the operators object to the counts, none of which falls; a number that does not parse changes nothing |
| TelemetryLog.ParseMutatorTelemetry | src/telemetry/mutation_events.cpp:89-113 | the sum over all lines, also an unterminated one; nothing without a file |
| TelemetryLog.ParseIncremental | src/telemetry/mutation_events.cpp:115-186 | one read counts exactly the complete lines after the offset, and starts over when the file shrank |
| TelemetryLog.StepCatchesUp | src/telemetry/mutation_events.cpp:115-186 | after a read the offset is the end of the last complete line and the totals are those of all complete lines |
| TelemetryLog.ReadsCatchUp | src/telemetry/mutation_events.cpp:115-186 | the same after any schedule of reads of a file that grows or is replaced by something shorter |
| TelemetryLog.IncrementalIsFull | src/telemetry/mutation_events.cpp:89-186 | if the file now ends in a newline, any schedule of reads has the totals of one full parse; otherwise exactly the unterminated tail is missing |
| TelemetryLog.GrowingFileIsFull | src/telemetry/mutation_events.cpp:89-186 | a file that only grew and ends in a newline was counted once, whatever the schedule of reads |
| TelemetryFlush.FlushText | mutators/fuzzpilot/telemetry_ring.cpp:85-120 | the printed line has every counter, and the operators with a nonzero count |
| TelemetryFlush.OperatorsText | mutators/fuzzpilot/telemetry_ring.cpp:101-118 | the loop prints the nonzero counts, then the catch-all, with commas between |
| TelemetryTotals.FlushLineIs | mutators/fuzzpilot/telemetry_ring.cpp:94-119 | the line of a flush spelled out: every name, number and separator up to the operators |
| TelemetryTotals.ListedExample | mutators/fuzzpilot/telemetry_ring.cpp:101-118 | operators that were never counted are not listed, and the catch-all comes last |
| TelemetryTotals.FlushAddsCounters | src/telemetry/mutation_events.cpp:102-111 | reading one flushed line adds every counter to what was there, each operator's under its own name |
| TelemetryTotals.ParsedCountsAreSums | src/telemetry/mutation_events.cpp:89-113 | after any flushes a full parse holds the sum of each counter over the flushes; an operator's entry is there exactly when its sum is positive |
| TelemetryTotals.OnlyPrintedNames | src/telemetry/mutation_events.cpp:38-83 | nothing but the seven operators and the catch-all is in the table |
| TelemetryTotals.RecipeNamesOperatorsAlike | mutators/fuzzpilot/telemetry_ring.cpp:11-22 | recipe file and telemetry name an operator alike; the mutator reads the clone operator as a bit flip |
| TelemetryFlush.ParsedCountIsRunCount | mutators/fuzzpilot/telemetry_ring.cpp:85-120 | the parsed mutation count is the run's own if and only if all earlier flushes had none |
| RecipeText.ValidateStrategy | src/mutation/strategy.cpp:105-148 | there is no error exactly when the strategy is valid |
| RecipeText.TokensAllowed | src/mutation/strategy.cpp:132-146 | the longest token has 4096 characters, and line feed, carriage return and NUL are allowed in none |
| RecipeText.WriteCompactRecipeBody | src/mutation/recipe_store.cpp:74-92 | the written text is the lines of the body, in order; the mutator recovers a valid strategy from it if and only if its texts are clean |
| RecipeText.HeadLinesAre | src/mutation/recipe_store.cpp:74-79 | the first five lines, spelled out |
| RecipeText.BodyLinesAre | src/mutation/recipe_store.cpp:80-91 | the lines of operators, ranges and tokens, spelled out |
| RecipeText.ParseRecipeFile | mutators/fuzzpilot/recipe_cache.cpp:115-185 | the line loop computes the reading function; the fallback without a file |
| RecipeText.RangeReads | mutators/fuzzpilot/recipe_cache.cpp:29-41 | a written range is read back |
| RecipeText.WeightReads | mutators/fuzzpilot/recipe_cache.cpp:148-160 | a written operator line is read back, the controller's clone operator as a bit flip |
| RecipeText.DirectiveReads | mutators/fuzzpilot/recipe_cache.cpp:123-132 | a directive line gives its key and value back whatever the value holds, so no token is read as another directive |
| RecipeText.BlanksAreTrimmed | mutators/fuzzpilot/recipe_cache.cpp:122-131 | blanks around the line, the key and the value make no difference |
| RecipeText.NumbersAreRead | mutators/fuzzpilot/recipe_cache.cpp:140-151 | a number may be signed and followed by anything; a negative one wraps around in 64 bits |
| RecipeText.WeightDefaultsToOne | mutators/fuzzpilot/recipe_cache.cpp:152-163 | an operator without a weight, or with one that is no number, has weight 1 |
| RecipeText.BadNumberIsZero | mutators/fuzzpilot/recipe_cache.cpp:140-151 | a priority or time to live that is no number is 0 |
| RecipeText.EmptyFileReads | mutators/fuzzpilot/recipe_cache.cpp:115-185 | an empty file reads as the fallback recipe, global and flipping bits |
| RecipeText.ShortFieldReads | mutators/fuzzpilot/recipe_cache.cpp:92-113 | offset, size and kind alone give a big-endian field without a target |
| RecipeText.FlaggedFieldReads | mutators/fuzzpilot/recipe_cache.cpp:92-113 | a fourth piece sets the byte order, big-endian for `1` and `true` only; a fifth one alone is ignored |
| RecipeText.FullFieldReads | mutators/fuzzpilot/recipe_cache.cpp:92-113 | six pieces give a field with its target |
| RecipeText.FieldLineReads | mutators/fuzzpilot/recipe_cache.cpp:174-178 | a field line appends its field, and one of fewer than three pieces changes nothing |
| RecipeText.ReadTextsAreClean | mutators/fuzzpilot/recipe_cache.cpp:123-181 | from any file, id, selector and tokens come out without newlines and without blanks at the ends |
| RecipeText.ReadRecipeIsSound | mutators/fuzzpilot/recipe_cache.cpp:115-185 | from any file, the ranges come out non-empty and the weights a distribution |
| RecipeText.WrittenRecipeReads | src/mutation/recipe_store.cpp:74-92 | a valid, clean strategy is read back field by field: id, mode, the key from the field that the mode names, priority, ttl, operators in their proportions, ranges and tokens in order |
| RecipeText.RecoversExactlyCleanStrategies | src/mutation/recipe_store.cpp:74-92 | a valid strategy is read back as meant if and only if its id, the text its selector goes by and its tokens have no line end inside and no blank at either end |
| PlateauDetection.PlateauDetector.AddSample | src/plateau/detector.cpp:12-126 | an event exactly when there was none since the reset and the window is a plateau; in time order it spans exactly the configured window, without crashes and with few new paths |
| PlateauDetection.PlateauDetector.Slide | src/plateau/detector.cpp:19-23 | with samples in time order the window is exactly the samples at most the window older than the newest |
| PlateauDetection.PlateauDetector.WorstJumps | src/plateau/detector.cpp:61-73 | the largest steps in paths and edges between neighbours |
| PlateauDetection.PlateauDetector.Decide | src/plateau/detector.cpp:91-125 | the gate on the end points, and the report |
| PlateauDetection.PlateauDetector.Reset | src/plateau/detector.cpp:128-132 | the history and the count of events start over |
| PlateauDetection.PlateauMeans | src/plateau/detector.cpp:57-89 | in monotonic mode a plateau spans the window, leaves no recent sample out, and no step between neighbours gains too many paths |
| PlateauDetection.PlateauExactlyWhen | src/plateau/detector.cpp:32-109 | a window is a plateau if and only if it is covered, its newest sample is fresh, steps and ends are small and the last path is a window old, with sums of the samples' own counters in place of saturating differences |
| PlateauDetection.ReportExactlyWhen | src/plateau/detector.cpp:110-124 | the report gives the growth from oldest to newest sample and the reason that goes with it |
| PlateauDetection.RecentIsUnique | src/plateau/detector.cpp:19-23 | the samples determine the window |
| WinnerSelection.SelectMicroWinner | src/micro/evaluator.cpp:84-160 | names the first of the largest candidates, and selects it exactly when some candidate beats the best control by both margins and every other candidate by the peer margin |
| WinnerSelection.WinsExactlyWhen | src/micro/evaluator.cpp:150-158 | winning means to clear the fixed margin and the share of the control's reward and of the winner's own over the control, and the latter over every other candidate |
| WinnerSelection.RolesAre | src/micro/evaluator.cpp:95-133 | the last specification with a campaign's id says whether it is a control; a failed campaign is neither control nor candidate |
| WinnerSelection.UnknownIsCandidate | src/micro/evaluator.cpp:121-133 | a campaign without a specification is a candidate unless it failed |
| WinnerSelection.BestControl | src/micro/evaluator.cpp:100-119 | the largest control reward, 0 without a control, and the number of results that count |
| WinnerSelection.BestCandidate | src/micro/evaluator.cpp:121-148 | the first of the largest candidates, and the larger of the control and the other candidates |
| WinnerSelection.WinnerIsUnique | src/micro/evaluator.cpp:150-158 | with a non-negative margin at most one result wins |
| WinnerSelection.OrderDoesNotMatter | src/micro/evaluator.cpp:84-160 | whoever wins one listing of the results wins every other listing |
| WinnerSelection.ControlRewardIsUnique | src/micro/evaluator.cpp:100-115 | the control reward does not depend on the listing either |
| RewardTracking.RecipeRewardTracker.RecordDeploy | src/mutation/recipe_reward_tracker.cpp:15-33 | a new id is appended without credit, one deployed before changes nothing; index and positions stay one to one |
| RewardTracking.RecipeRewardTracker.ObserveEdges | src/mutation/recipe_reward_tracker.cpp:35-71 | with deploy times that never go back, exactly the decisions deployed at most the window before the observation gain equal shares of what it gained over the observation before, once each |
| RewardTracking.ObservationCredits | src/mutation/recipe_reward_tracker.cpp:35-71 | the same for the state after any history; the first observation, and one that gained nothing, credit nobody |
| RewardTracking.DeploymentAppends | src/mutation/recipe_reward_tracker.cpp:15-33 | after any history a deployment appends its decision exactly when its id was not deployed before |
| RewardTracking.RewardsAreGains | src/mutation/recipe_reward_tracker.cpp:35-71 | with deploy times that never go back, all rewards add up to the edges gained by the observations that came while some first deployment was in the window |
| RewardTracking.RecipeRewardTracker.Walk | src/mutation/recipe_reward_tracker.cpp:54-59 | the backward walk stops where the function on the decisions says |
| RewardTracking.RecipeRewardTracker.Share | src/mutation/recipe_reward_tracker.cpp:63-70 | exactly the decisions from the stop on get the share |
| RewardTracking.CreditIsConserved | src/mutation/recipe_reward_tracker.cpp:35-71 | over any history, in order or not, the rewards add up to the edges gained while the walk reached some decision |
| RewardTracking.WalkIsExactlyWhen | src/mutation/recipe_reward_tracker.cpp:50-59 | the walk picks exactly the decisions in the window if and only if those are the latest ones |
| RewardTracking.InOrderIsExact | src/mutation/recipe_reward_tracker.cpp:50-59 | with deploy times that never go back, that is always the case |

## Left out

- Ranges.ChooseFocusOffset: requires focus ranges that are not empty, as the reader guarantees (`RecipeText.ReadRecipeIsSound`), because the bumped end would otherwise wrap at 32 bits.
- Ranges.IsProtected: bisects as the usual libraries do; the language standard leaves `std::upper_bound` open on ranges that are not partitioned.
- Mutators.FpMutator.QueueGet: does not include the flush; what a flush appends is `TelemetryFlush.FlushText`.
- PlateauDetection.PlateauDetector.AddSample: does not model the wrap of the 64-bit product in the edge cap.
- RewardTracking.RecipeRewardTracker.RecordDeploy: does not model the mutex and the persisted reward log.
- RecipeCaching.RecipeCache.Load: takes the recipes as the loop over the index file leaves them; the file's own line format, the file-name check and a priority that does not parse are not modelled.
- RecipeText.WriteCompactRecipeBody: takes each operator weight as the text it is printed as; the reader of doubles is a parameter too.
- TelemetryLog.ParseIncremental: takes one content per read; a file that changes size while it is read, and failures to open or seek, are not modelled.
- JsonParsing.JsonParser.ParseString: always returns the decoded text, where the source may be given no place for it.
- InterventionParams.ParamsForIntervention: prints a finite priority from a real number, with ties in the seventh decimal rounded up and no negative zero.
- InterventionParams.GroupText: prints the object of a stage that has proposals; the other texts of the merged proposal and the dependencies between stages are not modelled.
- StructuralRepair.ProcessPacket: stops at the verdict of the gates.
- Rounding of doubles: weights, rewards, ranks and effect sizes are real numbers.
- Wrap-around of 64-bit counters: telemetry totals and edge counts are unbounded.
- Random numbers: every draw may be any value of its range.
- The file system, environment variables and modification times: contents are arguments, and a reload is a clearing followed by a load.
- Collisions of the seed hash: two inputs with one hash share a recipe, as in the source; inputs of one size that differ in a single byte never do (`SeedHashing.OneByteChangesKey`).
- std::sort, std::stable_sort and Python's sort: modelled by insertion, with the order they guarantee.
- The catch-all branch of the typed telemetry record: all seven operators have a slot.
- The p-value of the Mann-Whitney test: exact enumeration for small samples, the normal approximation otherwise.
- `evaluate_micro_result`: a straight sum of scores, and a random reward in one mode.
- `topk` and `bottomk` of the reward tracker: a sort and a cut of the decisions.
- `merge_tokens` of the micro manager: the same append-if-absent as for sources.
- `normalize_weights` of the controller: the same arithmetic as the mutator's, with equal weights in place of a bit flip.
- `lookup_compact_recipe` of the controller: it matches substrings where the mutator matches whole keys.
- The cooldown setting in the plateau configuration: the detector does not read it.
- Debug output, and the orchestration around these kernels: processes, agents, databases, reports.
