/**
  A proposal's way through the micro manager: its priority read, its text pasted into three objects
  one after the other, and what can still be read from the last one.
 */
module ProposalJourney {
  import opened Wrappers
  import opened JsonGrammar
  import opened JsonRecognizer
  import opened JsonMembers
  import opened JsonPrinters
  import opened PrintedParams
  import opened ProposalFields
  import opened InterventionParams
  import opened TextFormat
  import JsonParsing
  import S = JsonScanners

  // ---------- the priority ----------

  /** The reader of doubles, infinities and NaNs included, is a parameter. */
  type Stod = string -> Option<Double>

  /** A number member, quoted or not; the fallback when there is none or it does not parse. */
  function DoubleField(stod: Stod, s: string, key: string, fallback: Double): Double {
    var raw := FindTopLevel(s, key);
    if raw.None? then fallback else
    var t := Strip(IsSpace, raw.value);
    var d := stod(if IsQuoted(t) then StringField(s, key) else t);
    if d.None? then fallback else d.value
  }

  lemma {:induction false} EndsWithBracket(es: Elements)
    ensures Last(ElementsText(es)) == ']'
  {
    if es.MoreElements? {
      EndsWithBracket(es.rest);
      EndsLike(Text(es.value) + (es.ws + ("," + es.wsNext)), ElementsText(es.rest));
      assert ElementsText(es) == (Text(es.value) + (es.ws + ("," + es.wsNext))) + ElementsText(es.rest);
    } else {
      assert ElementsText(es) == (Text(es.value) + es.ws) + "]";
    }
  }

  lemma {:induction false} EndsWithBrace(ms: Members)
    ensures Last(MembersText(ms)) == '}'
  {
    if ms.MoreMembers? {
      EndsWithBrace(ms.rest);
      assert MembersText(ms) == (MemberText(ms.member) + (ms.ws + ("," + ms.wsNext))) + MembersText(ms.rest);
    } else {
      assert MembersText(ms) == (MemberText(ms.member) + ms.ws) + "}";
    }
  }

  function Last(s: string): char { if s == "" then ' ' else s[|s| - 1] }

  lemma EndsLike(a: string, b: string)
    requires Last(b) != ' '
    ensures Last(a + b) == Last(b)
  {
  }

  lemma DigitsEnd(ds: string)
    requires ds != "" && AllDigits(ds)
    ensures IsDigit(Last(ds))
  {
  }

  lemma EndsLikeLast(a: string, b: string, c: string)
    requires Last(c) != ' '
    ensures Last(a + (b + c)) == Last(c)
  {
    EndsLike(b, c);
    EndsLike(a, b + c);
  }

  lemma FractionEnds(n: Numeral)
    requires ValidNumeral(n)
    ensures IsDigit(Last(n.whole + FracText(n.frac)))
  {
    DigitsEnd(n.whole);
    if n.frac.Some? {
      DigitsEnd(n.frac.value);
      EndsLikeLast(n.whole, ".", n.frac.value);
    } else {
      assert n.whole + "" == n.whole;
    }
  }

  lemma NumeralEnds(n: Numeral)
    requires ValidNumeral(n)
    ensures IsDigit(Last(NumeralText(n)))
  {
    var sign, exp := if n.minus then "-" else "", ExpText(n.exp);
    FractionEnds(n);
    hide FracText;
    Assoc(n.whole, FracText(n.frac), exp);
    if n.exp.Some? {
      DigitsEnd(n.exp.value.digits);
      EndsLikeLast([n.exp.value.letter], n.exp.value.sign, n.exp.value.digits);
      EndsLike(n.whole + FracText(n.frac), exp);
    } else {
      assert (n.whole + FracText(n.frac)) + "" == n.whole + FracText(n.frac);
    }
    EndsLike(sign, (n.whole + FracText(n.frac)) + exp);
  }

  lemma TextEnds(v: Value)
    requires ValidValue(v)
    ensures !IsSpace(Last(Text(v)))
  {
    hide ElementsText, MembersText, NumeralText, ItemsText, Last;
    Closing();
    match v {
      case Number(n) => NumeralEnds(n);
      case String(items) => EndsLikeLast("\"", ItemsText(items), "\"");
      case EmptyArray(ws) => EndsLikeLast("[", ws, "]");
      case EmptyObject(ws) => EndsLikeLast("{", ws, "}");
      case Array(ws, es) =>
        EndsWithBracket(es);
        EndsLikeLast("[", ws, ElementsText(es));
      case Object(ws, ms) =>
        EndsWithBrace(ms);
        EndsLikeLast("{", ws, MembersText(ms));
      case _ =>
    }
  }

  lemma Closing()
    ensures Last("\"") == '"' && Last("]") == ']' && Last("}") == '}'
    ensures Last("true") == Last("false") == 'e' && Last("null") == 'l'
  {
  }

  /** The text of a value has no white space around it. */
  lemma NothingAround(v: Value)
    requires ValidValue(v)
    ensures Strip(IsSpace, Text(v)) == Text(v)
  {
    hide Text, Strip;
    TextStart(v);
    TextEnds(v);
    StripIsStripped(IsSpace, Text(v));
  }

  /**
    On an object, whatever follows it: a string member is hand-decoded and then read, any other
    member is read as it is written, and without the member the fallback is taken.
   */
  lemma DoubleFieldOfTree(stod: Stod, before: string, v: Value, key: string, rest: string, fallback: Double)
    requires AllSpace(before) && ValidTopLevel(v)
    ensures var member, d := Lookup(v, key), DoubleField(stod, before + (Text(v) + rest), key, fallback);
      if member.None? then d == fallback
      else
        var text := if member.value.String? then HandItems(member.value.items) else Text(member.value);
        d == if stod(text).Some? then stod(text).value else fallback
  {
    hide HandItems, FindTopLevel, Strip;
    FindTopLevelOfTree(before, v, key, rest);
    StringFieldOfTree(before, v, key, rest);
    if Lookup(v, key).Some? {
      var m := Lookup(v, key).value;
      NothingAround(m);
      if m.String? {
        QuotedAround(ItemsText(m.items));
      } else {
        OtherTextsAreNotQuoted(m);
      }
    }
  }

  lemma QuotedAround(s: string)
    ensures IsQuoted("\"" + (s + "\""))
  {
  }

  method ExtractJsonDoubleField(stod: Stod, objectJson: string, key: string, fallback: Double) returns (d: Double)
    ensures d == DoubleField(stod, objectJson, key, fallback)
  {
    hide FindTopLevel, StringField, Strip;
    var value := JsonParsing.ExtractTopLevelJsonValue(objectJson, key);
    if value.None? {
      return fallback;
    }
    var raw := Strip(IsSpace, value.value);
    if |raw| >= 2 && raw[0] == '"' && raw[|raw| - 1] == '"' {
      raw := ExtractJsonStringField(objectJson, key);
    }
    var parsed := stod(raw);
    d := if parsed.None? then fallback else parsed.value;
  }

  /** A string member read as a number: whatever the string says, as the hand decoder reads it. */
  lemma QuotedNumber(stod: Stod, ps: List<Param>, key: string, fallback: Double)
    requires ps.Cons? && ValidParams(ps)
    requires Readable(ps, key).Some? && Readable(ps, key).value.Str?
    ensures var d := stod(HandItems(EscapeItems(Readable(ps, key).value.s)));
            DoubleField(stod, ObjectText(ps), key, fallback) == if d.None? then fallback else d.value
  {
    hide FindTopLevel, ObjectText, HandItems, HandDecode, EscapeItems, Strip;
    ParamReads(ps, key);
    var items := EscapeItems(Readable(ps, key).value.s);
    var inside := ItemsText(items);
    var text := StringText(items);
    assert text[|text| - 1] == (inside + "\"")[|inside|] && text[1..|text| - 1] == inside;
    assert Strip(IsSpace, text) == text by { StripIsStripped(IsSpace, text); }
    HandDecodesItems(items);
  }

  const INFINITE_PROPOSAL: List<Param> :=
    Cons(Param("action", Str("x")), Cons(Param("priority", Str("inf")), Nil))

  /**
    `{"action":"x","priority":"inf"}`, two levels deep: the reader of doubles takes `inf` for an
    infinity, the printer prints it bare, and the parser refuses the result.
   */
  lemma InfinitePriorityExample(stod: Stod, o: Origin, stage: int, dependsOn: string, fallback: Double)
    requires stod("inf") == Some(Infinite(false))
    ensures ObjectText(INFINITE_PROPOSAL) == "{\"action\":\"x\",\"priority\":\"inf\"}"
    ensures var proposal := ObjectText(INFINITE_PROPOSAL);
            var priority := DoubleField(stod, proposal, "priority", fallback);
      && Nesting(PastedDoc(proposal).value) == 2 && priority == Infinite(false)
      && !IsDocument(ObjectText(ProposalParams(o, Link(stage, priority, dependsOn), PastedDoc(proposal))))
  {
    hide FindTopLevel, IsDocument, Nesting, PastedDoc, HandItems, DoubleField, ProposalParams, EscapeItems, ItemsText;
    var ps := INFINITE_PROPOSAL;
    InfiniteProposalIs();
    var d := PastedDoc(ObjectText(ps));
    PastedNesting(ps, d);
    QuotedNumber(stod, ps, "priority", fallback);
    HandReadsEscapesExactlyWhen("inf");
    ProposalObject(o, Link(stage, Infinite(false), dependsOn), d);
  }

  lemma InfiniteProposalIs()
    ensures var ps := INFINITE_PROPOSAL;
      && ValidParams(ps) && AllFinite(ps) && Deepest(ps) == 1 && Readable(ps, "priority") == Some(Str("inf"))
      && ObjectText(ps) == "{\"action\":\"x\",\"priority\":\"inf\"}"
  {
    hide UnescapedName, ValidParams, AllFinite, Deepest, Readable, ObjectText;
    var last := Cons(Param("priority", Str("inf")), Nil);
    LinkNames();
    GroupNames();
    NoParams();
    OneMoreParam("priority", Str("inf"), Nil);
    OneMoreParam("action", Str("x"), last);
    OneMoreName("priority", "priority", Str("inf"), Nil);
    OneMoreName("priority", "action", Str("x"), last);
    assert "action"[0] != "priority"[0];
    InfiniteProposalText();
  }

  lemma InfiniteProposalText()
    ensures ObjectText(INFINITE_PROPOSAL) == "{\"action\":\"x\",\"priority\":\"inf\"}"
  {
    hide PieceText, Labelled;
    PlainTexts();
    TwoMembers();
    var last := Cons(Param("priority", Str("inf")), Nil);
    assert ParamsText(last) == "\"priority\":\"inf\"}" by { PriorityText(); }
    assert Labelled("action", "\"x\"") == "\"action\":\"x\"" by { ActionText(); }
  }

  lemma PlainTexts()
    ensures PieceText(Str("x")) == "\"x\"" && PieceText(Str("inf")) == "\"inf\""
  {
    hide EscapeItems, ItemsText;
    PlainValues();
    PlainEscapes("x");
    PlainEscapes("inf");
  }

  lemma PriorityText()
    ensures Labelled("priority", "\"inf\"") + "}" == "\"priority\":\"inf\"}"
  {
  }

  lemma TwoMembers()
    ensures "{" + ("\"action\":\"x\"" + ("," + "\"priority\":\"inf\"}")) == "{\"action\":\"x\",\"priority\":\"inf\"}"
  {
  }

  lemma ActionText()
    ensures Labelled("action", "\"x\"") == "\"action\":\"x\""
  {
  }

  lemma PlainValues()
    ensures UnescapedName("x") && UnescapedName("inf")
  {
  }

  // ---------- the three objects, one in the other ----------

  /** Extraction sees through the white space around a pasted document. */
  lemma FindInPasted(s: string, name: string)
    ensures FindTopLevel(Text(PastedDoc(s).value), name) == FindTopLevel(ValueOrRaw(s), name)
  {
    hide ValueOrRaw, PastedDoc, FindTopLevel, Text;
    var d := PastedDoc(s);
    FindTopLevelOfTree(d.before, d.value, name, d.after);
    FindTopLevelOfTree("", d.value, name, "");
    assert "" + (Text(d.value) + "") == Text(d.value);
  }

  lemma FindInRaw(s: string, name: string)
    requires name != "raw"
    ensures FindTopLevel(Text(RawTree(s)), name) == None
  {
    hide FindTopLevel, Text;
    EscapeDecodes("raw");
    FindTopLevelOfTree("", RawTree(s), name, "");
    assert "" + (Text(RawTree(s)) + "") == Text(RawTree(s));
  }

  /** A pasted object can be read exactly when it was accepted; otherwise it is a string. */
  lemma PastedParamReads(ps: List<Param>, name: string)
    requires ps.Cons? && ValidParams(ps) && name != "raw"
    ensures FindTopLevel(Text(PastedDoc(ObjectText(ps)).value), name) ==
            if AllFinite(ps) && Deepest(ps) <= MAX_DEPTH - 1 then FindTopLevel(ObjectText(ps), name) else None
  {
    hide FindTopLevel, Text, ParamsText, AllFinite, Deepest, PastedDoc, RawTree;
    var s := ObjectText(ps);
    FindInPasted(s, name);
    assert LooksLikeContainer(s);
    KeptExactlyWhen(s);
    AcceptedExactlyWhen(ps);
    RecognizesGrammar(s);
    FindInRaw(s, name);
  }

  /**
    The campaign's object around a stage's object: refused exactly at one depth of contributions, as
    deeper ones make the stage's object collapse into a string first.
   */
  lemma CampaignAcceptedExactlyWhen(g: Group, docs: List<Document>, k: Link)
    requires ValidDocs(docs)
    ensures IsDocument(ObjectText(CampaignParams(PastedDoc(ObjectText(GroupParams(g, docs))), k))) <==>
            k.priority.Finite? && DeepestDoc(docs) != MAX_DEPTH - 2
  {
    hide IsDocument, ObjectText, PastedDoc, GroupParams, CampaignParams, Nesting, Deepest, AllFinite, ValidParams;
    hide DeepestDoc, ValidDocs, ValidDocument, DocumentText, ValueOrRaw;
    var ps := GroupParams(g, docs);
    assert ps.Cons? by { GroupIsSome(g, docs); }
    GroupParamsAre(g, docs);
    var d := PastedDoc(ObjectText(ps));
    PastedNesting(ps, d);
    CampaignObject(d, k);
  }

  lemma GroupIsSome(g: Group, docs: List<Document>)
    ensures GroupParams(g, docs).Cons?
  {
  }

  /** From the campaign's object back to the contributions: exactly when the stage's object was accepted. */
  lemma ContributionsReachedExactlyWhen(g: Group, docs: List<Document>, k: Link)
    requires ValidDocs(docs)
    ensures var outer := ObjectText(CampaignParams(PastedDoc(ObjectText(GroupParams(g, docs))), k));
            var inner := FindTopLevel(outer, "source_params");
      && inner.Some?
      && FindTopLevel(inner.value, "contributions") ==
           if DeepestDoc(docs) <= MAX_DEPTH - 2 then Some(Text(PieceValue(Docs(docs)))) else None
  {
    hide FindTopLevel, ObjectText, PastedDoc, GroupParams, CampaignParams, Deepest, AllFinite, ValidParams;
    hide Text, PieceValue, Readable, DeepestDoc;
    var ps := GroupParams(g, docs);
    assert ps.Cons? by { GroupIsSome(g, docs); }
    GroupParamsAre(g, docs);
    NamesDiffer();
    var d := PastedDoc(ObjectText(ps));
    CampaignObject(d, k);
    PastedParamReads(ps, "contributions");
    ParamReads(ps, "contributions");
    ContributionsAreReadable(g, docs);
  }

  /** What a reader gets back: the campaign's parameters, the contributions, the first of them, its proposal. */
  function Extracted(text: string): Option<string> {
    var inner := FindTopLevel(text, "source_params");
    if inner.None? then None else
    var contributions := FindTopLevel(inner.value, "contributions");
    if contributions.None? then None else
    var objects := S.Run(S.Splitter, S.IDLE, contributions.value).out;
    if objects == [] then None else FindTopLevel(objects[0], "proposal")
  }

  lemma PastedIsObject(s: string)
    requires Starts(s, '{')
    ensures PastedDoc(s).value.Object? || PastedDoc(s).value.EmptyObject?
  {
    hide PastedDoc, Text, RawTree;
    var d := PastedDoc(s);
    assert Starts(ValueOrRaw(s), '{') by { RawStarts(s); }
    assert SkipSpace(ValueOrRaw(s)) == ValueOrRaw(s);
    ObjectStep(d.before, d.value, d.after);
  }

  lemma RawStarts(s: string)
    ensures Starts(Text(RawTree(s)), '{')
  {
  }

  /** One contribution is cut out of its array whole. */
  lemma OneContribution(d: Document)
    requires ValidDocument(d) && (d.value.Object? || d.value.EmptyObject?)
    ensures ValidDocs(Cons(d, Nil))
    ensures S.Run(S.Splitter, S.IDLE, Text(PieceValue(Docs(Cons(d, Nil))))).out == [Text(d.value)]
  {
    hide S.Run, Text, ValidDocument;
    OneDoc(d);
    var v := PieceValue(Docs(Cons(d, Nil)));
    S.SplitsOuterObjects("", v, "");
    assert "" + (Text(v) + "") == Text(v);
    assert S.OuterObjects(v) == S.OuterObjects(d.value) + [] == [Text(d.value)];
  }

  /** The three texts. */
  ghost function First(o: Origin, k: Link, proposal: string): string {
    ObjectText(ProposalParams(o, k, PastedDoc(proposal)))
  }

  ghost function Second(g: Group, first: string): string {
    ObjectText(GroupParams(g, Cons(PastedDoc(first), Nil)))
  }

  ghost function Third(second: string, k: Link): string { ObjectText(CampaignParams(PastedDoc(second), k)) }

  lemma FirstNesting(o: Origin, k: Link, proposal: string)
    ensures var n := Nesting(PastedDoc(proposal).value);
            Nesting(PastedDoc(First(o, k, proposal)).value) == if k.priority.Finite? && n < MAX_DEPTH then 1 + n else 2
    ensures Starts(First(o, k, proposal), '{')
  {
    hide PastedDoc, ProposalParams, Nesting, AllFinite, Deepest, ValidParams, ParamsText;
    var d := PastedDoc(proposal);
    var ps := ProposalParams(o, k, d);
    assert ps.Cons? by { ProposalIsSome(o, k, d); }
    ProposalParamsAre(o, k, d);
    PastedNesting(ps, PastedDoc(ObjectText(ps)));
  }

  lemma ProposalIsSome(o: Origin, k: Link, d: Document)
    ensures ProposalParams(o, k, d).Cons?
  {
  }

  /**
    A single proposal that nests n levels, all the way: the last text is a document exactly when its
    own priority is finite and the proposal, if it came through with a finite priority, does not nest
    61 levels.  The proposal can be read from it exactly when its priority is finite and n is at most 61.
   */
  lemma ProposalSurvivesExactlyWhen(o: Origin, k1: Link, proposal: string, g: Group, k3: Link)
    ensures var d, third := PastedDoc(proposal), Third(Second(g, First(o, k1, proposal)), k3);
      && (IsDocument(third) <==>
            k3.priority.Finite? && !(k1.priority.Finite? && Nesting(d.value) == MAX_DEPTH - 3))
      && Extracted(third) ==
           if k1.priority.Finite? && Nesting(d.value) <= MAX_DEPTH - 3 then Some(Text(d.value)) else None
  {
    hide PastedDoc, ProposalParams, GroupParams, CampaignParams, ObjectText, Nesting, IsDocument;
    hide FindTopLevel, Text, PieceValue, S.Run;
    var first := First(o, k1, proposal);
    var docs := Cons(PastedDoc(first), Nil);
    OneDoc(PastedDoc(first));
    FirstNesting(o, k1, proposal);
    CampaignAcceptedExactlyWhen(g, docs, k3);
    ContributionsReachedExactlyWhen(g, docs, k3);
    PastedIsObject(first);
    OneContribution(PastedDoc(first));
    FirstReads(o, k1, proposal);
  }

  lemma OneDoc(d: Document)
    requires ValidDocument(d)
    ensures ValidDocs(Cons(d, Nil)) && DeepestDoc(Cons(d, Nil)) == Nesting(d.value)
  {
    hide Nesting, ValidDocument;
    assert DeepestDoc(Nil) == 0 && ValidDocs(Nil);
  }

  lemma FirstReads(o: Origin, k: Link, proposal: string)
    ensures var d := PastedDoc(proposal);
            FindTopLevel(Text(PastedDoc(First(o, k, proposal)).value), "proposal") ==
            if k.priority.Finite? && Nesting(d.value) <= MAX_DEPTH - 1 then Some(Text(d.value)) else None
  {
    hide PastedDoc, ProposalParams, Nesting, AllFinite, Deepest, ValidParams, ObjectText, FindTopLevel, Text;
    var d := PastedDoc(proposal);
    var ps := ProposalParams(o, k, d);
    assert ps.Cons? by { ProposalIsSome(o, k, d); }
    NamesDiffer();
    ProposalParamsAre(o, k, d);
    PastedParamReads(ps, "proposal");
    ProposalObject(o, k, d);
  }
}
