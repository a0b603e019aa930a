/**
  The three parameter objects that the micro manager wraps around a proposal, one inside the other:
  the proposal with its origin, the proposals of a stage, and the planned campaign.
 */
module InterventionParams {
  import opened Wrappers
  import opened JsonGrammar
  import opened JsonRecognizer
  import opened JsonMembers
  import opened JsonPrinters
  import opened PrintedParams
  import opened ProposalFields
  import opened TextFormat
  import JsonParsing
  import JsonScanners

  // ---------- the three objects ----------

  /** Where a proposal comes from. */
  datatype Origin = Origin(decisionId: string, agent: string, index: nat)

  /** Where it stands in the plan. */
  datatype Link = Link(stage: int, priority: Double, dependsOn: string)

  /** The proposals of a stage together. */
  datatype Group = Group(stage: int, action: string, agents: seq<string>, decisions: seq<string>)

  function LinkParams(k: Link, rest: List<Param>): List<Param> {
    Cons(Param("spiral_stage", Whole(k.stage)),
    Cons(Param("priority", Real(k.priority)),
    Cons(Param("depends_on_intervention_id", Str(k.dependsOn)), rest)))
  }

  function ProposalParams(o: Origin, k: Link, d: Document): List<Param> {
    Cons(Param("source_decision_id", Str(o.decisionId)),
    Cons(Param("source_agent", Str(o.agent)),
    Cons(Param("intervention_index", Whole(o.index)),
    LinkParams(k, Cons(Param("proposal", Doc(d)), Nil)))))
  }

  function GroupParams(g: Group, docs: List<Document>): List<Param> {
    Cons(Param("aggregation", Str("spiral_stage")),
    Cons(Param("spiral_stage", Whole(g.stage)),
    Cons(Param("action", Str(g.action)),
    Cons(Param("source_agents", Strs(g.agents)),
    Cons(Param("source_decision_ids", Strs(g.decisions)),
    Cons(Param("contributions", Docs(docs)), Nil))))))
  }

  function CampaignParams(d: Document, k: Link): List<Param> {
    Cons(Param("source_params", Doc(d)), LinkParams(k, Nil))
  }

  // ---------- their names and depths ----------

  lemma LinkNames()
    ensures UnescapedName("spiral_stage") && UnescapedName("priority") && UnescapedName("depends_on_intervention_id")
  {
  }

  lemma ProposalNames()
    ensures UnescapedName("source_decision_id") && UnescapedName("source_agent")
    ensures UnescapedName("intervention_index") && UnescapedName("proposal") && UnescapedName("source_params")
  {
  }

  lemma GroupNames()
    ensures UnescapedName("aggregation") && UnescapedName("action") && UnescapedName("source_agents")
    ensures UnescapedName("source_decision_ids") && UnescapedName("contributions")
  {
  }

  lemma NoParams()
    ensures ValidParams(Nil) && AllFinite(Nil) && Deepest(Nil) == 0
  {
  }

  lemma OneMoreParam(name: string, piece: Piece, rest: List<Param>)
    requires UnescapedName(name) && ValidPiece(piece) && ValidParams(rest)
    ensures var ps := Cons(Param(name, piece), rest);
      && ValidParams(ps) && Deepest(ps) == Max(PieceNesting(piece), Deepest(rest))
      && (AllFinite(ps) <==> IsFinite(piece) && AllFinite(rest))
  {
  }

  /** Which parameter comes next when looking for a name. */
  lemma OneMoreName(name: string, p: string, piece: Piece, rest: List<Param>)
    ensures var found := Readable(Cons(Param(p, piece), rest), name);
      if !IsFinite(piece) || PieceNesting(piece) > MAX_DEPTH then found == None
      else if p == name then found == Some(piece) else found == Readable(rest, name)
  {
  }

  lemma LinkParamsAre(k: Link, rest: List<Param>)
    requires ValidParams(rest)
    ensures var ps := LinkParams(k, rest);
      && ps.Cons? && ValidParams(ps) && Deepest(ps) == Max(1, Deepest(rest))
      && (AllFinite(ps) <==> k.priority.Finite? && AllFinite(rest))
  {
    hide UnescapedName, ValidParams, Deepest, AllFinite;
    LinkNames();
    var r1 := Cons(Param("depends_on_intervention_id", Str(k.dependsOn)), rest);
    var r2 := Cons(Param("priority", Real(k.priority)), r1);
    OneMoreParam("depends_on_intervention_id", Str(k.dependsOn), rest);
    OneMoreParam("priority", Real(k.priority), r1);
    OneMoreParam("spiral_stage", Whole(k.stage), r2);
  }

  /** The proposal's object nests as deep as the proposal. */
  lemma ProposalParamsAre(o: Origin, k: Link, d: Document)
    requires ValidDocument(d)
    ensures var ps := ProposalParams(o, k, d);
      && ValidParams(ps) && Deepest(ps) == Nesting(d.value) && (AllFinite(ps) <==> k.priority.Finite?)
  {
    hide UnescapedName, ValidParams, Deepest, AllFinite, ValidDocument, Nesting, LinkParams;
    ProposalNames();
    NoParams();
    SomeNesting(d.value);
    var last := Cons(Param("proposal", Doc(d)), Nil);
    OneMoreParam("proposal", Doc(d), Nil);
    LinkParamsAre(k, last);
    var r1 := LinkParams(k, last);
    var r2 := Cons(Param("intervention_index", Whole(o.index)), r1);
    OneMoreParam("intervention_index", Whole(o.index), r1);
    OneMoreParam("source_agent", Str(o.agent), r2);
    OneMoreParam("source_decision_id", Str(o.decisionId), Cons(Param("source_agent", Str(o.agent)), r2));
  }

  /** Two levels more than the deepest contribution, give or take the lists of sources. */
  lemma GroupParamsAre(g: Group, docs: List<Document>)
    requires ValidDocs(docs)
    ensures var ps := GroupParams(g, docs);
      && ValidParams(ps) && AllFinite(ps)
      && 1 + DeepestDoc(docs) <= Deepest(ps) <= Max(2, 1 + DeepestDoc(docs))
  {
    hide UnescapedName, ValidParams, Deepest, AllFinite, ValidDocs, DeepestDoc;
    GroupNames();
    LinkNames();
    NoParams();
    var r1 := Cons(Param("contributions", Docs(docs)), Nil);
    var r2 := Cons(Param("source_decision_ids", Strs(g.decisions)), r1);
    var r3 := Cons(Param("source_agents", Strs(g.agents)), r2);
    var r4 := Cons(Param("action", Str(g.action)), r3);
    var r5 := Cons(Param("spiral_stage", Whole(g.stage)), r4);
    OneMoreParam("contributions", Docs(docs), Nil);
    OneMoreParam("source_decision_ids", Strs(g.decisions), r1);
    OneMoreParam("source_agents", Strs(g.agents), r2);
    OneMoreParam("action", Str(g.action), r3);
    OneMoreParam("spiral_stage", Whole(g.stage), r4);
    OneMoreParam("aggregation", Str("spiral_stage"), r5);
  }

  lemma CampaignParamsAre(d: Document, k: Link)
    requires ValidDocument(d)
    ensures var ps := CampaignParams(d, k);
      && ValidParams(ps) && Deepest(ps) == Nesting(d.value) && (AllFinite(ps) <==> k.priority.Finite?)
      && Readable(ps, "source_params") == Some(Doc(d))
  {
    hide UnescapedName, ValidParams, Deepest, AllFinite, Nesting, LinkParams, Readable;
    ProposalNames();
    NoParams();
    SomeNesting(d.value);
    LinkParamsAre(k, Nil);
    OneMoreParam("source_params", Doc(d), LinkParams(k, Nil));
    OneMoreName("source_params", "source_params", Doc(d), LinkParams(k, Nil));
  }

  lemma NamesDiffer()
    ensures "proposal" !in ["source_decision_id", "source_agent", "intervention_index"]
    ensures "proposal" !in ["spiral_stage", "priority", "depends_on_intervention_id"]
    ensures "contributions" !in ["aggregation", "spiral_stage", "action", "source_agents", "source_decision_ids"]
    ensures "contributions" != "raw" && "proposal" != "raw"
  {
    assert "proposal"[1] == 'r' && "priority"[1] == 'r' && "proposal"[2] == 'o' && "priority"[2] == 'i';
    assert "proposal"[0] == 'p' && "source_decision_id"[0] == "source_agent"[0] == "spiral_stage"[0] == 's';
    assert "intervention_index"[0] == 'i' && "depends_on_intervention_id"[0] == 'd';
    assert "contributions"[0] == 'c' && "aggregation"[0] == "action"[0] == 'a';
    assert "source_agents"[0] == "source_decision_ids"[0] == 's';
  }

  /** The proposal comes after the priority, and is lost with it. */
  lemma ProposalIsReadable(o: Origin, k: Link, d: Document)
    requires ValidDocument(d)
    ensures Readable(ProposalParams(o, k, d), "proposal") == if k.priority.Finite? then Some(Doc(d)) else None
  {
    hide Readable, ValidDocument;
    NamesDiffer();
    var last := Cons(Param("proposal", Doc(d)), Nil);
    var r1 := Cons(Param("depends_on_intervention_id", Str(k.dependsOn)), last);
    var r2 := Cons(Param("priority", Real(k.priority)), r1);
    var r3 := Cons(Param("spiral_stage", Whole(k.stage)), r2);
    var r4 := Cons(Param("intervention_index", Whole(o.index)), r3);
    var r5 := Cons(Param("source_agent", Str(o.agent)), r4);
    DocumentFits(d);
    OneMoreName("proposal", "proposal", Doc(d), Nil);
    OneMoreName("proposal", "depends_on_intervention_id", Str(k.dependsOn), last);
    OneMoreName("proposal", "priority", Real(k.priority), r1);
    OneMoreName("proposal", "spiral_stage", Whole(k.stage), r2);
    OneMoreName("proposal", "intervention_index", Whole(o.index), r3);
    OneMoreName("proposal", "source_agent", Str(o.agent), r4);
    OneMoreName("proposal", "source_decision_id", Str(o.decisionId), r5);
  }

  lemma DocumentFits(d: Document)
    requires ValidDocument(d)
    ensures PieceNesting(Doc(d)) <= MAX_DEPTH
  {
  }

  lemma ContributionsAreReadable(g: Group, docs: List<Document>)
    ensures Readable(GroupParams(g, docs), "contributions") ==
            if DeepestDoc(docs) <= MAX_DEPTH - 1 then Some(Docs(docs)) else None
  {
    hide Readable, DeepestDoc;
    NamesDiffer();
    var r1 := Cons(Param("contributions", Docs(docs)), Nil);
    var r2 := Cons(Param("source_decision_ids", Strs(g.decisions)), r1);
    var r3 := Cons(Param("source_agents", Strs(g.agents)), r2);
    var r4 := Cons(Param("action", Str(g.action)), r3);
    var r5 := Cons(Param("spiral_stage", Whole(g.stage)), r4);
    OneMoreName("contributions", "contributions", Docs(docs), Nil);
    OneMoreName("contributions", "source_decision_ids", Strs(g.decisions), r1);
    OneMoreName("contributions", "source_agents", Strs(g.agents), r2);
    OneMoreName("contributions", "action", Str(g.action), r3);
    OneMoreName("contributions", "spiral_stage", Whole(g.stage), r4);
    OneMoreName("contributions", "aggregation", Str("spiral_stage"), r5);
  }

  // ---------- pasting ----------

  /** The document that a text is. */
  ghost function DocumentOf(s: string): (d: Document)
    requires IsDocument(s)
    ensures ValidDocument(d) && DocumentText(d) == s
  {
    var d :| ValidDocument(d) && DocumentText(d) == s;
    d
  }

  /** What pasting a text puts in. */
  ghost function PastedDoc(s: string): (d: Document)
    ensures ValidDocument(d) && DocumentText(d) == ValueOrRaw(s)
  {
    ValueOrRawIsDocument(s);
    DocumentOf(ValueOrRaw(s))
  }

  // ---------- the printing code ----------

  function InQuotes(escaped: string): string { "\"" + (escaped + "\"") }

  /** The members that two of the objects share, and what follows them. */
  method LinkText(k: Link, after: string, ghost rest: List<Param>) returns (out: string)
    requires after == if rest.Nil? then "}" else "," + ParamsText(rest)
    ensures out == ParamsText(LinkParams(k, rest))
  {
    hide NumeralText, EscapeItems, ItemsText;
    var escaped := JsonEscape(k.dependsOn);
    out := Labelled("depends_on_intervention_id", InQuotes(escaped)) + after;
    ghost var r1 := Cons(Param("depends_on_intervention_id", Str(k.dependsOn)), rest);
    assert out == ParamsText(r1);
    out := Labelled("priority", DoubleText(k.priority)) + ("," + out);
    ghost var r2 := Cons(Param("priority", Real(k.priority)), r1);
    assert out == ParamsText(r2);
    out := Labelled("spiral_stage", NumeralText(WholeNumeral(k.stage))) + ("," + out);
  }

  /**
    The proposal is pasted in as it is if it is a document, and as one string otherwise.  The result
    is a document exactly when the priority is finite and what was pasted in has a level to spare;
    extraction gives it back exactly when the priority is finite.
   */
  method ParamsForIntervention(o: Origin, k: Link, proposal: string) returns (out: string)
    ensures out == ObjectText(ProposalParams(o, k, PastedDoc(proposal)))
    ensures IsDocument(out) <==> k.priority.Finite? && Nesting(PastedDoc(proposal).value) <= MAX_DEPTH - 1
    ensures FindTopLevel(out, "proposal") ==
            if k.priority.Finite? then Some(Text(PastedDoc(proposal).value)) else None
  {
    hide NumeralText, DoubleText, EscapeItems, ItemsText, ValueOrRaw, LinkParams, PastedDoc;
    hide FindTopLevel, IsDocument, ValidDocument;
    ghost var d := PastedDoc(proposal);
    var pasted := JsonValueOrRaw(proposal);
    var decision := JsonEscape(o.decisionId);
    var source := JsonEscape(o.agent);
    ghost var last := Cons(Param("proposal", Doc(d)), Nil);
    out := LinkText(k, "," + (Labelled("proposal", pasted) + "}"), last);
    ghost var r1 := LinkParams(k, last);
    assert r1.Cons? by { LinkParamsAreSome(k, last); }
    out := Labelled("intervention_index", NumeralText(WholeNumeral(o.index))) + ("," + out);
    ghost var r2 := Cons(Param("intervention_index", Whole(o.index)), r1);
    assert out == ParamsText(r2);
    out := Labelled("source_agent", InQuotes(source)) + ("," + out);
    ghost var r3 := Cons(Param("source_agent", Str(o.agent)), r2);
    assert out == ParamsText(r3);
    out := "{" + (Labelled("source_decision_id", InQuotes(decision)) + ("," + out));
    ProposalObject(o, k, d);
  }

  lemma LinkParamsAreSome(k: Link, rest: List<Param>)
    ensures LinkParams(k, rest).Cons?
  {
  }

  lemma ProposalObject(o: Origin, k: Link, d: Document)
    requires ValidDocument(d)
    ensures var out := ObjectText(ProposalParams(o, k, d));
      && (IsDocument(out) <==> k.priority.Finite? && Nesting(d.value) <= MAX_DEPTH - 1)
      && FindTopLevel(out, "proposal") == (if k.priority.Finite? then Some(Text(d.value)) else None)
  {
    hide ValidParams, Deepest, AllFinite, Nesting, Readable, FindTopLevel, IsDocument, ObjectText, Text;
    ProposalParamsAre(o, k, d);
    ProposalIsReadable(o, k, d);
    AcceptedExactlyWhen(ProposalParams(o, k, d));
    ParamReads(ProposalParams(o, k, d), "proposal");
  }

  /**
    The same for a planned campaign around its own parameters; these come before the priority, so
    extraction gives them back in any case.
   */
  method CampaignText(params: string, k: Link) returns (out: string)
    ensures out == ObjectText(CampaignParams(PastedDoc(params), k))
    ensures IsDocument(out) <==> k.priority.Finite? && Nesting(PastedDoc(params).value) <= MAX_DEPTH - 1
    ensures FindTopLevel(out, "source_params") == Some(Text(PastedDoc(params).value))
  {
    hide NumeralText, DoubleText, EscapeItems, ItemsText, ValueOrRaw, LinkParams, PastedDoc;
    hide FindTopLevel, IsDocument, ValidDocument;
    ghost var d := PastedDoc(params);
    var pasted := JsonValueOrRaw(params);
    var linkText := LinkText(k, "}", Nil);
    LinkParamsAreSome(k, Nil);
    out := "{" + (Labelled("source_params", pasted) + ("," + linkText));
    CampaignObject(d, k);
  }

  lemma CampaignObject(d: Document, k: Link)
    requires ValidDocument(d)
    ensures var out := ObjectText(CampaignParams(d, k));
      && (IsDocument(out) <==> k.priority.Finite? && Nesting(d.value) <= MAX_DEPTH - 1)
      && FindTopLevel(out, "source_params") == Some(Text(d.value))
  {
    hide ValidParams, Deepest, AllFinite, Nesting, Readable, FindTopLevel, IsDocument, ObjectText, Text;
    CampaignParamsAre(d, k);
    AcceptedExactlyWhen(CampaignParams(d, k));
    ParamReads(CampaignParams(d, k), "source_params");
  }

  // ---------- what else can be read from the objects ----------

  ghost predicate ReadsText(s: string, name: string, text: string) {
    var raw := FindTopLevel(s, name);
    raw.Some? && ParseString(raw.value) == GoodString(text, "")
  }

  ghost predicate ReadsNumber(s: string, name: string, i: int) {
    FindTopLevel(s, name) == Some(NumeralText(WholeNumeral(i)))
  }

  lemma StrReads(ps: List<Param>, name: string, text: string)
    requires ps.Cons? && ValidParams(ps) && Readable(ps, name) == Some(Str(text))
    ensures ReadsText(ObjectText(ps), name, text)
  {
    hide FindTopLevel, ObjectText, Readable, ValidParams, ParseString;
    StringParamReads(ps, name);
  }

  lemma WholeReads(ps: List<Param>, name: string, i: int)
    requires ps.Cons? && ValidParams(ps) && Readable(ps, name) == Some(Whole(i))
    ensures ReadsNumber(ObjectText(ps), name, i)
  {
    hide FindTopLevel, ObjectText, Readable, ValidParams;
    ParamReads(ps, name);
  }

  lemma RealReads(ps: List<Param>, name: string, d: Double)
    requires ps.Cons? && ValidParams(ps) && d.Finite? && Readable(ps, name) == Some(Real(d))
    ensures FindTopLevel(ObjectText(ps), name) == Some(DoubleText(d))
  {
    hide FindTopLevel, ObjectText, Readable, ValidParams;
    ParamReads(ps, name);
  }

  lemma StrsRead(ps: List<Param>, name: string, vs: seq<string>)
    requires ps.Cons? && ValidParams(ps) && Readable(ps, name) == Some(Strs(vs))
    ensures StringArrayField(ObjectText(ps), name) == vs
  {
    hide FindTopLevel, ObjectText, Readable, ValidParams, StringArray, StringArrayTree, Text;
    ParamReads(ps, name);
    StringArrayRoundTrip(vs);
  }

  lemma LinkNamesDiffer()
    ensures "spiral_stage" != "priority" && "spiral_stage" != "depends_on_intervention_id"
    ensures "priority" != "depends_on_intervention_id"
  {
    assert "spiral_stage"[0] == 's' && "priority"[0] == 'p' && "depends_on_intervention_id"[0] == 'd';
  }

  lemma OriginNamesDiffer()
    ensures "source_agent" != "source_decision_id"
    ensures "intervention_index" !in ["source_decision_id", "source_agent"]
    ensures forall name :: name in ["spiral_stage", "priority", "depends_on_intervention_id"] ==>
      name !in ["source_decision_id", "source_agent", "intervention_index"]
  {
    assert "source_decision_id"[7] == 'd' && "source_agent"[7] == 'a' && "intervention_index"[0] == 'i';
    assert "source_decision_id"[1] == "source_agent"[1] == 'o' && "spiral_stage"[1] == 'p';
    assert "source_decision_id"[0] == "source_agent"[0] == 's' && "priority"[0] == 'p';
    assert "depends_on_intervention_id"[0] == 'd';
  }

  /** Reading what is printed of a link, whatever follows it. */
  lemma LinkReadable(k: Link, rest: List<Param>)
    ensures var ps := LinkParams(k, rest);
      && Readable(ps, "spiral_stage") == Some(Whole(k.stage))
      && (k.priority.Finite? ==>
            && Readable(ps, "priority") == Some(Real(k.priority))
            && Readable(ps, "depends_on_intervention_id") == Some(Str(k.dependsOn)))
  {
    hide Readable;
    LinkNamesDiffer();
    var r1 := Cons(Param("depends_on_intervention_id", Str(k.dependsOn)), rest);
    var r2 := Cons(Param("priority", Real(k.priority)), r1);
    OneMoreName("spiral_stage", "spiral_stage", Whole(k.stage), r2);
    OneMoreName("priority", "spiral_stage", Whole(k.stage), r2);
    OneMoreName("priority", "priority", Real(k.priority), r1);
    OneMoreName("depends_on_intervention_id", "spiral_stage", Whole(k.stage), r2);
    OneMoreName("depends_on_intervention_id", "priority", Real(k.priority), r1);
    OneMoreName("depends_on_intervention_id", "depends_on_intervention_id", Str(k.dependsOn), rest);
  }

  lemma SkipOrigin(o: Origin, name: string, rest: List<Param>)
    requires name !in ["source_decision_id", "source_agent", "intervention_index"]
    ensures Readable(OriginParams(o, rest), name) == Readable(rest, name)
  {
    hide Readable;
    var r1 := Cons(Param("intervention_index", Whole(o.index)), rest);
    var r2 := Cons(Param("source_agent", Str(o.agent)), r1);
    OneMoreName(name, "intervention_index", Whole(o.index), rest);
    OneMoreName(name, "source_agent", Str(o.agent), r1);
    OneMoreName(name, "source_decision_id", Str(o.decisionId), r2);
  }

  function OriginParams(o: Origin, rest: List<Param>): List<Param> {
    Cons(Param("source_decision_id", Str(o.decisionId)),
    Cons(Param("source_agent", Str(o.agent)),
    Cons(Param("intervention_index", Whole(o.index)), rest)))
  }

  lemma OriginReadable(o: Origin, rest: List<Param>)
    ensures var ps := OriginParams(o, rest);
      && Readable(ps, "source_decision_id") == Some(Str(o.decisionId))
      && Readable(ps, "source_agent") == Some(Str(o.agent))
      && Readable(ps, "intervention_index") == Some(Whole(o.index))
  {
    hide Readable;
    OriginNamesDiffer();
    var r1 := Cons(Param("intervention_index", Whole(o.index)), rest);
    var r2 := Cons(Param("source_agent", Str(o.agent)), r1);
    OneMoreName("source_decision_id", "source_decision_id", Str(o.decisionId), r2);
    OneMoreName("source_agent", "source_decision_id", Str(o.decisionId), r2);
    OneMoreName("source_agent", "source_agent", Str(o.agent), r1);
    OneMoreName("intervention_index", "source_decision_id", Str(o.decisionId), r2);
    OneMoreName("intervention_index", "source_agent", Str(o.agent), r1);
    OneMoreName("intervention_index", "intervention_index", Whole(o.index), rest);
  }

  /** Every member of a proposal's object is read back under its name; the last two come after the priority. */
  lemma ProposalMembersRead(o: Origin, k: Link, d: Document)
    requires ValidDocument(d)
    ensures var out := ObjectText(ProposalParams(o, k, d));
      && ReadsText(out, "source_decision_id", o.decisionId)
      && ReadsText(out, "source_agent", o.agent)
      && ReadsNumber(out, "intervention_index", o.index)
      && ReadsNumber(out, "spiral_stage", k.stage)
      && (k.priority.Finite? ==>
            && FindTopLevel(out, "priority") == Some(DoubleText(k.priority))
            && ReadsText(out, "depends_on_intervention_id", k.dependsOn))
  {
    hide Readable, ObjectText, ValidParams, ValidDocument, LinkParams, ReadsText, ReadsNumber, FindTopLevel, DoubleText;
    hide OriginParams;
    var last := Cons(Param("proposal", Doc(d)), Nil);
    var link := LinkParams(k, last);
    var ps := OriginParams(o, link);
    assert ProposalParams(o, k, d) == ps by { ProposalStartsWithOrigin(o, k, d); }
    ProposalParamsAre(o, k, d);
    OriginNamesDiffer();
    OriginReadable(o, link);
    LinkReadable(k, last);
    SkipOrigin(o, "spiral_stage", link);
    assert ps.Cons? by { ProposalStartsWithOrigin(o, k, d); }
    StrReads(ps, "source_decision_id", o.decisionId);
    StrReads(ps, "source_agent", o.agent);
    WholeReads(ps, "intervention_index", o.index);
    WholeReads(ps, "spiral_stage", k.stage);
    if k.priority.Finite? {
      SkipOrigin(o, "priority", link);
      SkipOrigin(o, "depends_on_intervention_id", link);
      RealReads(ps, "priority", k.priority);
      StrReads(ps, "depends_on_intervention_id", k.dependsOn);
    }
  }

  lemma ProposalStartsWithOrigin(o: Origin, k: Link, d: Document)
    ensures ProposalParams(o, k, d) == OriginParams(o, LinkParams(k, Cons(Param("proposal", Doc(d)), Nil)))
    ensures ProposalParams(o, k, d).Cons?
  {
  }

  /** The same for a planned campaign. */
  lemma CampaignMembersRead(d: Document, k: Link)
    requires ValidDocument(d)
    ensures var out := ObjectText(CampaignParams(d, k));
      && ReadsNumber(out, "spiral_stage", k.stage)
      && (k.priority.Finite? ==>
            && FindTopLevel(out, "priority") == Some(DoubleText(k.priority))
            && ReadsText(out, "depends_on_intervention_id", k.dependsOn))
  {
    hide Readable, ObjectText, ValidParams, ValidDocument, LinkParams, ReadsText, ReadsNumber, FindTopLevel, DoubleText;
    var link := LinkParams(k, Nil);
    var ps := CampaignParams(d, k);
    CampaignParamsAre(d, k);
    LinkReadable(k, Nil);
    DocumentFits(d);
    CampaignNameDiffers();
    OneMoreName("spiral_stage", "source_params", Doc(d), link);
    WholeReads(ps, "spiral_stage", k.stage);
    if k.priority.Finite? {
      OneMoreName("priority", "source_params", Doc(d), link);
      OneMoreName("depends_on_intervention_id", "source_params", Doc(d), link);
      RealReads(ps, "priority", k.priority);
      StrReads(ps, "depends_on_intervention_id", k.dependsOn);
    }
  }

  lemma CampaignNameDiffers()
    ensures "source_params" !in ["spiral_stage", "priority", "depends_on_intervention_id"]
  {
    assert "source_params"[0] == 's' && "source_params"[1] == 'o' && "spiral_stage"[1] == 'p';
    assert "priority"[0] == 'p' && "depends_on_intervention_id"[0] == 'd';
  }

  /** And for the object of a stage, up to its contributions. */
  lemma GroupMembersRead(g: Group, docs: List<Document>)
    requires ValidDocs(docs)
    ensures var out := ObjectText(GroupParams(g, docs));
      && ReadsText(out, "aggregation", "spiral_stage")
      && ReadsNumber(out, "spiral_stage", g.stage)
      && ReadsText(out, "action", g.action)
      && StringArrayField(out, "source_agents") == g.agents
      && StringArrayField(out, "source_decision_ids") == g.decisions
  {
    hide Readable, ObjectText, ValidParams, ValidDocs, ReadsText, ReadsNumber, StringArrayField;
    var ps := GroupParams(g, docs);
    GroupParamsAre(g, docs);
    GroupReadable(g, docs);
    OneMoreName("aggregation", "aggregation", Str("spiral_stage"), ps.tail);
    StrReads(ps, "aggregation", "spiral_stage");
    WholeReads(ps, "spiral_stage", g.stage);
    StrReads(ps, "action", g.action);
    StrsRead(ps, "source_agents", g.agents);
    StrsRead(ps, "source_decision_ids", g.decisions);
  }

  lemma GroupNamesDiffer()
    ensures "aggregation" !in ["spiral_stage", "action", "source_agents", "source_decision_ids"]
    ensures "spiral_stage" !in ["action", "source_agents", "source_decision_ids"]
    ensures "action" !in ["source_agents", "source_decision_ids"] && "source_agents" != "source_decision_ids"
  {
    assert "aggregation"[0] == "action"[0] == 'a' && "aggregation"[1] == 'g' && "action"[1] == 'c';
    assert "spiral_stage"[0] == "source_agents"[0] == "source_decision_ids"[0] == 's' && "spiral_stage"[1] == 'p';
    assert "source_agents"[1] == "source_decision_ids"[1] == 'o';
    assert "source_agents"[7] == 'a' && "source_decision_ids"[7] == 'd';
  }

  lemma GroupReadable(g: Group, docs: List<Document>)
    ensures var ps := GroupParams(g, docs);
      && Readable(ps, "spiral_stage") == Some(Whole(g.stage)) && Readable(ps, "action") == Some(Str(g.action))
      && Readable(ps, "source_agents") == Some(Strs(g.agents))
      && Readable(ps, "source_decision_ids") == Some(Strs(g.decisions))
  {
    hide Readable;
    GroupNamesDiffer();
    var r1 := Cons(Param("contributions", Docs(docs)), Nil);
    var r2 := Cons(Param("source_decision_ids", Strs(g.decisions)), r1);
    var r3 := Cons(Param("source_agents", Strs(g.agents)), r2);
    var r4 := Cons(Param("action", Str(g.action)), r3);
    var r5 := Cons(Param("spiral_stage", Whole(g.stage)), r4);
    forall name | name in ["spiral_stage", "action", "source_agents", "source_decision_ids"]
      ensures Readable(GroupParams(g, docs), name) == Readable(r5, name)
    {
      OneMoreName(name, "aggregation", Str("spiral_stage"), r5);
    }
    OneMoreName("spiral_stage", "spiral_stage", Whole(g.stage), r4);
    OneMoreName("action", "spiral_stage", Whole(g.stage), r4);
    OneMoreName("action", "action", Str(g.action), r3);
    OneMoreName("source_agents", "spiral_stage", Whole(g.stage), r4);
    OneMoreName("source_agents", "action", Str(g.action), r3);
    OneMoreName("source_agents", "source_agents", Strs(g.agents), r2);
    OneMoreName("source_decision_ids", "spiral_stage", Whole(g.stage), r4);
    OneMoreName("source_decision_ids", "action", Str(g.action), r3);
    OneMoreName("source_decision_ids", "source_agents", Strs(g.agents), r2);
    OneMoreName("source_decision_ids", "source_decision_ids", Strs(g.decisions), r1);
  }

  // ---------- the proposals of a stage ----------

  /** What the merging loop takes from a proposal. */
  datatype Contribution =
    Contribution(agent: string, decisionId: string, tokens: seq<string>, priority: Double, params: string)

  function AppendUnique(vs: seq<string>, v: string): seq<string> { if v == "" || v in vs then vs else vs + [v] }

  /** The names appended one after the other, in order of first appearance. */
  function AppendAll(vs: seq<string>, names: seq<string>): seq<string> {
    if names == [] then vs else AppendUnique(AppendAll(vs, names[..|names| - 1]), names[|names| - 1])
  }

  function AgentNames(inputs: seq<Contribution>): seq<string> {
    seq(|inputs|, i requires 0 <= i < |inputs| => inputs[i].agent)
  }

  function DecisionIds(inputs: seq<Contribution>): seq<string> {
    seq(|inputs|, i requires 0 <= i < |inputs| => inputs[i].decisionId)
  }

  function AllTokens(inputs: seq<Contribution>): seq<string> {
    if inputs == [] then [] else AllTokens(inputs[..|inputs| - 1]) + inputs[|inputs| - 1].tokens
  }

  /** The comparison of doubles: nothing exceeds a NaN, and a NaN exceeds nothing. */
  predicate Exceeds(a: Double, b: Double) {
    match a
    case Finite(v) => if b.Finite? then v > b.v else b == Infinite(true)
    case Infinite(negative) => !negative && (b.Finite? || b == Infinite(true))
    case NotANumber(_) => false
  }

  function Largest(start: Double, inputs: seq<Contribution>): Double {
    if inputs == [] then start else
    var before, p := Largest(start, inputs[..|inputs| - 1]), inputs[|inputs| - 1].priority;
    if Exceeds(p, before) then p else before
  }

  function Pasted(inputs: seq<Contribution>): seq<string> {
    if inputs == [] then [] else
    var last := inputs[|inputs| - 1];
    Pasted(inputs[..|inputs| - 1]) + if last.params == "" then [] else [ValueOrRaw(last.params)]
  }

  /** Every name appears once, no empty name is added, and names keep the order in which they first came. */
  lemma {:induction false} AppendAllMeans(vs: seq<string>, names: seq<string>)
    requires forall i, j :: 0 <= i < j < |vs| ==> vs[i] != vs[j]
    ensures var all := AppendAll(vs, names);
      && (forall i, j :: 0 <= i < j < |all| ==> all[i] != all[j])
      && (forall v :: v in all <==> v in vs || (v != "" && v in names))
    ensures forall k :: 0 <= k <= |names| ==> AppendAll(vs, names[..k]) <= AppendAll(vs, names)
  {
    if names != [] {
      var n := |names| - 1;
      AppendAllMeans(vs, names[..n]);
      assert names == names[..n] + [names[n]];
      forall k | 0 <= k <= |names|
        ensures AppendAll(vs, names[..k]) <= AppendAll(vs, names)
      {
        if k <= n {
          assert names[..k] == names[..n][..k];
        } else {
          assert names[..k] == names;
        }
      }
    } else {
      assert names[..0] == names;
    }
  }

  /** The sources of a stage are the agents and decisions of its proposals, without repeats and empty names. */
  lemma SourcesAre(inputs: seq<Contribution>, name: string)
    ensures name in AppendAll([], AgentNames(inputs)) <==>
            name != "" && exists i :: 0 <= i < |inputs| && inputs[i].agent == name
    ensures name in AppendAll([], DecisionIds(inputs)) <==>
            name != "" && exists i :: 0 <= i < |inputs| && inputs[i].decisionId == name
  {
    AppendAllMeans([], AgentNames(inputs));
    AppendAllMeans([], DecisionIds(inputs));
    if i :| 0 <= i < |inputs| && inputs[i].agent == name {
      assert AgentNames(inputs)[i] == name;
    }
    if i :| 0 <= i < |inputs| && inputs[i].decisionId == name {
      assert DecisionIds(inputs)[i] == name;
    }
  }

  /** The merged tokens are those it started with and those of the proposals. */
  lemma {:induction false} TokensAre(inputs: seq<Contribution>, token: string)
    ensures token in AllTokens(inputs) <==> exists i :: 0 <= i < |inputs| && token in inputs[i].tokens
  {
    if inputs != [] {
      var n := |inputs| - 1;
      TokensAre(inputs[..n], token);
      if i :| 0 <= i < n && token in inputs[..n][i].tokens {
        assert token in inputs[i].tokens;
      }
      if i :| 0 <= i < n && token in inputs[i].tokens {
        assert token in inputs[..n][i].tokens;
      }
    }
  }

  /** What is pasted keeps the order of the proposals, one text for each that has parameters. */
  lemma {:induction false} PastedInOrder(a: seq<Contribution>, b: seq<Contribution>, c: Contribution)
    ensures Pasted(a + b) == Pasted(a) + Pasted(b)
    ensures Pasted([c]) == if c.params == "" then [] else [ValueOrRaw(c.params)]
    decreases |b|
  {
    hide ValueOrRaw;
    assert [c][..0] == [];
    if b == [] {
      assert a + b == a;
    } else {
      var n := |b| - 1;
      assert (a + b)[..|a + b| - 1] == a + b[..n];
      PastedInOrder(a, b[..n], c);
    }
  }

  /** Reals by size between the infinities, and a NaN beside them all. */
  lemma ExceedsMeans(a: Double, b: Double, x: real, y: real)
    ensures Exceeds(Finite(x), Finite(y)) <==> x > y
    ensures Exceeds(Infinite(false), Finite(y)) && Exceeds(Finite(x), Infinite(true))
    ensures Exceeds(Infinite(false), Infinite(true))
    ensures !Exceeds(a, Infinite(false)) && !Exceeds(Infinite(true), b)
    ensures a.NotANumber? || b.NotANumber? ==> !Exceeds(a, b)
  {
  }

  lemma {:induction false} AppendMore(vs: seq<string>, a: seq<string>, b: seq<string>)
    ensures AppendAll(vs, a + b) == AppendAll(AppendAll(vs, a), b)
  {
    if b == [] {
      assert a + b == a;
    } else {
      var n := |b| - 1;
      assert (a + b)[..|a| + n] == a + b[..n];
      AppendMore(vs, a, b[..n]);
    }
  }

  /** The merged priority is one of those given, and none given exceeds it. */
  lemma {:induction false} LargestMeans(start: Double, inputs: seq<Contribution>)
    ensures var p := Largest(start, inputs);
      && (p == start || exists i :: 0 <= i < |inputs| && inputs[i].priority == p)
      && !Exceeds(start, p) && forall i :: 0 <= i < |inputs| ==> !Exceeds(inputs[i].priority, p)
  {
    if inputs != [] {
      var n := |inputs| - 1;
      LargestMeans(start, inputs[..n]);
      forall i | 0 <= i < n
        ensures !Exceeds(inputs[i].priority, Largest(start, inputs))
      {
        assert inputs[..n][i] == inputs[i];
      }
    }
  }

  function DocTexts(docs: List<Document>): seq<string> {
    match docs
    case Nil => []
    case Cons(d, rest) => [DocumentText(d)] + DocTexts(rest)
  }

  ghost function DocumentsOf(texts: seq<string>): (docs: List<Document>)
    requires forall i :: 0 <= i < |texts| ==> IsDocument(texts[i])
    ensures ValidDocs(docs) && DocTexts(docs) == texts
  {
    if texts == [] then Nil else Cons(DocumentOf(texts[0]), DocumentsOf(texts[1..]))
  }

  ghost function PastedDocs(inputs: seq<Contribution>): (docs: List<Document>)
    ensures ValidDocs(docs) && DocTexts(docs) == Pasted(inputs)
  {
    PastedAreDocuments(inputs);
    DocumentsOf(Pasted(inputs))
  }

  lemma {:induction false} PastedAreDocuments(inputs: seq<Contribution>)
    ensures forall i :: 0 <= i < |Pasted(inputs)| ==> IsDocument(Pasted(inputs)[i])
  {
    hide IsDocument, ValueOrRaw;
    if inputs != [] {
      PastedAreDocuments(inputs[..|inputs| - 1]);
      ValueOrRawIsDocument(inputs[|inputs| - 1].params);
    }
  }

  lemma {:induction false} RemainingIsDocs(docs: List<Document>)
    ensures Remaining(DocTexts(docs), true) == DocsText(docs)
    ensures docs.Cons? ==> Remaining(DocTexts(docs), false) == "," + DocsText(docs)
    decreases docs
  {
    hide DocumentText;
    if docs.Cons? {
      RemainingIsDocs(docs.tail);
      assert DocTexts(docs)[1..] == DocTexts(docs.tail);
      var t := DocumentText(docs.head) + Remaining(DocTexts(docs.tail), false);
      assert "" + t == t;
    }
  }

  method PasteAll(texts: seq<string>) returns (out: string)
    ensures out == "[" + Remaining(texts, true)
  {
    hide Remaining;
    out := "[";
    for i := 0 to |texts|
      invariant out + Remaining(texts[i..], i == 0) == "[" + Remaining(texts, true)
    {
      OneMoreText(out, texts, i);
      ghost var comma := out + (if i == 0 then "" else ",");
      if i != 0 {
        out := out + ",";
      }
      assert out == comma;
      out := out + texts[i];
    }
    NothingRemains(texts[|texts|..]);
    out := out + "]";
  }

  /** The loop over the proposals of a stage. */
  method Collect(inputs: seq<Contribution>, startTokens: seq<string>, startPriority: Double)
    returns (agents: seq<string>, decisions: seq<string>, tokens: seq<string>, priority: Double, texts: seq<string>)
    ensures agents == AppendAll([], AgentNames(inputs)) && decisions == AppendAll([], DecisionIds(inputs))
    ensures tokens == AppendAll(startTokens, AllTokens(inputs)) && priority == Largest(startPriority, inputs)
    ensures texts == Pasted(inputs)
  {
    hide ValueOrRaw, AppendUnique, IsDocument, Exceeds;
    agents, decisions, tokens, priority, texts := [], [], startTokens, startPriority, [];
    for i := 0 to |inputs|
      invariant agents == AppendAll([], AgentNames(inputs[..i])) && decisions == AppendAll([], DecisionIds(inputs[..i]))
      invariant tokens == AppendAll(startTokens, AllTokens(inputs[..i])) &&
        priority == Largest(startPriority, inputs[..i])
      invariant texts == Pasted(inputs[..i])
    {
      assert inputs[..i + 1][..i] == inputs[..i];
      assert AgentNames(inputs[..i + 1])[..i] == AgentNames(inputs[..i]);
      assert DecisionIds(inputs[..i + 1])[..i] == DecisionIds(inputs[..i]);
      agents := AppendUnique(agents, inputs[i].agent);
      decisions := AppendUnique(decisions, inputs[i].decisionId);
      AppendMore(startTokens, AllTokens(inputs[..i]), inputs[i].tokens);
      tokens := AppendTokens(tokens, inputs[i].tokens);
      if Exceeds(inputs[i].priority, priority) {
        priority := inputs[i].priority;
      }
      if inputs[i].params != "" {
        var text := JsonValueOrRaw(inputs[i].params);
        texts := texts + [text];
      }
    }
    assert inputs[..|inputs|] == inputs;
  }

  method AppendTokens(before: seq<string>, tokens: seq<string>) returns (all: seq<string>)
    ensures all == AppendAll(before, tokens)
  {
    all := before;
    for i := 0 to |tokens|
      invariant all == AppendAll(before, tokens[..i])
    {
      assert tokens[..i + 1][..i] == tokens[..i];
      all := AppendUnique(all, tokens[i]);
    }
    assert tokens[..|tokens|] == tokens;
  }

  /**
    A stage's object, from what the loop collected.  It is a document exactly when every contribution
    has two levels to spare.
   */
  method GroupText(g: Group, inputs: seq<Contribution>, texts: seq<string>) returns (out: string)
    requires texts == Pasted(inputs)
    ensures out == ObjectText(GroupParams(g, PastedDocs(inputs)))
    ensures IsDocument(out) <==> DeepestDoc(PastedDocs(inputs)) <= MAX_DEPTH - 2
  {
    hide NumeralText, EscapeItems, ItemsText, IsDocument, Pasted, PastedDocs, StringArrayTree, DocsText, Text;
    ghost var docs := PastedDocs(inputs);
    var pasted := PasteAll(texts);
    RemainingIsDocs(docs);
    out := Labelled("contributions", pasted) + "}";
    ghost var r1 := Cons(Param("contributions", Docs(docs)), Nil);
    assert out == ParamsText(r1);
    var decisionsText := JsonStringArray(g.decisions);
    out := Labelled("source_decision_ids", decisionsText) + ("," + out);
    ghost var r2 := Cons(Param("source_decision_ids", Strs(g.decisions)), r1);
    assert out == ParamsText(r2);
    var agentsText := JsonStringArray(g.agents);
    out := Labelled("source_agents", agentsText) + ("," + out);
    ghost var r3 := Cons(Param("source_agents", Strs(g.agents)), r2);
    assert out == ParamsText(r3);
    var actionText := JsonEscape(g.action);
    out := Labelled("action", InQuotes(actionText)) + ("," + out);
    ghost var r4 := Cons(Param("action", Str(g.action)), r3);
    assert out == ParamsText(r4);
    out := Labelled("spiral_stage", NumeralText(WholeNumeral(g.stage))) + ("," + out);
    ghost var r5 := Cons(Param("spiral_stage", Whole(g.stage)), r4);
    assert out == ParamsText(r5);
    AggregationText();
    out := "{" + (Labelled("aggregation", InQuotes("spiral_stage")) + ("," + out));
    GroupObject(g, docs);
  }

  lemma GroupObject(g: Group, docs: List<Document>)
    requires ValidDocs(docs)
    ensures IsDocument(ObjectText(GroupParams(g, docs))) <==> DeepestDoc(docs) <= MAX_DEPTH - 2
  {
    hide ValidParams, Deepest, AllFinite, DeepestDoc, IsDocument, ObjectText;
    GroupParamsAre(g, docs);
    AcceptedExactlyWhen(GroupParams(g, docs));
  }

  lemma AggregationText()
    ensures PieceText(Str("spiral_stage")) == InQuotes("spiral_stage")
  {
    LinkNames();
    PlainEscapes("spiral_stage");
  }
}
