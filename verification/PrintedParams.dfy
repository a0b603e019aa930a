/**
  Objects that the micro manager prints by hand: names, strings escaped, numbers printed, earlier
  texts pasted in.  What the parser makes of them is worked out member by member.
 */
module PrintedParams {
  import opened Wrappers
  import opened JsonGrammar
  import opened JsonRecognizer
  import opened JsonMembers
  import opened JsonPrinters
  import opened JsonDepth
  import opened TextFormat

  // ---------- printed numbers ----------

  /** A double: a real number (whatever its rounding), an infinity or no number at all. */
  datatype Double = Finite(v: real) | Infinite(negative: bool) | NotANumber(negative: bool)

  /** The decimal digits of a number, as many as asked for. */
  function Digits(n: nat, k: nat): (s: string)
    ensures |s| == k && AllDigits(s)
  {
    if k == 0 then "" else Digits(n / 10, k - 1) + [('0' as int + n % 10) as char]
  }

  function Millionths(v: real): nat {
    ((if v < 0.0 then -v else v) * 1000000.0 + 0.5).Floor
  }

  /** A real number printed with six decimals. */
  function FixedNumeral(v: real): Numeral {
    Numeral(v < 0.0, Decimal(Millionths(v) / 1000000), Some(Digits(Millionths(v) % 1000000, 6)), None)
  }

  /** `std::to_string` of a double. */
  function DoubleText(d: Double): string {
    match d
    case Finite(v) => NumeralText(FixedNumeral(v))
    case Infinite(negative) => if negative then "-inf" else "inf"
    case NotANumber(negative) => if negative then "-nan" else "nan"
  }

  function WholeNumeral(i: int): Numeral {
    Numeral(i < 0, Decimal(if i < 0 then -i else i), None, None)
  }

  lemma {:induction false} NoLeadingZero(n: nat)
    ensures Decimal(n)[0] == '0' ==> n == 0 && |Decimal(n)| == 1
  {
    if n >= 10 {
      NoLeadingZero(n / 10);
      assert Decimal(n)[0] == Decimal(n / 10)[0];
    }
  }

  lemma PrintedNumeralsAreValid(i: int, v: real)
    ensures ValidNumeral(WholeNumeral(i)) && ValidNumeral(FixedNumeral(v))
  {
    NoLeadingZero(if i < 0 then -i else i);
    NoLeadingZero(Millionths(v) / 1000000);
  }

  function Power10(k: nat): nat { if k == 0 then 1 else 10 * Power10(k - 1) }

  lemma {:induction false} DigitsValue(n: nat, k: nat)
    requires n < Power10(k)
    ensures NumberOf(Digits(n, k)) == n
  {
    if k > 0 {
      DigitsValue(n / 10, k - 1);
      var s := Digits(n, k);
      assert s[..k - 1] == Digits(n / 10, k - 1);
    }
  }

  /** The number that a sign, a whole part and a fraction stand for, in units of the last of six decimals. */
  function InMillionths(n: Numeral): int
    requires AllDigits(n.whole) && n.frac.Some? && AllDigits(n.frac.value)
  {
    var digits := NumberOf(n.whole) * 1000000 + NumberOf(n.frac.value);
    if n.minus then -digits else digits
  }

  /** A double is printed with six decimals, at most half a millionth off, and with a minus exactly below 0. */
  lemma PrintedDoubleIsClose(v: real)
    ensures var n := FixedNumeral(v);
      && AllDigits(n.whole) && n.frac.Some? && |n.frac.value| == 6 && AllDigits(n.frac.value) && n.exp.None?
      && v * 1000000.0 - 0.5 <= InMillionths(n) as real <= v * 1000000.0 + 0.5
      && (n.minus <==> v < 0.0)
  {
    hide Decimal, Digits, NumberOf;
    var m := Millionths(v);
    assert Power10(3) == 1000;
    assert Power10(6) == 1000000;
    DigitsValue(m % 1000000, 6);
    DecimalValue(m / 1000000);
  }

  /** A whole number is printed as its decimal digits. */
  lemma PrintedWholeIsExact(i: int)
    ensures var n := WholeNumeral(i);
      && AllDigits(n.whole) && n.frac.None? && n.exp.None?
      && NumberOf(n.whole) == (if i < 0 then -i else i) && (n.minus <==> i < 0)
  {
    DecimalValue(if i < 0 then -i else i);
  }

  /** What is printed for an infinity or no number is refused wherever a value is expected. */
  lemma NotFiniteIsRefused(d: Double, room: nat, tail: string)
    requires !d.Finite?
    ensures ParseValue(DoubleText(d) + tail, room).None?
  {
    hide ParseString, ParseObject, ParseArray, ParseFraction, ParseExponent;
    var s := DoubleText(d) + tail;
    assert s[0] == DoubleText(d)[0] && s[1] == DoubleText(d)[1];
    assert SkipSpace(s) == s;
    if s[0] == '-' {
      assert s[1..][0] == s[1];
    }
  }

  // ---------- pieces ----------

  /** What is printed after a name. */
  datatype Piece =
    | Str(s: string)
    | Whole(i: int)
    | Real(d: Double)
    | Strs(vs: seq<string>)
    | Doc(doc: Document)
    | Docs(docs: List<Document>)

  function DocsText(docs: List<Document>): string {
    match docs
    case Nil => "]"
    case Cons(d, Nil) => DocumentText(d) + "]"
    case Cons(d, rest) => DocumentText(d) + ("," + DocsText(rest))
  }

  function PieceText(p: Piece): string {
    match p
    case Str(s) => StringText(EscapeItems(s))
    case Whole(i) => NumeralText(WholeNumeral(i))
    case Real(d) => DoubleText(d)
    case Strs(vs) => Text(StringArrayTree(vs))
    case Doc(doc) => DocumentText(doc)
    case Docs(docs) => "[" + DocsText(docs)
  }

  predicate ValidDocs(docs: List<Document>) {
    docs.Cons? ==> ValidDocument(docs.head) && ValidDocs(docs.tail)
  }

  predicate ValidPiece(p: Piece) {
    match p
    case Doc(doc) => ValidDocument(doc)
    case Docs(docs) => ValidDocs(docs)
    case _ => true
  }

  /** Not an infinity, and not a NaN. */
  predicate IsFinite(p: Piece) { p.Real? ==> p.d.Finite? }

  function DeepestDoc(docs: List<Document>): nat {
    if docs.Nil? then 0 else Max(Nesting(docs.head.value), DeepestDoc(docs.tail))
  }

  function PieceNesting(p: Piece): nat {
    match p
    case Strs(vs) => if vs == [] then 1 else 2
    case Doc(doc) => Nesting(doc.value)
    case Docs(docs) => 1 + DeepestDoc(docs)
    case _ => 1
  }

  function DocElements(docs: List<Document>): (es: Elements)
    requires docs.Cons? && ValidDocs(docs)
    ensures ValidElements(es) && ElementsNesting(es) == DeepestDoc(docs)
  {
    if docs.tail.Nil? then LastElement(docs.head.value, docs.head.after)
    else MoreElements(docs.head.value, docs.head.after, docs.tail.head.before, DocElements(docs.tail))
  }

  function PieceValue(p: Piece): (v: Value)
    requires ValidPiece(p) && IsFinite(p)
    ensures ValidValue(v) && Nesting(v) == PieceNesting(p)
  {
    match p
    case Str(s) => String(EscapeItems(s))
    case Whole(i) => PrintedNumeralsAreValid(i, 0.0); Number(WholeNumeral(i))
    case Real(d) => PrintedNumeralsAreValid(0, d.v); Number(FixedNumeral(d.v))
    case Strs(vs) => StringArrayTree(vs)
    case Doc(doc) => doc.value
    case Docs(docs) => if docs.Nil? then EmptyArray("") else Array(docs.head.before, DocElements(docs))
  }

  /** The white space that a pasted document brings along. */
  function Before(p: Piece): string { if p.Doc? then p.doc.before else "" }

  function After(p: Piece): string { if p.Doc? then p.doc.after else "" }

  lemma {:induction false} DocsTextIs(docs: List<Document>)
    requires docs.Cons? && ValidDocs(docs)
    ensures DocsText(docs) == docs.head.before + ElementsText(DocElements(docs))
  {
    var d := docs.head;
    if docs.tail.Nil? {
      Assoc4(d.before, Text(d.value), d.after, "]");
    } else {
      DocsTextIs(docs.tail);
      Assoc4(d.before, Text(d.value), d.after, "," + DocsText(docs.tail));
    }
  }

  lemma PieceTextIs(p: Piece)
    requires ValidPiece(p) && IsFinite(p)
    ensures PieceText(p) == Before(p) + (Text(PieceValue(p)) + After(p))
  {
    var text := Text(PieceValue(p));
    if p.Doc? {
      assert PieceText(p) == DocumentText(p.doc);
    } else {
      assert "" + (text + "") == text;
      if p.Docs? {
        if p.docs.Cons? {
          DocsTextIs(p.docs);
        } else {
          assert "" + "]" == "]";
        }
      }
    }
  }

  /** A piece is read, up to the white space behind it, exactly when it is finite and fits. */
  lemma PieceParses(p: Piece, room: nat, tail: string)
    requires ValidPiece(p) && tail != "" && Delimiter(tail[0])
    ensures ParseValue(PieceText(p) + tail, room) ==
            if IsFinite(p) && PieceNesting(p) <= room then Some(After(p) + tail) else None
    ensures IsFinite(p) ==> SkipSpace(PieceText(p) + tail) == Text(PieceValue(p)) + (After(p) + tail)
  {
    hide PieceText, PieceNesting, ParseValue, Nesting, Text, DoubleText;
    if IsFinite(p) {
      var v, after := PieceValue(p), After(p) + tail;
      PieceTextIs(p);
      PieceSpace(p);
      Assoc4(Before(p), Text(v), After(p), tail);
      assert (Before(p) + (Text(v) + After(p))) + tail == Before(p) + (Text(v) + after);
      SkipThenParse(Before(p), v, room, after);
      TextStart(v);
      SkipSpaceOver(Before(p), Text(v) + after);
      SpaceEndsNumber(After(p), tail);
      if Nesting(v) <= room {
        ValueComplete(v, room, after);
      } else {
        ValueTooDeep(v, room, after);
      }
    } else {
      NotFiniteIsRefused(p.d, room, tail);
      assert PieceText(p) == DoubleText(p.d) by { RealText(p.d); }
    }
  }

  lemma PieceSpace(p: Piece)
    requires ValidPiece(p)
    ensures AllSpace(Before(p)) && AllSpace(After(p))
  {
  }

  lemma RealText(d: Double)
    ensures PieceText(Real(d)) == DoubleText(d)
  {
  }

  // ---------- objects ----------

  datatype Param = Param(name: string, piece: Piece)

  function Labelled(name: string, text: string): string { "\"" + (name + ("\":" + text)) }

  /** The members up to and including the closing brace. */
  function ParamsText(ps: List<Param>): string {
    match ps
    case Nil => "}"
    case Cons(p, Nil) => Labelled(p.name, PieceText(p.piece)) + "}"
    case Cons(p, rest) => Labelled(p.name, PieceText(p.piece)) + ("," + ParamsText(rest))
  }

  function ObjectText(ps: List<Param>): string { "{" + ParamsText(ps) }

  /** A name that the escaper would leave as it is. */
  predicate UnescapedName(name: string) {
    forall i :: 0 <= i < |name| ==> name[i] as int >= 0x20 && name[i] != '"' && name[i] != '\\'
  }

  predicate ValidParams(ps: List<Param>) {
    ps.Cons? ==> UnescapedName(ps.head.name) && ValidPiece(ps.head.piece) && ValidParams(ps.tail)
  }

  predicate AllFinite(ps: List<Param>) { ps.Cons? ==> IsFinite(ps.head.piece) && AllFinite(ps.tail) }

  function Deepest(ps: List<Param>): nat {
    if ps.Nil? then 0 else Max(PieceNesting(ps.head.piece), Deepest(ps.tail))
  }

  lemma {:induction false} PlainEscapes(name: string)
    requires UnescapedName(name)
    ensures ItemsText(EscapeItems(name)) == name
  {
    if name != "" {
      PlainEscapes(name[1..]);
      assert ItemText(EscapeItem(name[0])) == [name[0]];
    }
  }

  /** A printed name and its colon are read as the name. */
  lemma NameParses(name: string, text: string)
    requires UnescapedName(name)
    ensures ParseKey(Labelled(name, text)) == GoodString(name, text)
  {
    hide ParseKey, EscapeItems, ItemsText;
    PlainEscapes(name);
    KeyComplete(EscapeItems(name), "", text);
    EscapeDecodes(name);
    LabelledShape(name, text);
  }

  lemma LabelledShape(name: string, text: string)
    ensures Labelled(name, text) == ("\"" + (name + "\"")) + ("" + (":" + text))
  {
    assert "\":" + text == "\"" + (":" + text);
    assert "" + (":" + text) == ":" + text;
    Assoc4("\"", name, "\"", ":" + text);
  }

  /** What follows the first parameter, when `rest` follows the object. */
  function Tail(ps: List<Param>, rest: string): string
    requires ps.Cons?
  {
    if ps.tail.Nil? then "}" + rest else "," + (ParamsText(ps.tail) + rest)
  }

  lemma ParamsSplit(ps: List<Param>, rest: string)
    requires ps.Cons?
    ensures ParamsText(ps) + rest == Labelled(ps.head.name, PieceText(ps.head.piece) + Tail(ps, rest))
  {
    hide PieceText, Labelled, ParamsText, Tail;
    var name, text := ps.head.name, PieceText(ps.head.piece);
    var close := if ps.tail.Nil? then "}" else "," + ParamsText(ps.tail);
    FirstParam(ps);
    CloseIsTail(ps, rest);
    LabelledAssoc(name, text, close, rest);
  }

  lemma FirstParam(ps: List<Param>)
    requires ps.Cons?
    ensures ParamsText(ps) ==
            Labelled(ps.head.name, PieceText(ps.head.piece)) + if ps.tail.Nil? then "}" else "," + ParamsText(ps.tail)
  {
    hide PieceText, Labelled;
  }

  lemma CloseIsTail(ps: List<Param>, rest: string)
    requires ps.Cons?
    ensures (if ps.tail.Nil? then "}" else "," + ParamsText(ps.tail)) + rest == Tail(ps, rest)
  {
    hide ParamsText;
    if ps.tail.Cons? {
      Assoc(",", ParamsText(ps.tail), rest);
    }
  }

  lemma LabelledAssoc(name: string, text: string, close: string, rest: string)
    ensures (Labelled(name, text) + close) + rest == Labelled(name, text + (close + rest))
  {
    Assoc(Labelled(name, text), close, rest);
    Assoc4("\"", name, "\":" + text, close + rest);
    Assoc("\":", text, close + rest);
  }

  /** One step of any loop over the members: name, value, and what comes next. */
  lemma ParamStep(ps: List<Param>, room: nat, rest: string)
    requires ps.Cons? && ValidParams(ps)
    ensures var s, p := ParamsText(ps) + rest, ps.head.piece;
      && s[0] == '"' && ParseKey(s) == GoodString(ps.head.name, PieceText(p) + Tail(ps, rest))
      && ParseValue(PieceText(p) + Tail(ps, rest), room) ==
           (if IsFinite(p) && PieceNesting(p) <= room then Some(After(p) + Tail(ps, rest)) else None)
      && SkipSpace(After(p) + Tail(ps, rest)) == Tail(ps, rest)
      && (IsFinite(p) ==> SkipSpace(PieceText(p) + Tail(ps, rest)) == Text(PieceValue(p)) + (After(p) + Tail(ps, rest)))
    ensures ps.tail.Cons? ==> SkipSpace(Tail(ps, rest)[1..]) == ParamsText(ps.tail) + rest
  {
    hide PieceText, ParseKey, ParseValue, PieceNesting;
    var p, tail := ps.head.piece, Tail(ps, rest);
    ParamsSplit(ps, rest);
    NameParses(ps.head.name, PieceText(p) + tail);
    PieceParses(p, room, tail);
    PieceSpace(p);
    SkipSpaceOver(After(p), tail);
    if ps.tail.Cons? {
      ParamsSplit(ps.tail, rest);
      assert tail[1..] == ParamsText(ps.tail) + rest;
      SkipSpaceOver("", ParamsText(ps.tail) + rest);
      assert "" + (ParamsText(ps.tail) + rest) == ParamsText(ps.tail) + rest;
    }
  }

  /** The members are consumed to the closing brace exactly when all numbers are finite and everything fits. */
  lemma {:induction false} ParamsParse(ps: List<Param>, room: nat, rest: string)
    requires ps.Cons? && ValidParams(ps)
    ensures ParseMembers(ParamsText(ps) + rest, room) ==
            if AllFinite(ps) && Deepest(ps) <= room then Some(rest) else None
    decreases ps
  {
    hide PieceText, ParseKey, ParseValue, PieceNesting, ParamsText, IsFinite;
    ParamStep(ps, room, rest);
    if ps.tail.Cons? {
      ParamsParse(ps.tail, room, rest);
    } else {
      assert Tail(ps, rest)[1..] == rest;
    }
  }

  /** As a value: one more level for the braces. */
  lemma ObjectParses(ps: List<Param>, room: nat)
    requires ps.Cons? && ValidParams(ps) && room > 0
    ensures SkipSpace(ObjectText(ps)) == ObjectText(ps) && Starts(ObjectText(ps), '{')
    ensures ParseValue(ObjectText(ps), room) == if AllFinite(ps) && Deepest(ps) <= room - 1 then Some("") else None
  {
    hide ParamsText, ParseMembers, AllFinite, Deepest, ValidParams, PieceText, Tail, After;
    hide ParseKey, ParseString, ParseNumber, ParseArray;
    var members := ParamsText(ps);
    ParamsParse(ps, room - 1, "");
    ParamStep(ps, room - 1, "");
    assert members + "" == members;
    SkipSpaceOver("", members);
    assert "" + members == members && ObjectText(ps)[1..] == members;
  }

  /**
    Whatever the strings hold, the printed object is accepted if and only if every number printed is
    finite and nothing in it nests more than 63 levels.
   */
  lemma AcceptedExactlyWhen(ps: List<Param>)
    requires ps.Cons? && ValidParams(ps)
    ensures IsDocument(ObjectText(ps)) <==> AllFinite(ps) && Deepest(ps) <= MAX_DEPTH - 1
  {
    hide ObjectText, ParseValue, IsDocument;
    ObjectParses(ps, MAX_DEPTH);
    RecognizesGrammar(ObjectText(ps));
  }

  // ---------- reading a parameter back ----------

  /** The first parameter with a name, unless one before it, or itself, cannot be read. */
  function Readable(ps: List<Param>, name: string): (r: Option<Piece>)
    ensures ValidParams(ps) && r.Some? ==> ValidPiece(r.value) && IsFinite(r.value)
  {
    if ps.Nil? || !IsFinite(ps.head.piece) || PieceNesting(ps.head.piece) > MAX_DEPTH then None
    else if ps.head.name == name then Some(ps.head.piece)
    else Readable(ps.tail, name)
  }

  lemma {:induction false} MemberReads(ps: List<Param>, name: string, rest: string)
    requires ps.Cons? && ValidParams(ps)
    ensures FindMember(ParamsText(ps) + rest, name) ==
            if Readable(ps, name).None? then None else Some(Text(PieceValue(Readable(ps, name).value)))
    decreases ps
  {
    hide PieceText, ParseKey, ParseValue, PieceNesting, ParamsText, IsFinite, Text, PieceValue;
    ParamStep(ps, MAX_DEPTH, rest);
    var p := ps.head.piece;
    var start := SkipSpace(PieceText(p) + Tail(ps, rest));
    SameAfterSpace(PieceText(p) + Tail(ps, rest));
    if IsFinite(p) {
      var text := Text(PieceValue(p));
      assert start[..|text|] == text;
    }
    if ps.tail.Cons? {
      MemberReads(ps.tail, name, rest);
    }
  }

  lemma SameAfterSpace(s: string)
    ensures ParseValue(SkipSpace(s), MAX_DEPTH) == ParseValue(s, MAX_DEPTH)
  {
    SkipSpaceIdempotent(s);
  }

  /** Extraction by name gives back exactly that parameter, and no string can pose as another one. */
  lemma ParamReads(ps: List<Param>, name: string)
    requires ps.Cons? && ValidParams(ps)
    ensures FindTopLevel(ObjectText(ps), name) ==
            if Readable(ps, name).None? then None else Some(Text(PieceValue(Readable(ps, name).value)))
  {
    hide ParamsText, FindMember, Readable, PieceValue, Text;
    var members := ParamsText(ps);
    MemberReads(ps, name, "");
    ParamStep(ps, 0, "");
    assert members + "" == members;
    SkipSpaceOver("", members);
    SkipSpaceOver("", ObjectText(ps));
    assert "" + members == members && "" + ObjectText(ps) == ObjectText(ps) && ObjectText(ps)[1..] == members;
  }

  /** A string parameter in particular is read back as it was. */
  lemma StringParamReads(ps: List<Param>, name: string)
    requires ps.Cons? && ValidParams(ps)
    requires Readable(ps, name).Some? && Readable(ps, name).value.Str?
    ensures var raw := FindTopLevel(ObjectText(ps), name);
            raw.Some? && ParseString(raw.value) == GoodString(Readable(ps, name).value.s, "")
  {
    hide FindTopLevel, ObjectText;
    ParamReads(ps, name);
    var s := Readable(ps, name).value.s;
    EscapeRoundTrip(s, "");
    assert StringText(EscapeItems(s)) + "" == StringText(EscapeItems(s));
  }

  // ---------- pasting into the next object ----------

  /** Pasting keeps a container as it is if and only if it is a document; otherwise it becomes one string. */
  lemma KeptExactlyWhen(s: string)
    requires LooksLikeContainer(s)
    ensures ValueOrRaw(s) == s <==> IsDocument(s)
  {
    hide IsDocument;
    RecognizesGrammar(s);
    ValueOrRawIsDocument(s);
  }

  /** Tabs, line feeds, carriage returns and spaces only. */
  predicate PlainWhiteSpace(s: string) { forall i :: 0 <= i < |s| ==> s[i] as int in [9, 10, 13, 32] }

  lemma {:induction false} PlainSpaceSkipped(before: string, rest: string)
    requires AllSpace(before) && rest != "" && !IsSpace(rest[0])
    ensures var t := SkipPlainSpace(before + rest);
      && t != ""
      && if PlainWhiteSpace(before) then t == rest else IsSpace(t[0])
    decreases |before|
  {
    if before == "" {
      assert before + rest == rest;
      assert !IsPlainSpace(rest[0]) by { PlainSpaces(rest[0]); }
    } else {
      var s := before + rest;
      PlainSpaces(before[0]);
      assert s[1..] == before[1..] + rest;
      PlainSpaceSkipped(before[1..], rest);
      assert PlainWhiteSpace(before) <==> IsPlainSpace(before[0]) && PlainWhiteSpace(before[1..]) by {
        assert forall i :: 0 < i < |before| ==> before[i] == before[1..][i - 1];
      }
    }
  }

  lemma PlainSpaces(c: char)
    ensures IsPlainSpace(c) <==> c as int in [9, 10, 13, 32]
    ensures IsPlainSpace(c) ==> IsSpace(c)
  {
  }

  /**
    A document is pasted in as it is if and only if the white space before it is that of the grammar
    of RFC 8259: the parser skips vertical tabs and form feeds as well, this function does not.
   */
  lemma DocumentKeptExactlyWhen(d: Document)
    requires ValidDocument(d)
    ensures ValueOrRaw(DocumentText(d)) == DocumentText(d) <==> PlainWhiteSpace(d.before)
  {
    hide IsDocument, Text, RawTree, SkipPlainSpace, ParsesAsDocument;
    var s, rest := DocumentText(d), Text(d.value) + d.after;
    TextStart(d.value);
    ContainerStarts(d.value);
    PlainSpaceSkipped(d.before, rest);
    RecognizesGrammar(s);
    assert IsDocument(s) by { IsItsDocument(d); }
    RawIsLonger(s);
  }

  lemma IsItsDocument(d: Document)
    requires ValidDocument(d)
    ensures IsDocument(DocumentText(d))
  {
  }

  lemma ContainerStarts(v: Value)
    requires v.Container?()
    ensures Text(v) != "" && (Text(v)[0] == '{' || Text(v)[0] == '[')
  {
  }

  lemma RawIsLonger(s: string)
    ensures |Text(RawTree(s))| > |s|
  {
    hide ItemsText, EscapeItems, Text, RawTree;
    RawTextIs(s);
    EscapeIsLonger(s);
  }

  lemma {:induction false} EscapeIsLonger(s: string)
    ensures |ItemsText(EscapeItems(s))| >= |s|
  {
    if s != "" {
      EscapeIsLonger(s[1..]);
    }
  }

  /** However an accepted object is read as a document, it nests one level more than its deepest parameter. */
  lemma ObjectNesting(ps: List<Param>, d: Document)
    requires ps.Cons? && ValidParams(ps)
    requires ValidDocument(d) && DocumentText(d) == ObjectText(ps)
    ensures Nesting(d.value) == 1 + Deepest(ps)
  {
    hide Deepest, AllFinite, ObjectText, ParseValue, Nesting, Text;
    var v := d.value;
    var n := Nesting(v);
    SomeNesting(v);
    TextStart(v);
    SkipSpaceOver(d.before, Text(v) + d.after);
    ObjectParses(ps, n);
    ValueComplete(v, n, d.after);
    if n > 1 {
      ObjectParses(ps, n - 1);
      ValueTooDeep(v, n - 1, d.after);
    }
  }

  lemma SomeNesting(v: Value)
    ensures Nesting(v) >= 1
  {
  }

  /**
    A printed object, pasted into the next one, adds one level to its deepest parameter as long as
    it is accepted; otherwise all of it collapses into a string two levels deep.
   */
  lemma PastedNesting(ps: List<Param>, d: Document)
    requires ps.Cons? && ValidParams(ps)
    requires ValidDocument(d) && DocumentText(d) == ValueOrRaw(ObjectText(ps))
    ensures Nesting(d.value) == if AllFinite(ps) && Deepest(ps) < MAX_DEPTH then 1 + Deepest(ps) else 2
  {
    hide ParamsText, Text, AllFinite, Deepest;
    var s := ObjectText(ps);
    assert LooksLikeContainer(s);
    KeptExactlyWhen(s);
    AcceptedExactlyWhen(ps);
    if IsDocument(s) {
      ObjectNesting(ps, d);
    } else {
      RecognizesGrammar(s);
      RawDocument(s, d);
    }
  }

  lemma RawDocument(s: string, d: Document)
    requires ValidDocument(d) && DocumentText(d) == Text(RawTree(s))
    ensures Nesting(d.value) == 2
  {
    hide Text;
    var plain := Document("", RawTree(s), "");
    assert DocumentText(plain) == Text(RawTree(s)) by { assert "" + (Text(RawTree(s)) + "") == Text(RawTree(s)); }
    RawIsContainer(s);
    SameTextSameNesting(plain, d);
  }

  lemma RawIsContainer(s: string)
    ensures RawTree(s).Container?()
  {
  }
}
