/**
  The JSON language that `JsonParser` recognises, as concrete syntax trees.

  The grammar is that of RFC 8259, sections 2 to 7, with the two deviations of the source:
  white space is C `isspace`, and a document is an object or an array.  The depth cap is the
  separate function `Nesting`.  Bytes are the characters 0..255.
 */
module JsonGrammar {
  import opened Wrappers

  predicate IsSpace(c: char) { c == ' ' || '\t' <= c <= '\r' }

  predicate IsDigit(c: char) { '0' <= c <= '9' }

  predicate IsHexDigit(c: char) { '0' <= c <= '9' || 'a' <= c <= 'f' || 'A' <= c <= 'F' }

  function HexValue(c: char): (v: nat)
    requires IsHexDigit(c)
    ensures v < 16
  {
    if '0' <= c <= '9' then c as int - '0' as int
    else if 'a' <= c <= 'f' then 10 + (c as int - 'a' as int)
    else 10 + (c as int - 'A' as int)
  }

  predicate AllSpace(s: string) { forall i :: 0 <= i < |s| ==> IsSpace(s[i]) }

  predicate AllDigits(s: string) { forall i :: 0 <= i < |s| ==> IsDigit(s[i]) }

  // ---------- strings (section 7) ----------

  datatype Item =
    | Plain(c: char)
    | Escaped(e: char)
    | Unicode(h0: char, h1: char, h2: char, h3: char)

  predicate ValidItem(i: Item) {
    match i
    case Plain(c) => c as int >= 0x20 && c != '"' && c != '\\'
    case Escaped(e) => e in "\"\\/bfnrt"
    case Unicode(h0, h1, h2, h3) => IsHexDigit(h0) && IsHexDigit(h1) && IsHexDigit(h2) && IsHexDigit(h3)
  }

  function ItemText(i: Item): string {
    match i
    case Plain(c) => [c]
    case Escaped(e) => ['\\', e]
    case Unicode(h0, h1, h2, h3) => ['\\', 'u', h0, h1, h2, h3]
  }

  /** The character that an escape letter stands for. */
  function Unescape(e: char): char {
    if e == 'b' then 8 as char
    else if e == 'f' then 12 as char
    else if e == 'n' then '\n'
    else if e == 'r' then '\r'
    else if e == 't' then '\t'
    else e
  }

  /** Code points above 0x7f decode to a question mark: the source keeps one byte per escape. */
  function UnicodeChar(h0: char, h1: char, h2: char, h3: char): char
    requires IsHexDigit(h0) && IsHexDigit(h1) && IsHexDigit(h2) && IsHexDigit(h3)
  {
    var codepoint := ((HexValue(h0) * 16 + HexValue(h1)) * 16 + HexValue(h2)) * 16 + HexValue(h3);
    if codepoint <= 0x7f then codepoint as char else '?'
  }

  function DecodeItem(i: Item): char
    requires ValidItem(i)
  {
    match i
    case Plain(c) => c
    case Escaped(e) => Unescape(e)
    case Unicode(h0, h1, h2, h3) => UnicodeChar(h0, h1, h2, h3)
  }

  predicate ValidItems(items: List<Item>) {
    items.Cons? ==> ValidItem(items.head) && ValidItems(items.tail)
  }

  function Decode(items: List<Item>): string
    requires ValidItems(items)
  {
    match items
    case Nil => ""
    case Cons(i, rest) => [DecodeItem(i)] + Decode(rest)
  }

  function ItemsText(items: List<Item>): string {
    match items
    case Nil => ""
    case Cons(i, rest) => ItemText(i) + ItemsText(rest)
  }

  function StringText(items: List<Item>): string { "\"" + (ItemsText(items) + "\"") }

  // ---------- numbers (section 6) ----------

  datatype Exponent = Exponent(letter: char, sign: string, digits: string)

  datatype Numeral = Numeral(minus: bool, whole: string, frac: Option<string>, exp: Option<Exponent>)

  predicate ValidNumeral(n: Numeral) {
    && n.whole != "" && AllDigits(n.whole) && (n.whole[0] == '0' ==> |n.whole| == 1)
    && (n.frac.Some? ==> n.frac.value != "" && AllDigits(n.frac.value))
    && (n.exp.Some? ==>
          && n.exp.value.letter in "eE"
          && n.exp.value.sign in {"", "+", "-"}
          && n.exp.value.digits != "" && AllDigits(n.exp.value.digits))
  }

  function FracText(frac: Option<string>): string {
    if frac.None? then "" else "." + frac.value
  }

  function ExpText(exp: Option<Exponent>): string {
    if exp.None? then "" else [exp.value.letter] + (exp.value.sign + exp.value.digits)
  }

  function NumeralText(n: Numeral): string {
    (if n.minus then "-" else "") + (n.whole + (FracText(n.frac) + ExpText(n.exp)))
  }

  // ---------- values (sections 3 to 5) ----------

  datatype Value =
    | True
    | False
    | Null
    | Number(numeral: Numeral)
    | String(items: List<Item>)
    | EmptyArray(ws: string)
    | Array(ws: string, elements: Elements)
    | EmptyObject(ws: string)
    | Object(ws: string, members: Members)
  {
    predicate Container?() { EmptyArray? || Array? || EmptyObject? || Object? }
  }

  /** One or more array elements up to and including the closing bracket. */
  datatype Elements =
    | LastElement(value: Value, ws: string)
    | MoreElements(value: Value, ws: string, wsNext: string, rest: Elements)

  datatype Member = Member(key: List<Item>, wsKey: string, wsValue: string, value: Value)

  /** One or more object members up to and including the closing brace. */
  datatype Members =
    | LastMember(member: Member, ws: string)
    | MoreMembers(member: Member, ws: string, wsNext: string, rest: Members)

  predicate ValidValue(v: Value) {
    match v
    case True | False | Null => true
    case Number(n) => ValidNumeral(n)
    case String(items) => ValidItems(items)
    case EmptyArray(ws) => AllSpace(ws)
    case EmptyObject(ws) => AllSpace(ws)
    case Array(ws, es) => AllSpace(ws) && ValidElements(es)
    case Object(ws, ms) => AllSpace(ws) && ValidMembers(ms)
  }

  predicate ValidElements(es: Elements) {
    && ValidValue(es.value) && AllSpace(es.ws)
    && (es.MoreElements? ==> AllSpace(es.wsNext) && ValidElements(es.rest))
  }

  predicate ValidMember(m: Member) {
    ValidItems(m.key) && AllSpace(m.wsKey) && AllSpace(m.wsValue) && ValidValue(m.value)
  }

  predicate ValidMembers(ms: Members) {
    && ValidMember(ms.member) && AllSpace(ms.ws)
    && (ms.MoreMembers? ==> AllSpace(ms.wsNext) && ValidMembers(ms.rest))
  }

  function Text(v: Value): (s: string)
  {
    match v
    case True => "true"
    case False => "false"
    case Null => "null"
    case Number(n) => NumeralText(n)
    case String(items) => StringText(items)
    case EmptyArray(ws) => "[" + (ws + "]")
    case EmptyObject(ws) => "{" + (ws + "}")
    case Array(ws, es) => "[" + (ws + ElementsText(es))
    case Object(ws, ms) => "{" + (ws + MembersText(ms))
  }

  function ElementsText(es: Elements): string {
    match es
    case LastElement(v, ws) => Text(v) + (ws + "]")
    case MoreElements(v, ws, wsNext, rest) => Text(v) + (ws + ("," + (wsNext + ElementsText(rest))))
  }

  function MemberText(m: Member): string {
    StringText(m.key) + (m.wsKey + (":" + (m.wsValue + Text(m.value))))
  }

  function MembersText(ms: Members): string {
    match ms
    case LastMember(m, ws) => MemberText(m) + (ws + "}")
    case MoreMembers(m, ws, wsNext, rest) => MemberText(m) + (ws + ("," + (wsNext + MembersText(rest))))
  }

  /** Levels of values: 1 for a scalar or an empty container, one more than the deepest child otherwise. */
  function Nesting(v: Value): nat {
    match v
    case Array(_, es) => 1 + ElementsNesting(es)
    case Object(_, ms) => 1 + MembersNesting(ms)
    case _ => 1
  }

  function ElementsNesting(es: Elements): nat {
    match es
    case LastElement(v, _) => Nesting(v)
    case MoreElements(v, _, _, rest) => Max(Nesting(v), ElementsNesting(rest))
  }

  function MembersNesting(ms: Members): nat {
    match ms
    case LastMember(m, _) => Nesting(m.value)
    case MoreMembers(m, _, _, rest) => Max(Nesting(m.value), MembersNesting(rest))
  }

  // ---------- documents ----------

  /** A value starts only below this depth, so nesting is at most this many levels. */
  const MAX_DEPTH: nat := 64

  datatype Document = Document(before: string, value: Value, after: string)

  predicate ValidDocument(d: Document) {
    && AllSpace(d.before) && AllSpace(d.after)
    && d.value.Container?() && ValidValue(d.value) && Nesting(d.value) <= MAX_DEPTH
  }

  function DocumentText(d: Document): string { d.before + (Text(d.value) + d.after) }

  ghost predicate IsDocument(s: string) {
    exists d :: ValidDocument(d) && DocumentText(d) == s
  }
}
