/**
  The parser as a function on the unread suffix of the text, and the proof that it recognises
  exactly the grammar.  `JsonParser` is proved against these functions.
 */
module JsonRecognizer {
  import opened Wrappers
  import opened JsonGrammar

  lemma Assoc(a: string, b: string, c: string)
    ensures (a + b) + c == a + (b + c)
  {
  }

  lemma Assoc4(a: string, b: string, c: string, d: string)
    ensures (a + (b + c)) + d == a + (b + (c + d))
  {
    Assoc(a, b + c, d);
    Assoc(b, c, d);
  }

  lemma Assoc5(a: string, b: string, c: string, d: string, e: string)
    ensures (a + (b + (c + d))) + e == a + (b + (c + (d + e)))
  {
    Assoc(a, b + (c + d), e);
    Assoc4(b, c, d, e);
  }

  // ---------- white space ----------

  function SkipSpace(s: string): (r: string)
    ensures |r| <= |s|
  {
    if s != "" && IsSpace(s[0]) then SkipSpace(s[1..]) else s
  }

  function LeadingSpace(s: string): (ws: string)
    ensures AllSpace(ws)
    ensures s == ws + SkipSpace(s)
  {
    if s != "" && IsSpace(s[0]) then [s[0]] + LeadingSpace(s[1..]) else ""
  }

  lemma {:induction false} SkipSpaceOver(ws: string, rest: string)
    requires AllSpace(ws)
    requires rest != "" ==> !IsSpace(rest[0])
    ensures SkipSpace(ws + rest) == rest
  {
    if ws == "" {
      assert ws + rest == rest;
    } else {
      assert (ws + rest)[1..] == ws[1..] + rest;
      SkipSpaceOver(ws[1..], rest);
    }
  }

  predicate Starts(s: string, c: char) { s != "" && s[0] == c }

  // ---------- strings ----------

  datatype StringResult = BadString | GoodString(decoded: string, rest: string)

  function Prepend(prefix: string, r: StringResult): StringResult {
    if r.BadString? then BadString else GoodString(prefix + r.decoded, r.rest)
  }

  lemma PrependTwice(out: string, c: char, r: StringResult)
    ensures Prepend(out + [c], r) == Prepend(out, Prepend([c], r))
  {
    if r.GoodString? {
      Assoc(out, [c], r.decoded);
    }
  }

  /** The characters after the opening quote, up to and including the closing one. */
  function ParseChars(s: string): (r: StringResult)
    ensures r.GoodString? ==> |r.rest| < |s|
  {
    if s == "" then BadString
    else if s[0] == '"' then GoodString("", s[1..])
    else if s[0] as int < 0x20 then BadString
    else if s[0] != '\\' then Prepend([s[0]], ParseChars(s[1..]))
    else if |s| < 2 then BadString
    else if s[1] in "\"\\/bfnrt" then Prepend([Unescape(s[1])], ParseChars(s[2..]))
    else if s[1] != 'u' then BadString
    else if |s| < 6 || exists i :: 2 <= i < 6 && !IsHexDigit(s[i]) then BadString
    else Prepend([UnicodeChar(s[2], s[3], s[4], s[5])], ParseChars(s[6..]))
  }

  function ParseString(s: string): (r: StringResult)
    ensures r.GoodString? ==> |r.rest| < |s|
  {
    if Starts(s, '"') then ParseChars(s[1..]) else BadString
  }

  lemma {:induction false} CharsComplete(items: List<Item>, rest: string)
    requires ValidItems(items)
    ensures ParseChars(ItemsText(items) + ("\"" + rest)) == GoodString(Decode(items), rest)
  {
    match items
    case Nil => assert ItemsText(items) + ("\"" + rest) == "\"" + rest;
    case Cons(i, tail) =>
      CharsComplete(tail, rest);
      Assoc(ItemText(i), ItemsText(tail), "\"" + rest);
      ParseItem(i, ItemsText(tail) + ("\"" + rest));
  }

  lemma ParseItem(i: Item, rest: string)
    requires ValidItem(i)
    ensures ParseChars(ItemText(i) + rest) == Prepend([DecodeItem(i)], ParseChars(rest))
  {
    var s := ItemText(i) + rest;
    assert s[|ItemText(i)|..] == rest;
    if i.Unicode? {
      assert forall k :: 2 <= k < 6 ==> s[k] == ItemText(i)[k] && IsHexDigit(s[k]);
    }
  }

  lemma StringComplete(items: List<Item>, rest: string)
    requires ValidItems(items)
    ensures ParseString(StringText(items) + rest) == GoodString(Decode(items), rest)
  {
    CharsComplete(items, rest);
    Assoc4("\"", ItemsText(items), "\"", rest);
  }

  lemma {:induction false} CharsSound(s: string) returns (items: List<Item>)
    requires ParseChars(s).GoodString?
    ensures ValidItems(items)
    ensures s == ItemsText(items) + ("\"" + ParseChars(s).rest)
    ensures Decode(items) == ParseChars(s).decoded
  {
    if s[0] == '"' {
      items := Nil;
    } else {
      var item := FirstItem(s);
      var tail := CharsSound(s[|ItemText(item)|..]);
      items := Cons(item, tail);
      Assoc(ItemText(item), ItemsText(tail), "\"" + ParseChars(s).rest);
    }
  }

  lemma FirstItem(s: string) returns (item: Item)
    requires ParseChars(s).GoodString? && s[0] != '"'
    ensures ValidItem(item)
    ensures |ItemText(item)| <= |s| && s == ItemText(item) + s[|ItemText(item)|..]
    ensures ParseChars(s) == Prepend([DecodeItem(item)], ParseChars(s[|ItemText(item)|..]))
  {
    item := if s[0] != '\\' then Plain(s[0])
            else if s[1] in "\"\\/bfnrt" then Escaped(s[1])
            else Unicode(s[2], s[3], s[4], s[5]);
  }

  lemma StringSound(s: string) returns (items: List<Item>)
    requires ParseString(s).GoodString?
    ensures ValidItems(items)
    ensures s == StringText(items) + ParseString(s).rest
    ensures Decode(items) == ParseString(s).decoded
  {
    items := CharsSound(s[1..]);
    assert s == "\"" + s[1..];
    Assoc4("\"", ItemsText(items), "\"", ParseString(s).rest);
  }

  // ---------- numbers ----------

  predicate StartsDigit(s: string) { s != "" && IsDigit(s[0]) }

  function SkipDigits(s: string): (r: string)
    ensures |r| <= |s|
    ensures StartsDigit(s) ==> |r| < |s|
  {
    if s != "" && IsDigit(s[0]) then SkipDigits(s[1..]) else s
  }

  function LeadingDigits(s: string): (ds: string)
    ensures AllDigits(ds)
    ensures s == ds + SkipDigits(s)
    ensures StartsDigit(s) ==> ds != ""
  {
    if s != "" && IsDigit(s[0]) then [s[0]] + LeadingDigits(s[1..]) else ""
  }

  lemma {:induction false} SkipDigitsOver(ds: string, rest: string)
    requires AllDigits(ds) && !StartsDigit(rest)
    ensures SkipDigits(ds + rest) == rest
  {
    if ds == "" {
      assert ds + rest == rest;
    } else {
      assert (ds + rest)[1..] == ds[1..] + rest;
      SkipDigitsOver(ds[1..], rest);
    }
  }

  function SkipMinus(s: string): (r: string)
    ensures |r| <= |s|
  {
    if Starts(s, '-') then s[1..] else s
  }

  function ParseWhole(s: string): (r: Option<string>)
    ensures r.Some? ==> |r.value| < |s|
  {
    if Starts(s, '0') then (if StartsDigit(s[1..]) then None else Some(s[1..]))
    else if StartsDigit(s) then Some(SkipDigits(s))
    else None
  }

  function ParseFraction(s: string): (r: Option<string>)
    ensures r.Some? ==> |r.value| <= |s|
  {
    if !Starts(s, '.') then Some(s)
    else if StartsDigit(s[1..]) then Some(SkipDigits(s[1..]))
    else None
  }

  function SkipSign(s: string): (r: string)
    ensures |r| <= |s|
  {
    if Starts(s, '+') || Starts(s, '-') then s[1..] else s
  }

  function ParseExponent(s: string): (r: Option<string>)
    ensures r.Some? ==> |r.value| <= |s|
  {
    if !(Starts(s, 'e') || Starts(s, 'E')) then Some(s)
    else
      var s1 := SkipSign(s[1..]);
      if StartsDigit(s1) then Some(SkipDigits(s1)) else None
  }

  function ParseNumber(s: string): (r: Option<string>)
    ensures r.Some? ==> |r.value| < |s|
  {
    var whole := ParseWhole(SkipMinus(s));
    if whole.None? then None else
    var frac := ParseFraction(whole.value);
    if frac.None? then None else ParseExponent(frac.value)
  }

  /** What may not follow a number for the number to end here. */
  predicate EndsNumber(rest: string) {
    rest != "" ==> !IsDigit(rest[0]) && rest[0] != '.' && rest[0] != 'e' && rest[0] != 'E'
  }

  lemma SkipSignOver(sign: string, rest: string)
    requires sign in {"", "+", "-"} && StartsDigit(rest)
    ensures SkipSign(sign + rest) == rest
  {
    if sign == "" {
      assert sign + rest == rest;
    }
  }

  lemma ExponentComplete(exp: Option<Exponent>, rest: string)
    requires ValidNumeral(Numeral(false, "0", None, exp)) && EndsNumber(rest)
    ensures ParseExponent(ExpText(exp) + rest) == Some(rest)
    ensures !StartsDigit(ExpText(exp) + rest) && !Starts(ExpText(exp) + rest, '.')
  {
    if exp.None? {
      assert ExpText(exp) + rest == rest;
    } else {
      var e := exp.value;
      Assoc4([e.letter], e.sign, e.digits, rest);
      SkipSignOver(e.sign, e.digits + rest);
      SkipDigitsOver(e.digits, rest);
    }
  }

  lemma FractionComplete(frac: Option<string>, exp: Option<Exponent>, rest: string)
    requires ValidNumeral(Numeral(false, "0", frac, exp)) && EndsNumber(rest)
    ensures ParseFraction(FracText(frac) + (ExpText(exp) + rest)) == Some(ExpText(exp) + rest)
    ensures !StartsDigit(FracText(frac) + (ExpText(exp) + rest))
  {
    var after := ExpText(exp) + rest;
    ExponentComplete(exp, rest);
    if frac.None? {
      assert FracText(frac) + after == after;
    } else {
      Assoc(".", frac.value, after);
      SkipDigitsOver(frac.value, after);
    }
  }

  lemma WholeComplete(whole: string, after: string)
    requires ValidNumeral(Numeral(false, whole, None, None)) && !StartsDigit(after)
    ensures ParseWhole(whole + after) == Some(after)
  {
    SkipDigitsOver(whole, after);
  }

  lemma NumberComplete(n: Numeral, rest: string)
    requires ValidNumeral(n) && EndsNumber(rest)
    ensures ParseNumber(NumeralText(n) + rest) == Some(rest)
  {
    hide ParseWhole, ParseFraction, ParseExponent, FracText, ExpText;
    var after := FracText(n.frac) + (ExpText(n.exp) + rest);
    var sign := if n.minus then "-" else "";
    Assoc5(sign, n.whole, FracText(n.frac), ExpText(n.exp), rest);
    assert SkipMinus(sign + (n.whole + after)) == n.whole + after by {
      if !n.minus { assert sign + (n.whole + after) == n.whole + after; }
    }
    FractionComplete(n.frac, n.exp, rest);
    WholeComplete(n.whole, after);
    ExponentComplete(n.exp, rest);
  }

  lemma ExponentSound(s: string) returns (exp: Option<Exponent>)
    requires ParseExponent(s).Some?
    ensures ValidNumeral(Numeral(false, "0", None, exp))
    ensures s == ExpText(exp) + ParseExponent(s).value
  {
    hide LeadingDigits, SkipDigits;
    if Starts(s, 'e') || Starts(s, 'E') {
      var s1 := SkipSign(s[1..]);
      var sign := if Starts(s[1..], '+') then "+" else if Starts(s[1..], '-') then "-" else "";
      var digits := LeadingDigits(s1);
      exp := Some(Exponent(s[0], sign, digits));
      assert s[1..] == sign + s1;
      assert s == [s[0]] + s[1..];
      Assoc4([s[0]], sign, digits, SkipDigits(s1));
    } else {
      exp := None;
    }
  }

  lemma FractionSound(s: string) returns (frac: Option<string>)
    requires ParseFraction(s).Some?
    ensures ValidNumeral(Numeral(false, "0", frac, None))
    ensures s == FracText(frac) + ParseFraction(s).value
  {
    hide LeadingDigits, SkipDigits;
    if Starts(s, '.') {
      frac := Some(LeadingDigits(s[1..]));
      assert s == "." + s[1..];
      Assoc(".", frac.value, ParseFraction(s).value);
    } else {
      frac := None;
    }
  }

  lemma WholeSound(s: string) returns (whole: string)
    requires ParseWhole(s).Some?
    ensures ValidNumeral(Numeral(false, whole, None, None))
    ensures s == whole + ParseWhole(s).value
  {
    hide SkipDigits;
    whole := if s[0] == '0' then "0" else LeadingDigits(s);
    assert s == [s[0]] + s[1..];
  }

  lemma NumberSound(s: string) returns (n: Numeral)
    requires ParseNumber(s).Some?
    ensures ValidNumeral(n)
    ensures s == NumeralText(n) + ParseNumber(s).value
  {
    hide ParseWhole, ParseFraction, ParseExponent, FracText, ExpText;
    var s1 := SkipMinus(s);
    var whole := WholeSound(s1);
    var frac := FractionSound(ParseWhole(s1).value);
    var exp := ExponentSound(ParseFraction(ParseWhole(s1).value).value);
    n := Numeral(Starts(s, '-'), whole, frac, exp);
    var sign := if n.minus then "-" else "";
    assert s == sign + s1;
    Assoc5(sign, whole, FracText(frac), ExpText(exp), ParseNumber(s).value);
  }

  // ---------- values ----------

  /** `room` is how many more levels of values may start: `MAX_DEPTH` minus the parser's depth. */
  function ParseValue(s: string, room: nat): (r: Option<string>)
    ensures r.Some? ==> |r.value| < |s|
    decreases |s|, 1
  {
    var t := SkipSpace(s);
    if t == "" || room == 0 then None
    else if t[0] == '{' then ParseObject(t, room - 1)
    else if t[0] == '[' then ParseArray(t, room - 1)
    else if t[0] == '"' then
      var str := ParseString(t);
      if str.BadString? then None else Some(str.rest)
    else if t[0] == '-' || IsDigit(t[0]) then ParseNumber(t)
    else if "true" <= t then Some(t[4..])
    else if "false" <= t then Some(t[5..])
    else if "null" <= t then Some(t[4..])
    else None
  }

  function ParseObject(s: string, room: nat): (r: Option<string>)
    requires Starts(s, '{')
    ensures r.Some? ==> |r.value| < |s|
    decreases |s|, 0
  {
    var t := SkipSpace(s[1..]);
    if Starts(t, '}') then Some(t[1..]) else ParseMembers(t, room)
  }

  function ParseArray(s: string, room: nat): (r: Option<string>)
    requires Starts(s, '[')
    ensures r.Some? ==> |r.value| < |s|
    decreases |s|, 0
  {
    var t := SkipSpace(s[1..]);
    if Starts(t, ']') then Some(t[1..]) else ParseElements(t, room)
  }

  function ParseElements(s: string, room: nat): (r: Option<string>)
    ensures r.Some? ==> |r.value| < |s|
    decreases |s|, 2
  {
    var v := ParseValue(s, room);
    if v.None? then None else
    var t := SkipSpace(v.value);
    if Starts(t, ']') then Some(t[1..])
    else if Starts(t, ',') then ParseElements(SkipSpace(t[1..]), room)
    else None
  }

  /** A member up to its colon: the decoded key and the text from the value on. */
  function ParseKey(s: string): (r: StringResult)
    ensures r.GoodString? ==> |r.rest| < |s|
  {
    var key := ParseString(s);
    if key.BadString? then BadString else
    var t := SkipSpace(key.rest);
    if Starts(t, ':') then GoodString(key.decoded, t[1..]) else BadString
  }

  function ParseMembers(s: string, room: nat): (r: Option<string>)
    ensures r.Some? ==> |r.value| < |s|
    decreases |s|, 2
  {
    var key := ParseKey(s);
    if key.BadString? then None else
    var v := ParseValue(key.rest, room);
    if v.None? then None else
    var t := SkipSpace(v.value);
    if Starts(t, '}') then Some(t[1..])
    else if Starts(t, ',') then ParseMembers(SkipSpace(t[1..]), room)
    else None
  }

  // ---------- completeness: every tree of the grammar is consumed exactly ----------

  /** The condition under which a value's text ends where the value does. */
  predicate Ends(v: Value, rest: string) { v.Number? ==> EndsNumber(rest) }

  predicate Delimiter(c: char) { c == ',' || c == ']' || c == '}' || c == ':' }

  lemma SpaceEndsNumber(ws: string, rest: string)
    requires AllSpace(ws)
    requires rest != "" ==> Delimiter(rest[0])
    ensures EndsNumber(ws + rest)
  {
    if ws != "" {
      assert IsSpace(ws[0]);
    }
  }

  lemma TextStart(v: Value)
    requires ValidValue(v)
    ensures Text(v) != "" && !IsSpace(Text(v)[0]) && !Delimiter(Text(v)[0])
    ensures v.Number? ==> Text(v)[0] == '-' || IsDigit(Text(v)[0])
    ensures v.String? ==> Text(v)[0] == '"'
  {
  }

  lemma {:induction false} ValueComplete(v: Value, room: nat, rest: string)
    requires ValidValue(v) && Nesting(v) <= room && Ends(v, rest)
    ensures ParseValue(Text(v) + rest, room) == Some(rest)
    decreases v, 1
  {
    hide ParseArray, ParseObject, ParseString, ParseNumber, NumeralText, StringText, ValidNumeral, ValidItems;
    hide ValidElements, ValidMembers, ElementsText, MembersText, EndsNumber;
    TextStart(v);
    var s := Text(v) + rest;
    assert s[0] == Text(v)[0];
    assert SkipSpace(s) == s;
    match v
    case True => assert "true" <= s;
    case False => assert "false" <= s;
    case Null => assert "null" <= s;
    case Number(n) => NumberComplete(n, rest);
    case String(items) => StringComplete(items, rest);
    case EmptyArray(ws) => EmptyComplete(ws, room - 1, rest);
    case EmptyObject(ws) => EmptyComplete(ws, room - 1, rest);
    case Array(ws, es) => ArrayComplete(ws, es, room - 1, rest);
    case Object(ws, ms) => ObjectComplete(ws, ms, room - 1, rest);
  }

  lemma EmptyComplete(ws: string, room: nat, rest: string)
    requires AllSpace(ws)
    ensures var s := Text(EmptyArray(ws)) + rest; Starts(s, '[') && ParseArray(s, room) == Some(rest)
    ensures var s := Text(EmptyObject(ws)) + rest; Starts(s, '{') && ParseObject(s, room) == Some(rest)
  {
    hide ParseElements, ParseMembers;
    Assoc4("[", ws, "]", rest);
    SkipSpaceOver(ws, "]" + rest);
    Assoc4("{", ws, "}", rest);
    SkipSpaceOver(ws, "}" + rest);
  }

  lemma {:induction false} ArrayComplete(ws: string, es: Elements, room: nat, rest: string)
    requires AllSpace(ws) && ValidElements(es) && ElementsNesting(es) <= room
    ensures var s := Text(Array(ws, es)) + rest; Starts(s, '[') && ParseArray(s, room) == Some(rest)
    decreases es, 2
  {
    hide ParseElements, ElementsText, ValidElements, ParseValue;
    Assoc4("[", ws, ElementsText(es), rest);
    ElementsStart(es, rest);
    SkipSpaceOver(ws, ElementsText(es) + rest);
    ElementsComplete(es, room, rest);
  }

  lemma {:induction false} ObjectComplete(ws: string, ms: Members, room: nat, rest: string)
    requires AllSpace(ws) && ValidMembers(ms) && MembersNesting(ms) <= room
    ensures var s := Text(Object(ws, ms)) + rest; Starts(s, '{') && ParseObject(s, room) == Some(rest)
    decreases ms, 2
  {
    hide ParseMembers, MembersText, ValidMembers, ParseValue;
    Assoc4("{", ws, MembersText(ms), rest);
    MembersStart(ms, rest);
    SkipSpaceOver(ws, MembersText(ms) + rest);
    MembersComplete(ms, room, rest);
  }

  lemma MembersStart(ms: Members, rest: string)
    ensures Starts(MembersText(ms) + rest, '"')
  {
    assert MembersText(ms)[0] == '"';
  }

  lemma ElementsStart(es: Elements, rest: string)
    requires ValidElements(es)
    ensures var s := ElementsText(es) + rest;
      s != "" && !IsSpace(s[0]) && !Delimiter(s[0])
  {
    TextStart(es.value);
  }

  /** What follows an element and its white space. */
  function ElementsTail(es: Elements, rest: string): string {
    if es.LastElement? then "]" + rest else "," + (es.wsNext + (ElementsText(es.rest) + rest))
  }

  lemma ElementsSplit(es: Elements, rest: string)
    ensures ElementsText(es) + rest == Text(es.value) + (es.ws + ElementsTail(es, rest))
  {
    if es.LastElement? {
      Assoc4(Text(es.value), es.ws, "]", rest);
    } else {
      Assoc(Text(es.value), es.ws + ("," + (es.wsNext + ElementsText(es.rest))), rest);
      Assoc5(es.ws, ",", es.wsNext, ElementsText(es.rest), rest);
    }
  }

  lemma {:induction false} ElementsComplete(es: Elements, room: nat, rest: string)
    requires ValidElements(es) && ElementsNesting(es) <= room
    ensures ParseElements(ElementsText(es) + rest, room) == Some(rest)
    decreases es, 0
  {
    var tail := ElementsTail(es, rest);
    ElementsSplit(es, rest);
    SpaceEndsNumber(es.ws, tail);
    ValueComplete(es.value, room, es.ws + tail);
    SkipSpaceOver(es.ws, tail);
    if es.MoreElements? {
      ElementsStart(es.rest, rest);
      SkipSpaceOver(es.wsNext, ElementsText(es.rest) + rest);
      ElementsComplete(es.rest, room, rest);
    }
  }

  lemma KeyComplete(key: List<Item>, ws: string, rest: string)
    requires ValidItems(key) && AllSpace(ws)
    ensures ParseKey(StringText(key) + (ws + (":" + rest))) == GoodString(Decode(key), rest)
  {
    StringComplete(key, ws + (":" + rest));
    SkipSpaceOver(ws, ":" + rest);
  }

  lemma {:induction false} SkipThenParse(ws: string, v: Value, room: nat, rest: string)
    requires AllSpace(ws) && ValidValue(v)
    ensures ParseValue(ws + (Text(v) + rest), room) == ParseValue(Text(v) + rest, room)
  {
    TextStart(v);
    SkipSpaceOver(ws, Text(v) + rest);
    SkipSpaceOver("", Text(v) + rest);
  }

  lemma MemberSplit(m: Member, rest: string)
    ensures MemberText(m) + rest == StringText(m.key) + (m.wsKey + (":" + (m.wsValue + (Text(m.value) + rest))))
  {
    Assoc(StringText(m.key), m.wsKey + (":" + (m.wsValue + Text(m.value))), rest);
    Assoc5(m.wsKey, ":", m.wsValue, Text(m.value), rest);
  }

  lemma {:induction false} MemberComplete(m: Member, room: nat, rest: string)
    requires ValidMember(m) && Nesting(m.value) <= room && Ends(m.value, rest)
    ensures ParseKey(MemberText(m) + rest) == GoodString(Decode(m.key), m.wsValue + (Text(m.value) + rest))
    ensures ParseValue(m.wsValue + (Text(m.value) + rest), room) == Some(rest)
    decreases m, 1
  {
    var afterColon := m.wsValue + (Text(m.value) + rest);
    MemberSplit(m, rest);
    KeyComplete(m.key, m.wsKey, afterColon);
    SkipThenParse(m.wsValue, m.value, room, rest);
    ValueComplete(m.value, room, rest);
  }

  /** What follows a member and its white space. */
  function MembersTail(ms: Members, rest: string): string {
    if ms.LastMember? then "}" + rest else "," + (ms.wsNext + (MembersText(ms.rest) + rest))
  }

  lemma MembersSplit(ms: Members, rest: string)
    ensures MembersText(ms) + rest == MemberText(ms.member) + (ms.ws + MembersTail(ms, rest))
  {
    if ms.LastMember? {
      Assoc4(MemberText(ms.member), ms.ws, "}", rest);
    } else {
      Assoc(MemberText(ms.member), ms.ws + ("," + (ms.wsNext + MembersText(ms.rest))), rest);
      Assoc5(ms.ws, ",", ms.wsNext, MembersText(ms.rest), rest);
    }
  }

  lemma {:induction false} MembersComplete(ms: Members, room: nat, rest: string)
    requires ValidMembers(ms) && MembersNesting(ms) <= room
    ensures ParseMembers(MembersText(ms) + rest, room) == Some(rest)
    decreases ms, 0
  {
    var tail := MembersTail(ms, rest);
    MembersSplit(ms, rest);
    SpaceEndsNumber(ms.ws, tail);
    MemberComplete(ms.member, room, ms.ws + tail);
    SkipSpaceOver(ms.ws, tail);
    if ms.MoreMembers? {
      MembersStart(ms.rest, rest);
      SkipSpaceOver(ms.wsNext, MembersText(ms.rest) + rest);
      MembersComplete(ms.rest, room, rest);
    }
  }

  // ---------- soundness: whatever is consumed is a tree of the grammar ----------

  lemma {:induction false} ValueSound(s: string, room: nat) returns (v: Value)
    requires ParseValue(s, room).Some?
    ensures ValidValue(v) && Nesting(v) <= room
    ensures s == LeadingSpace(s) + (Text(v) + ParseValue(s, room).value)
    ensures v.Container?() <==> Starts(SkipSpace(s), '{') || Starts(SkipSpace(s), '[')
    decreases |s|, 1
  {
    hide ParseArray, ParseObject, ParseString, ParseNumber, NumeralText, StringText, LeadingSpace, IsDigit;
    var t := SkipSpace(s);
    if t[0] == '{' {
      v := ObjectSound(t, room - 1);
    } else if t[0] == '[' {
      v := ArraySound(t, room - 1);
    } else if t[0] == '"' {
      var items := StringSound(t);
      v := String(items);
    } else if t[0] == '-' || IsDigit(t[0]) {
      var n := NumberSound(t);
      v := Number(n);
    } else {
      v := if t[0] == 't' then True else if t[0] == 'f' then False else Null;
      assert t == Text(v) + t[|Text(v)|..];
    }
  }

  lemma {:induction false} ObjectSound(t: string, room: nat) returns (v: Value)
    requires Starts(t, '{') && ParseObject(t, room).Some?
    ensures ValidValue(v) && Nesting(v) <= room + 1 && (v.Object? || v.EmptyObject?)
    ensures t == Text(v) + ParseObject(t, room).value
    decreases |t|, 0
  {
    hide ParseMembers, MembersText, ValidMembers, LeadingSpace, ParseValue, SkipSpace, AllSpace, MembersNesting;
    var ws, u := LeadingSpace(t[1..]), SkipSpace(t[1..]);
    var rest := ParseObject(t, room).value;
    assert t == "{" + (ws + u);
    if Starts(u, '}') {
      v := EmptyObject(ws);
      assert u == "}" + rest;
      Assoc4("{", ws, "}", rest);
    } else {
      var ms := MembersSound(u, room);
      v := Object(ws, ms);
      Assoc4("{", ws, MembersText(ms), rest);
    }
  }

  lemma {:induction false} ArraySound(t: string, room: nat) returns (v: Value)
    requires Starts(t, '[') && ParseArray(t, room).Some?
    ensures ValidValue(v) && Nesting(v) <= room + 1 && v.Container?()
    ensures t == Text(v) + ParseArray(t, room).value
    decreases |t|, 0
  {
    hide ParseElements, ElementsText, ValidElements, LeadingSpace, ParseValue, SkipSpace, AllSpace;
    hide ElementsNesting;
    var ws, u := LeadingSpace(t[1..]), SkipSpace(t[1..]);
    var rest := ParseArray(t, room).value;
    assert t == "[" + (ws + u);
    if Starts(u, ']') {
      v := EmptyArray(ws);
      assert u == "]" + rest;
      Assoc4("[", ws, "]", rest);
    } else {
      SkipSpaceIdempotent(t[1..]);
      var es := ElementsSound(u, room);
      v := Array(ws, es);
      Assoc4("[", ws, ElementsText(es), rest);
    }
  }

  lemma LastElementSound(v: Value, after: string) returns (es: Elements)
    requires ValidValue(v) && Starts(SkipSpace(after), ']')
    ensures es.LastElement? && es.value == v
    ensures ValidElements(es) && ElementsNesting(es) == Nesting(v)
    ensures Text(v) + after == ElementsText(es) + SkipSpace(after)[1..]
  {
    hide Text, ElementsText, ValidValue, Nesting, SkipSpace, LeadingSpace;
    var t := SkipSpace(after);
    es := LastElement(v, LeadingSpace(after));
    assert t == "]" + t[1..];
    ElementsSplit(es, t[1..]);
  }

  lemma MoreElementsSound(v: Value, after: string, rest: Elements, tail: string) returns (es: Elements)
    requires ValidValue(v) && Starts(SkipSpace(after), ',') && ValidElements(rest)
    requires SkipSpace(SkipSpace(after)[1..]) == ElementsText(rest) + tail
    ensures es.MoreElements? && es.value == v && es.rest == rest
    ensures ValidElements(es) && ElementsNesting(es) == Max(Nesting(v), ElementsNesting(rest))
    ensures Text(v) + after == ElementsText(es) + tail
  {
    hide Text, ElementsText, ValidValue, Nesting, SkipSpace, LeadingSpace;
    var t := SkipSpace(after);
    var wsNext := LeadingSpace(t[1..]);
    es := MoreElements(v, LeadingSpace(after), wsNext, rest);
    assert t == "," + (wsNext + SkipSpace(t[1..]));
    ElementsSplit(es, tail);
  }

  lemma {:induction false} ElementsSound(s: string, room: nat) returns (es: Elements)
    requires ParseElements(s, room).Some? && SkipSpace(s) == s
    ensures ValidElements(es) && ElementsNesting(es) <= room
    ensures s == ElementsText(es) + ParseElements(s, room).value
    decreases |s|, 2
  {
    hide ParseValue, Text, ElementsText, ValidElements, ElementsNesting, LeadingSpace, SkipSpace;
    var v := ValueSound(s, room);
    var after := ParseValue(s, room).value;
    NoLeadingSpace(s);
    assert s == Text(v) + after by { NothingBefore(Text(v) + after); }
    var t := SkipSpace(after);
    if Starts(t, ']') {
      es := LastElementSound(v, after);
    } else {
      SkipSpaceIdempotent(t[1..]);
      var rest := ElementsSound(SkipSpace(t[1..]), room);
      es := MoreElementsSound(v, after, rest, ParseElements(s, room).value);
    }
  }

  lemma NoLeadingSpace(s: string)
    requires SkipSpace(s) == s
    ensures LeadingSpace(s) == ""
  {
    assert |s| == |LeadingSpace(s)| + |SkipSpace(s)|;
  }

  lemma NothingBefore(s: string)
    ensures "" + s == s
  {
  }

  lemma {:induction false} SkipSpaceIdempotent(s: string)
    ensures SkipSpace(SkipSpace(s)) == SkipSpace(s)
  {
    if s != "" && IsSpace(s[0]) {
      SkipSpaceIdempotent(s[1..]);
    }
  }

  lemma {:induction false} MemberSound(s: string, room: nat) returns (m: Member)
    requires ParseKey(s).GoodString? && ParseValue(ParseKey(s).rest, room).Some?
    ensures ValidMember(m) && Nesting(m.value) <= room
    ensures Decode(m.key) == ParseKey(s).decoded
    ensures s == MemberText(m) + ParseValue(ParseKey(s).rest, room).value
    decreases |s|, 0
  {
    hide ParseValue, Text, ParseString, StringText, LeadingSpace, Decode, ValidItems;
    var key := StringSound(s);
    var afterKey := ParseString(s).rest;
    var afterColon := ParseKey(s).rest;
    var v := ValueSound(afterColon, room);
    m := Member(key, LeadingSpace(afterKey), LeadingSpace(afterColon), v);
    assert SkipSpace(afterKey) == ":" + afterColon;
    MemberSplit(m, ParseValue(afterColon, room).value);
  }

  lemma {:induction false} MembersSound(s: string, room: nat) returns (ms: Members)
    requires ParseMembers(s, room).Some?
    ensures ValidMembers(ms) && MembersNesting(ms) <= room
    ensures s == MembersText(ms) + ParseMembers(s, room).value
    decreases |s|, 2
  {
    hide ParseValue, Text, ParseKey, MemberText, LeadingSpace, ValidMember;
    var m := MemberSound(s, room);
    var after := ParseValue(ParseKey(s).rest, room).value;
    var ws, t := LeadingSpace(after), SkipSpace(after);
    if Starts(t, '}') {
      ms := LastMember(m, ws);
      assert t == "}" + t[1..];
    } else {
      var u := SkipSpace(t[1..]);
      var rest := MembersSound(u, room);
      ms := MoreMembers(m, ws, LeadingSpace(t[1..]), rest);
      assert t == "," + (LeadingSpace(t[1..]) + u);
    }
    MembersSplit(ms, ParseMembers(s, room).value);
  }

  // ---------- documents ----------

  predicate ParsesAsDocument(s: string) {
    var t := SkipSpace(s);
    && (Starts(t, '{') || Starts(t, '['))
    && var v := ParseValue(t, MAX_DEPTH);
       v.Some? && SkipSpace(v.value) == ""
  }

  lemma {:induction false} SpaceOnly(ws: string)
    requires AllSpace(ws)
    ensures SkipSpace(ws) == ""
  {
    SkipSpaceOver(ws, "");
    assert ws + "" == ws;
  }

  lemma DocumentComplete(d: Document)
    requires ValidDocument(d)
    ensures ParsesAsDocument(DocumentText(d))
  {
    TextStart(d.value);
    SkipSpaceOver(d.before, Text(d.value) + d.after);
    ValueComplete(d.value, MAX_DEPTH, d.after);
    SpaceOnly(d.after);
  }

  lemma DocumentSound(s: string) returns (d: Document)
    requires ParsesAsDocument(s)
    ensures ValidDocument(d) && DocumentText(d) == s
  {
    var t := SkipSpace(s);
    SkipSpaceIdempotent(s);
    var v := ValueSound(t, MAX_DEPTH);
    var after := ParseValue(t, MAX_DEPTH).value;
    assert LeadingSpace(t) == "";
    assert SkipSpace(after) == "" && LeadingSpace(after) + "" == after;
    d := Document(LeadingSpace(s), v, after);
    assert t == Text(v) + after;
  }

  /** The recogniser accepts exactly the documents of the grammar. */
  lemma RecognizesGrammar(s: string)
    ensures ParsesAsDocument(s) <==> IsDocument(s)
  {
    if ParsesAsDocument(s) {
      var d := DocumentSound(s);
      assert IsDocument(s);
    }
    if IsDocument(s) {
      var d :| ValidDocument(d) && DocumentText(d) == s;
      DocumentComplete(d);
    }
  }
}
