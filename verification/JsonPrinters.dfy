/**
  The printers, each proved to write a text of the grammar that the parser reads back as what was
  printed.
 */
module JsonPrinters {
  import opened Wrappers
  import opened JsonGrammar
  import opened JsonRecognizer
  import opened JsonMembers
  import JsonParsing

  // ---------- escaping ----------

  function HexDigit(n: nat): char
    requires n < 16
  {
    "0123456789abcdef"[n]
  }

  function EscapeItem(c: char): (i: Item)
    ensures ValidItem(i)
  {
    if c == '\\' || c == '"' then Escaped(c)
    else if c == 8 as char then Escaped('b')
    else if c == 12 as char then Escaped('f')
    else if c == '\n' then Escaped('n')
    else if c == '\r' then Escaped('r')
    else if c == '\t' then Escaped('t')
    else if c as int < 0x20 then Unicode('0', '0', HexDigit(c as int / 16), HexDigit(c as int % 16))
    else Plain(c)
  }

  function EscapeItems(s: string): (items: List<Item>)
    ensures ValidItems(items)
  {
    if s == "" then Nil else Cons(EscapeItem(s[0]), EscapeItems(s[1..]))
  }

  lemma HexDigitValue(n: nat)
    requires n < 16
    ensures IsHexDigit(HexDigit(n)) && HexValue(HexDigit(n)) == n
  {
  }

  lemma HexZero()
    ensures HexDigit(0) == '0'
  {
  }

  lemma ItemDecodes(c: char)
    ensures DecodeItem(EscapeItem(c)) == c
  {
    hide HexDigit, HexValue;
    if c as int < 0x20 {
      assert IsHexDigit('0') && HexValue('0') == 0 by { HexDigitValue(0); HexZero(); }
      HexDigitValue(c as int / 16);
      HexDigitValue(c as int % 16);
    }
  }

  /** No other way to write a character in a string is shorter, and none as short differs but in the case of digits. */
  lemma EscapeItemIsShortest(c: char, i: Item)
    requires ValidItem(i) && DecodeItem(i) == c
    ensures |ItemText(EscapeItem(c))| <= |ItemText(i)|
    ensures |ItemText(EscapeItem(c))| == |ItemText(i)| && !i.Unicode? ==> i == EscapeItem(c)
    ensures EscapeItem(c).Unicode? ==> forall x :: x in ItemText(EscapeItem(c)) ==> !('A' <= x <= 'F')
  {
    hide UnicodeChar;
  }

  lemma {:induction false} EscapeDecodes(s: string)
    ensures Decode(EscapeItems(s)) == s
  {
    hide DecodeItem, EscapeItem;
    if s != "" {
      ItemDecodes(s[0]);
      EscapeDecodes(s[1..]);
    }
  }

  /** Parsing the quoted escape of any text consumes all of it and yields the text. */
  lemma EscapeRoundTrip(s: string, rest: string)
    ensures ParseString(StringText(EscapeItems(s)) + rest) == GoodString(s, rest)
  {
    StringComplete(EscapeItems(s), rest);
    EscapeDecodes(s);
  }

  method JsonEscape(value: string) returns (out: string)
    ensures out == ItemsText(EscapeItems(value))
    ensures ParseString("\"" + (out + "\"")) == GoodString(value, "")
  {
    out := "";
    for i := 0 to |value|
      invariant out + ItemsText(EscapeItems(value[i..])) == ItemsText(EscapeItems(value))
    {
      var c := value[i];
      ghost var before := out;
      if c == '\\' {
        out := out + "\\\\";
      } else if c == '"' {
        out := out + "\\\"";
      } else if c == 8 as char {
        out := out + "\\b";
      } else if c == 12 as char {
        out := out + "\\f";
      } else if c == '\n' {
        out := out + "\\n";
      } else if c == '\r' {
        out := out + "\\r";
      } else if c == '\t' {
        out := out + "\\t";
      } else if c as int < 0x20 {
        out := out + ['\\', 'u', '0', '0', HexDigit(c as int / 16), HexDigit(c as int % 16)];
      } else {
        out := out + [c];
      }
      assert out == before + ItemText(EscapeItem(c));
      assert value[i..][1..] == value[i + 1..];
      Assoc(before, ItemText(EscapeItem(c)), ItemsText(EscapeItems(value[i + 1..])));
    }
    assert value[|value|..] == "";
    EscapeRoundTrip(value, "");
    assert StringText(EscapeItems(value)) + "" == StringText(EscapeItems(value));
  }

  // ---------- arrays of strings ----------

  function StringElementsTree(vs: seq<string>): (es: Elements)
    requires vs != []
    ensures ValidElements(es) && ElementsNesting(es) == 1
  {
    var v := String(EscapeItems(vs[0]));
    if |vs| == 1 then LastElement(v, "") else MoreElements(v, "", "", StringElementsTree(vs[1..]))
  }

  function StringArrayTree(vs: seq<string>): (v: Value)
    ensures ValidValue(v) && Nesting(v) <= 2
  {
    if vs == [] then EmptyArray("") else Array("", StringElementsTree(vs))
  }

  lemma {:induction false} TreeStrings(vs: seq<string>)
    requires vs != []
    ensures OnlyStrings(StringElementsTree(vs)) && LeadingStrings(StringElementsTree(vs)) == vs
  {
    hide EscapeItems, Decode, ValidItems;
    EscapeDecodes(vs[0]);
    if |vs| > 1 {
      TreeStrings(vs[1..]);
    }
  }

  /** What is still to be printed of texts between commas. */
  function Remaining(texts: seq<string>, first: bool): string {
    if texts == [] then "]" else (if first then "" else ",") + (texts[0] + Remaining(texts[1..], false))
  }

  /** Printing one more text. */
  lemma OneMoreText(before: string, texts: seq<string>, i: nat)
    requires i < |texts|
    ensures before + Remaining(texts[i..], i == 0) ==
            (before + (if i == 0 then "" else ",")) + texts[i] + Remaining(texts[i + 1..], false)
  {
    var comma, tail := if i == 0 then "" else ",", Remaining(texts[i + 1..], false);
    assert texts[i..][1..] == texts[i + 1..];
    Assoc(before, comma, texts[i] + tail);
    Assoc(before + comma, texts[i], tail);
  }

  function QuotedAll(vs: seq<string>): (r: seq<string>)
    ensures |r| == |vs|
  {
    seq(|vs|, i requires 0 <= i < |vs| => StringText(EscapeItems(vs[i])))
  }

  lemma {:induction false} RemainingIsTree(vs: seq<string>)
    requires vs != []
    ensures Remaining(QuotedAll(vs), true) == ElementsText(StringElementsTree(vs))
  {
    hide StringText, EscapeItems;
    assert QuotedAll(vs)[1..] == QuotedAll(vs[1..]);
    NoSpace("]");
    NoSpace(QuotedAll(vs)[0] + Remaining(QuotedAll(vs[1..]), false));
    if |vs| > 1 {
      var more := QuotedAll(vs[1..]);
      RemainingIsTree(vs[1..]);
      NoSpace(ElementsText(StringElementsTree(vs[1..])));
      NoSpace("," + ElementsText(StringElementsTree(vs[1..])));
      NoSpace(more[0] + Remaining(more[1..], false));
    }
  }

  /** Reading a printed array of strings gives the strings back, whatever they hold. */
  lemma StringArrayRoundTrip(vs: seq<string>)
    ensures StringArray(Text(StringArrayTree(vs))) == Strings(true, vs)
    ensures IsDocument(Text(StringArrayTree(vs)))
  {
    var v := StringArrayTree(vs);
    if vs != [] {
      TreeStrings(vs);
    }
    StringArrayOfTree("", v, "");
    assert "" + (Text(v) + "") == Text(v);
    assert DocumentText(Document("", v, "")) == Text(v);
  }

  method JsonStringArray(values: seq<string>) returns (out: string)
    ensures StringArray(out) == Strings(true, values)
    ensures IsDocument(out)
    ensures out == Text(StringArrayTree(values))
  {
    hide EscapeItems, ItemsText, StringElements, ElementsText, ParseChars, Remaining;
    ghost var texts := QuotedAll(values);
    out := "[";
    for i := 0 to |values|
      invariant out + Remaining(texts[i..], i == 0) == "[" + Remaining(texts, true)
    {
      OneMoreText(out, texts, i);
      ghost var comma := out + (if i == 0 then "" else ",");
      if i != 0 {
        out := out + ",";
      }
      var escaped := JsonEscape(values[i]);
      assert out == comma;
      out := out + ("\"" + (escaped + "\""));
      assert out == comma + texts[i];
    }
    NothingRemains(texts[|values|..]);
    out := out + "]";
    if values != [] {
      RemainingIsTree(values);
    } else {
      NothingRemains(texts);
    }
    NoSpace(Remaining(texts, true));
    StringArrayRoundTrip(values);
  }

  lemma NothingRemains(texts: seq<string>)
    requires texts == []
    ensures Remaining(texts, true) == Remaining(texts, false) == "]"
  {
  }

  // ---------- a value, or raw text wrapped as one ----------

  predicate IsPlainSpace(c: char) { c in " \t\r\n" }

  function SkipPlainSpace(s: string): string {
    if s != "" && IsPlainSpace(s[0]) then SkipPlainSpace(s[1..]) else s
  }

  predicate LooksLikeContainer(s: string) {
    Starts(SkipPlainSpace(s), '{') || Starts(SkipPlainSpace(s), '[')
  }

  function RawMember(s: string): (m: Member)
    ensures ValidMember(m) && Nesting(m.value) == 1
  {
    Member(EscapeItems("raw"), "", "", String(EscapeItems(s)))
  }

  function RawTree(s: string): (v: Value)
    ensures ValidValue(v) && Nesting(v) == 2
  {
    var m := RawMember(s);
    Object("", LastMember(m, ""))
  }

  function ValueOrRaw(s: string): string {
    if s == "" then "{}"
    else if LooksLikeContainer(s) && ParsesAsDocument(s) then s
    else Text(RawTree(s))
  }

  lemma RawTextIs(s: string)
    ensures Text(RawTree(s)) == "{\"raw\":\"" + (ItemsText(EscapeItems(s)) + "\"}")
  {
    var quoted := StringText(EscapeItems(s));
    RawKey();
    NoSpace(":" + ("" + quoted));
    NoSpace(quoted);
    assert MemberText(RawMember(s)) == "\"raw\"" + (":" + quoted);
    NoSpace("}");
    NoSpace(MemberText(RawMember(s)) + "}");
    RawShape(ItemsText(EscapeItems(s)));
  }

  lemma RawShape(e: string)
    ensures "{" + (("\"raw\"" + (":" + ("\"" + (e + "\"")))) + "}") == "{\"raw\":\"" + (e + "\"}")
  {
  }

  lemma NoSpace(s: string)
    ensures "" + s == s
  {
  }

  lemma RawKey()
    ensures StringText(EscapeItems("raw")) == "\"raw\""
  {
    assert "raw"[1..] == "aw" && "aw"[1..] == "w" && "w"[1..] == "";
    assert EscapeItems("w") == Cons(Plain('w'), Nil);
    assert EscapeItems("aw") == Cons(Plain('a'), Cons(Plain('w'), Nil));
    assert ItemsText(EscapeItems("w")) == "w";
    assert ItemsText(EscapeItems("aw")) == "aw";
    assert ItemsText(EscapeItems("raw")) == "raw";
  }

  lemma RawIsDocument(s: string)
    ensures var out := Text(RawTree(s)); out != "" && IsDocument(out) && LooksLikeContainer(out)
  {
    hide MembersText;
    var d := Document("", RawTree(s), "");
    assert DocumentText(d) == Text(RawTree(s));
    assert ValidDocument(d);
  }

  lemma EmptyIsDocument()
    ensures IsDocument("{}") && LooksLikeContainer("{}")
  {
    var d := Document("", EmptyObject(""), "");
    assert DocumentText(d) == "{}";
    assert ValidDocument(d);
  }

  /** The printed text is always a document, and printing it again changes nothing. */
  lemma ValueOrRawIsDocument(s: string)
    ensures IsDocument(ValueOrRaw(s))
    ensures ValueOrRaw(ValueOrRaw(s)) == ValueOrRaw(s)
  {
    hide ParsesAsDocument, RawTree, IsDocument, LooksLikeContainer, Text;
    EmptyIsDocument();
    RawIsDocument(s);
    RecognizesGrammar(s);
    RecognizesGrammar(ValueOrRaw(s));
  }

  /** Text that had to be wrapped can be recovered from the member `raw`. */
  lemma RawRoundTrip(s: string)
    ensures var raw := FindTopLevel(Text(RawTree(s)), "raw");
      raw.Some? && ParseString(raw.value) == GoodString(s, "")
  {
    var v := RawTree(s);
    EscapeDecodes("raw");
    FindTopLevelOfTree("", v, "raw", "");
    assert "" + (Text(v) + "") == Text(v);
    EscapeRoundTrip(s, "");
    assert StringText(EscapeItems(s)) + "" == StringText(EscapeItems(s));
  }

  method JsonValueOrRaw(value: string) returns (out: string)
    ensures out == ValueOrRaw(value)
    ensures IsDocument(out)
  {
    hide ItemsText, EscapeItems, ParseChars;
    ValueOrRawIsDocument(value);
    if value == "" {
      return "{}";
    }
    var first := 0;
    while first < |value| && IsPlainSpace(value[first])
      invariant first <= |value|
      invariant SkipPlainSpace(value[first..]) == SkipPlainSpace(value)
    {
      assert value[first..][1..] == value[first + 1..];
      first := first + 1;
    }
    RecognizesGrammar(value);
    if first < |value| && (value[first] == '{' || value[first] == '[') {
      var complete := JsonParsing.IsCompleteJsonValue(value);
      if complete {
        return value;
      }
    }
    var escaped := JsonEscape(value);
    RawTextIs(value);
    out := "{\"raw\":\"" + (escaped + "\"}");
  }
}
