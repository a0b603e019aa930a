/** The micro manager's own decoder for string members, against the parser's. */
module ProposalFields {
  import opened Wrappers
  import opened JsonGrammar
  import opened JsonRecognizer
  import opened JsonMembers
  import opened JsonPrinters
  import JsonParsing

  function HandUnescape(c: char): char {
    if c == 'n' then '\n' else if c == 'r' then '\r' else if c == 't' then '\t' else c
  }

  /** The text between the quotes, decoded character by character. */
  function HandDecode(escaped: bool, s: string): string
    decreases |s|
  {
    if s == "" then ""
    else if escaped then [HandUnescape(s[0])] + HandDecode(false, s[1..])
    else if s[0] == '\\' then HandDecode(true, s[1..])
    else [s[0]] + HandDecode(false, s[1..])
  }

  predicate IsQuoted(s: string) { |s| >= 2 && s[0] == '"' && s[|s| - 1] == '"' }

  function StringField(s: string, key: string): string {
    var raw := FindTopLevel(s, key);
    if raw.None? || !IsQuoted(raw.value) then "" else HandDecode(false, raw.value[1..|raw.value| - 1])
  }

  method ExtractJsonStringField(objectJson: string, key: string) returns (out: string)
    ensures out == StringField(objectJson, key)
  {
    var raw := JsonParsing.ExtractTopLevelJsonValue(objectJson, key);
    if raw.None? {
      return "";
    }
    var value := raw.value;
    if |value| < 2 || value[0] != '"' || value[|value| - 1] != '"' {
      return "";
    }
    ghost var goal := HandDecode(false, value[1..|value| - 1]);
    out := "";
    var escaped := false;
    for i := 1 to |value| - 1
      invariant out + HandDecode(escaped, value[i..|value| - 1]) == goal
    {
      var c := value[i];
      assert value[i..|value| - 1][1..] == value[i + 1..|value| - 1];
      if escaped {
        Assoc(out, [HandUnescape(c)], HandDecode(false, value[i + 1..|value| - 1]));
        out := out + [HandUnescape(c)];
        escaped := false;
      } else if c == '\\' {
        escaped := true;
      } else {
        Assoc(out, [c], HandDecode(false, value[i + 1..|value| - 1]));
        out := out + [c];
      }
    }
  }

  /** Three letters stand for control characters, any other escaped character for itself. */
  lemma HandReadsEscape(c: char, rest: string)
    ensures HandDecode(false, ['\\', c] + rest) ==
            [if c == 'n' then 10 as char else if c == 'r' then 13 as char else if c == 't' then 9 as char else c]
            + HandDecode(false, rest)
    ensures c != '\\' ==> HandDecode(false, [c] + rest) == [c] + HandDecode(false, rest)
  {
    var s := ['\\', c] + rest;
    assert s[1..] == [c] + rest && s[1..][1..] == rest && ([c] + rest)[1..] == rest;
  }

  // ---------- on the items of a string ----------

  function HandItem(i: Item): string {
    match i
    case Plain(c) => [c]
    case Escaped(e) => [HandUnescape(e)]
    case Unicode(h0, h1, h2, h3) => ['u', h0, h1, h2, h3]
  }

  function HandItems(items: List<Item>): string {
    match items
    case Nil => ""
    case Cons(i, rest) => HandItem(i) + HandItems(rest)
  }

  lemma HandDecodesItem(i: Item, rest: string)
    requires ValidItem(i)
    ensures HandDecode(false, ItemText(i) + rest) == HandItem(i) + HandDecode(false, rest)
  {
    match i
    case Plain(c) =>
      assert ([c] + rest)[1..] == rest;
    case Escaped(e) =>
      var s := ItemText(i) + rest;
      assert s[1..] == [e] + rest && ([e] + rest)[1..] == rest;
    case Unicode(h0, h1, h2, h3) =>
      var s := ItemText(i) + rest;
      assert s[1..] == ['u', h0, h1, h2, h3] + rest;
      assert s[1..][1..] == [h0] + ([h1] + ([h2] + ([h3] + rest)));
      HandDecodesDigit(h3, rest);
      HandDecodesDigit(h2, [h3] + rest);
      HandDecodesDigit(h1, [h2] + ([h3] + rest));
      HandDecodesDigit(h0, [h1] + ([h2] + ([h3] + rest)));
      var tail := HandDecode(false, rest);
      assert ['u'] + ([h0] + ([h1] + ([h2] + ([h3] + tail)))) == HandItem(i) + tail;
  }

  lemma HandDecodesDigit(h: char, rest: string)
    requires IsHexDigit(h)
    ensures HandDecode(false, [h] + rest) == [h] + HandDecode(false, rest)
  {
    assert ([h] + rest)[1..] == rest;
  }

  lemma {:induction false} HandDecodesItems(items: List<Item>)
    requires ValidItems(items)
    ensures HandDecode(false, ItemsText(items)) == HandItems(items)
  {
    match items
    case Nil =>
    case Cons(i, rest) =>
      HandDecodesItem(i, ItemsText(rest));
      HandDecodesItems(rest);
  }

  /** An item that both decoders read alike. */
  predicate Common(i: Item) { !i.Unicode? && i != Escaped('b') && i != Escaped('f') }

  predicate AllCommon(items: List<Item>) { items.Cons? ==> Common(items.head) && AllCommon(items.tail) }

  lemma ItemAgreesExactlyWhen(i: Item)
    requires ValidItem(i)
    ensures |HandItem(i)| >= 1 && (|HandItem(i)| == 1 <==> !i.Unicode?)
    ensures HandItem(i) == [DecodeItem(i)] <==> Common(i)
  {
  }

  lemma {:induction false} HandIsLonger(items: List<Item>)
    requires ValidItems(items)
    ensures |HandItems(items)| >= |Decode(items)|
  {
    if items.Cons? {
      ItemAgreesExactlyWhen(items.head);
      HandIsLonger(items.tail);
    }
  }

  /** The two decoders agree on a string if and only if it has no `\b`, `\f` or `\u` escape. */
  lemma {:induction false} DecodersAgreeExactlyWhen(items: List<Item>)
    requires ValidItems(items)
    ensures HandItems(items) == Decode(items) <==> AllCommon(items)
  {
    hide HandItem, DecodeItem, Common;
    if items.Cons? {
      var i, rest := items.head, items.tail;
      ItemAgreesExactlyWhen(i);
      DecodersAgreeExactlyWhen(rest);
      HandIsLonger(rest);
      var hand, good := HandItems(items), Decode(items);
      if hand == good {
        assert |HandItem(i)| == 1;
        assert hand[..1] == HandItem(i) && good[..1] == [DecodeItem(i)];
        assert hand[1..] == HandItems(rest) && good[1..] == Decode(rest);
      }
    }
  }

  /**
    On an object, whatever follows it: a member that is a string comes out hand-decoded, and so as
    the parser reads it exactly when it has only common escapes; any other member comes out empty.
   */
  lemma StringFieldOfTree(before: string, v: Value, key: string, rest: string)
    requires AllSpace(before) && ValidTopLevel(v)
    ensures var member, out := Lookup(v, key), StringField(before + (Text(v) + rest), key);
      && (member.Some? && member.value.String? ==>
            && out == HandItems(member.value.items)
            && (out == Decode(member.value.items) <==> AllCommon(member.value.items)))
      && (!(member.Some? && member.value.String?) ==> out == "")
  {
    FindTopLevelOfTree(before, v, key, rest);
    var member := Lookup(v, key);
    if member.Some? {
      if member.value.String? {
        var items := member.value.items;
        var inside := ItemsText(items);
        var text := StringText(items);
        assert text[|text| - 1] == (inside + "\"")[|inside|];
        assert text[1..|text| - 1] == inside;
        HandDecodesItems(items);
        DecodersAgreeExactlyWhen(items);
      } else {
        NotAString(member.value, "");
        OtherTextsAreNotQuoted(member.value);
      }
    }
  }

  lemma OtherTextsAreNotQuoted(v: Value)
    requires ValidValue(v) && !v.String?
    ensures !IsQuoted(Text(v))
  {
    TextStart(v);
  }

  // ---------- against the escaper ----------

  /** A character that the escaper writes in a way the hand decoder reads back. */
  predicate Survives(c: char) { c as int >= 0x20 || c == '\n' || c == '\r' || c == '\t' }

  lemma {:induction false} EscapesAreCommonExactlyWhen(s: string)
    ensures AllCommon(EscapeItems(s)) <==> forall i :: 0 <= i < |s| ==> Survives(s[i])
  {
    if s != "" {
      EscapesAreCommonExactlyWhen(s[1..]);
      EscapeIsCommonExactlyWhen(s[0]);
      assert (forall i :: 0 <= i < |s| ==> Survives(s[i])) <==>
             Survives(s[0]) && forall i :: 0 <= i < |s[1..]| ==> Survives(s[1..][i]) by {
        assert forall i :: 0 < i < |s| ==> s[i] == s[1..][i - 1];
      }
    }
  }

  lemma EscapeIsCommonExactlyWhen(c: char)
    ensures Common(EscapeItem(c)) <==> Survives(c)
  {
  }

  /** What the escaper wrote, the hand decoder reads back exactly when no other control character is in it. */
  lemma HandReadsEscapesExactlyWhen(s: string)
    ensures HandItems(EscapeItems(s)) == s <==> forall i :: 0 <= i < |s| ==> Survives(s[i])
  {
    DecodersAgreeExactlyWhen(EscapeItems(s));
    EscapeDecodes(s);
    EscapesAreCommonExactlyWhen(s);
  }
}
