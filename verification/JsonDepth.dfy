/** The depth cap is exact: a text of the grammar is refused if and only if it nests too deep. */
module JsonDepth {
  import opened JsonGrammar
  import opened JsonRecognizer

  lemma {:induction false} ValueTooDeep(v: Value, room: nat, rest: string)
    requires ValidValue(v) && Nesting(v) > room && Ends(v, rest)
    ensures ParseValue(Text(v) + rest, room).None?
    decreases v, 1
  {
    hide ParseArray, ParseObject, ParseString, ParseNumber, NumeralText, StringText;
    TextStart(v);
    var s := Text(v) + rest;
    assert s[0] == Text(v)[0];
    assert SkipSpace(s) == s;
    if room > 0 {
      if v.Array? {
        ArrayTooDeep(v.ws, v.elements, room - 1, rest);
      } else {
        ObjectTooDeep(v.ws, v.members, room - 1, rest);
      }
    }
  }

  lemma {:induction false} ArrayTooDeep(ws: string, es: Elements, room: nat, rest: string)
    requires AllSpace(ws) && ValidElements(es) && ElementsNesting(es) > room
    ensures var s := Text(Array(ws, es)) + rest; Starts(s, '[') && ParseArray(s, room).None?
    decreases es, 2
  {
    hide ParseElements, ElementsText, ValidElements, ParseValue;
    Assoc4("[", ws, ElementsText(es), rest);
    ElementsStart(es, rest);
    SkipSpaceOver(ws, ElementsText(es) + rest);
    ElementsTooDeep(es, room, rest);
  }

  lemma {:induction false} ObjectTooDeep(ws: string, ms: Members, room: nat, rest: string)
    requires AllSpace(ws) && ValidMembers(ms) && MembersNesting(ms) > room
    ensures var s := Text(Object(ws, ms)) + rest; Starts(s, '{') && ParseObject(s, room).None?
    decreases ms, 2
  {
    hide ParseMembers, MembersText, ValidMembers, ParseValue;
    Assoc4("{", ws, MembersText(ms), rest);
    MembersStart(ms, rest);
    SkipSpaceOver(ws, MembersText(ms) + rest);
    MembersTooDeep(ms, room, rest);
  }

  lemma {:induction false} ElementsTooDeep(es: Elements, room: nat, rest: string)
    requires ValidElements(es) && ElementsNesting(es) > room
    ensures ParseElements(ElementsText(es) + rest, room).None?
    decreases es, 0
  {
    var tail := ElementsTail(es, rest);
    ElementsSplit(es, rest);
    SpaceEndsNumber(es.ws, tail);
    if Nesting(es.value) > room {
      ValueTooDeep(es.value, room, es.ws + tail);
    } else {
      ValueComplete(es.value, room, es.ws + tail);
      SkipSpaceOver(es.ws, tail);
      ElementsStart(es.rest, rest);
      SkipSpaceOver(es.wsNext, ElementsText(es.rest) + rest);
      ElementsTooDeep(es.rest, room, rest);
    }
  }

  lemma {:induction false} MemberTooDeep(m: Member, room: nat, rest: string)
    requires ValidMember(m) && Nesting(m.value) > room && Ends(m.value, rest)
    ensures var key := ParseKey(MemberText(m) + rest);
            key.GoodString? && ParseValue(key.rest, room).None?
    decreases m, 1
  {
    hide ParseKey, ParseValue, Nesting;
    var afterColon := m.wsValue + (Text(m.value) + rest);
    MemberSplit(m, rest);
    KeyComplete(m.key, m.wsKey, afterColon);
    SkipThenParse(m.wsValue, m.value, room, rest);
    ValueTooDeep(m.value, room, rest);
  }

  lemma {:induction false} MembersTooDeep(ms: Members, room: nat, rest: string)
    requires ValidMembers(ms) && MembersNesting(ms) > room
    ensures ParseMembers(MembersText(ms) + rest, room).None?
    decreases ms, 0
  {
    hide ParseKey, ParseValue;
    var tail := MembersTail(ms, rest);
    MembersSplit(ms, rest);
    SpaceEndsNumber(ms.ws, tail);
    if Nesting(ms.member.value) > room {
      MemberTooDeep(ms.member, room, ms.ws + tail);
    } else {
      MemberComplete(ms.member, room, ms.ws + tail);
      SkipSpaceOver(ms.ws, tail);
      MembersStart(ms.rest, rest);
      SkipSpaceOver(ms.wsNext, MembersText(ms.rest) + rest);
      MembersTooDeep(ms.rest, room, rest);
    }
  }

  /** Any object or array of the grammar, however deep: accepted if and only if it nests at most 64 levels. */
  lemma DepthCapIsExact(before: string, v: Value, after: string)
    requires AllSpace(before) && ValidValue(v) && v.Container?() && AllSpace(after)
    ensures IsDocument(before + (Text(v) + after)) <==> Nesting(v) <= MAX_DEPTH
  {
    var s := before + (Text(v) + after);
    if Nesting(v) <= MAX_DEPTH {
      var d := Document(before, v, after);
      assert ValidDocument(d) && DocumentText(d) == s;
    } else {
      RecognizesGrammar(s);
      TextStart(v);
      SkipSpaceOver(before, Text(v) + after);
      ValueTooDeep(v, MAX_DEPTH, after);
    }
  }

  /** However a text is read as a document, it nests equally deep. */
  lemma SameTextSameNesting(a: Document, b: Document)
    requires ValidDocument(a) && ValidDocument(b) && DocumentText(a) == DocumentText(b)
    ensures Nesting(a.value) == Nesting(b.value)
  {
    hide Nesting, ParseValue;
    NestingIsLeastRoom(a, b);
    NestingIsLeastRoom(b, a);
  }

  lemma NestingIsLeastRoom(a: Document, b: Document)
    requires ValidDocument(a) && ValidDocument(b) && DocumentText(a) == DocumentText(b)
    ensures Nesting(b.value) <= Nesting(a.value)
  {
    hide Nesting, ParseValue;
    TextStart(a.value);
    TextStart(b.value);
    SkipSpaceOver(a.before, Text(a.value) + a.after);
    SkipSpaceOver(b.before, Text(b.value) + b.after);
    ValueComplete(a.value, Nesting(a.value), a.after);
    if Nesting(b.value) > Nesting(a.value) {
      ValueTooDeep(b.value, Nesting(a.value), b.after);
    }
  }

  // ---------- brackets inside brackets ----------

  function Repeat(c: char, n: nat): string { if n == 0 then "" else Repeat(c, n - 1) + [c] }

  function Nested(n: nat): Value
    requires n > 0
  {
    if n == 1 then EmptyArray("") else Array("", LastElement(Nested(n - 1), ""))
  }

  lemma {:induction false} NestedIs(n: nat)
    requires n > 0
    ensures ValidValue(Nested(n)) && Nesting(Nested(n)) == n && Nested(n).Container?()
    ensures Text(Nested(n)) == Repeat('[', n) + Repeat(']', n)
  {
    var opening, closing := Repeat('[', n - 1), Repeat(']', n - 1);
    OneInFront('[', n - 1);
    if n == 1 {
      assert Text(Nested(1)) == "[]" && Repeat('[', 1) == "[" && Repeat(']', 1) == "]";
    } else {
      NestedIs(n - 1);
      assert Text(Nested(n)) == "[" + (opening + closing + "]");
      assert "[" + (opening + closing + "]") == (['['] + opening) + (closing + [']']);
    }
  }

  lemma {:induction false} OneInFront(c: char, n: nat)
    ensures Repeat(c, n) + [c] == [c] + Repeat(c, n)
  {
    if n > 0 {
      OneInFront(c, n - 1);
      assert [c] + (Repeat(c, n - 1) + [c]) == ([c] + Repeat(c, n - 1)) + [c];
    }
  }

  /** So many opening and as many closing brackets are a document up to 64. */
  lemma BracketsAreDocumentUpTo64(n: nat)
    requires n > 0
    ensures IsDocument(Repeat('[', n) + Repeat(']', n)) <==> n <= 64
  {
    hide IsDocument, Text, Nesting, ValidValue, Repeat;
    NestedIs(n);
    DepthCapIsExact("", Nested(n), "");
    assert "" + (Text(Nested(n)) + "") == Text(Nested(n));
  }
}
