/**
  What the other entry points of the parser compute, as functions on the text: the array of
  strings, the top-level keys and the first top-level member with a given key.  The lemmas say
  what each of them means on a tree of the grammar.
 */
module JsonMembers {
  import opened Wrappers
  import opened JsonGrammar
  import opened JsonRecognizer

  // ---------- functions on the text ----------

  /** Whether the text is an array of strings, and the strings read before the first failure. */
  datatype Strings = Strings(ok: bool, values: seq<string>)

  function StringArray(s: string): Strings {
    var t := SkipSpace(s);
    if !Starts(t, '[') then Strings(false, []) else
    var u := SkipSpace(t[1..]);
    if Starts(u, ']') then Strings(SkipSpace(u[1..]) == "", []) else StringElements(u)
  }

  function StringElements(s: string): Strings
    decreases |s|
  {
    var str := ParseString(s);
    if str.BadString? then Strings(false, []) else
    var t := SkipSpace(str.rest);
    if Starts(t, ']') then Strings(SkipSpace(t[1..]) == "", [str.decoded])
    else if Starts(t, ',') then PrependValues([str.decoded], StringElements(SkipSpace(t[1..])))
    else Strings(false, [str.decoded])
  }

  function PrependValues(vs: seq<string>, r: Strings): Strings { Strings(r.ok, vs + r.values) }

  lemma PrependValuesTwice(vs: seq<string>, v: string, r: Strings)
    ensures PrependValues(vs + [v], r) == PrependValues(vs, PrependValues([v], r))
  {
    assert vs + [v] + r.values == vs + ([v] + r.values);
  }

  /** Whether an object starts the text, and its decoded keys in order. */
  function TopLevelKeys(s: string): Strings {
    var t := SkipSpace(s);
    if !Starts(t, '{') then Strings(false, []) else
    var u := SkipSpace(t[1..]);
    if Starts(u, '}') then Strings(true, []) else MemberKeys(u)
  }

  function MemberKeys(s: string): Strings
    decreases |s|
  {
    var key := ParseKey(s);
    if key.BadString? then Strings(false, []) else
    var v := ParseValue(key.rest, MAX_DEPTH);
    if v.None? then Strings(false, [key.decoded]) else
    var t := SkipSpace(v.value);
    if Starts(t, '}') then Strings(true, [key.decoded])
    else if Starts(t, ',') then PrependValues([key.decoded], MemberKeys(SkipSpace(t[1..])))
    else Strings(false, [key.decoded])
  }

  /** The text of the first top-level member with this decoded key. */
  function FindTopLevel(s: string, needle: string): Option<string> {
    var t := SkipSpace(s);
    if !Starts(t, '{') then None else
    var u := SkipSpace(t[1..]);
    if Starts(u, '}') then None else FindMember(u, needle)
  }

  function FindMember(s: string, needle: string): Option<string>
    decreases |s|
  {
    var key := ParseKey(s);
    if key.BadString? then None else
    var start := SkipSpace(key.rest);
    var v := ParseValue(start, MAX_DEPTH);
    if v.None? then None
    else if key.decoded == needle then Some(start[..|start| - |v.value|])
    else
      var t := SkipSpace(v.value);
      if Starts(t, ',') then FindMember(SkipSpace(t[1..]), needle) else None
  }

  // ---------- the same on trees ----------

  /** The decoded key of the first member. */
  function Key(ms: Members): string
    requires ValidMembers(ms)
  {
    assert ValidMember(ms.member);
    Decode(ms.member.key)
  }

  function Keys(ms: Members): seq<string>
    requires ValidMembers(ms)
  {
    [Key(ms)] + (if ms.LastMember? then [] else Keys(ms.rest))
  }

  function FirstMember(ms: Members, needle: string): (r: Option<Value>)
    requires ValidMembers(ms)
    ensures r.Some? ==> ValidValue(r.value)
  {
    assert ValidMember(ms.member);
    if Key(ms) == needle then Some(ms.member.value)
    else if ms.LastMember? then None
    else FirstMember(ms.rest, needle)
  }

  function ObjectKeys(v: Value): seq<string>
    requires ValidValue(v)
  {
    if v.Object? then Keys(v.members) else []
  }

  function Lookup(v: Value, needle: string): (r: Option<Value>)
    requires ValidValue(v)
    ensures r.Some? ==> ValidValue(r.value)
  {
    if v.Object? then FirstMember(v.members, needle) else None
  }

  /** The decoded strings before the first element that is not a string. */
  function LeadingStrings(es: Elements): seq<string>
    requires ValidElements(es)
  {
    assert ValidValue(es.value);
    if !es.value.String? then []
    else [Decode(es.value.items)] + (if es.LastElement? then [] else LeadingStrings(es.rest))
  }

  predicate OnlyStrings(es: Elements) {
    es.value.String? && (es.MoreElements? ==> OnlyStrings(es.rest))
  }

  predicate StringArray?(v: Value) { v.EmptyArray? || (v.Array? && OnlyStrings(v.elements)) }

  function ArrayStrings(v: Value): seq<string>
    requires ValidValue(v)
  {
    if v.Array? then LeadingStrings(v.elements) else []
  }

  predicate ValidTopLevel(v: Value) {
    ValidValue(v) && Nesting(v) <= MAX_DEPTH + 1
  }

  // ---------- agreement ----------

  lemma {:induction false} MemberStep(ms: Members, rest: string)
    requires ValidMembers(ms) && MembersNesting(ms) <= MAX_DEPTH
    ensures var s := MembersText(ms) + rest;
      && ParseKey(s).GoodString? && ParseKey(s).decoded == Key(ms)
      && var start := SkipSpace(ParseKey(s).rest);
         var after := ms.ws + MembersTail(ms, rest);
         && start == Text(ms.member.value) + after
         && ParseValue(ParseKey(s).rest, MAX_DEPTH) == ParseValue(start, MAX_DEPTH) == Some(after)
         && SkipSpace(after) == MembersTail(ms, rest)
    ensures ms.MoreMembers? ==> SkipSpace(MembersTail(ms, rest)[1..]) == MembersText(ms.rest) + rest
  {
    var tail, v := MembersTail(ms, rest), ms.member.value;
    assert ValidMember(ms.member);
    MembersSplit(ms, rest);
    SpaceEndsNumber(ms.ws, tail);
    MemberComplete(ms.member, MAX_DEPTH, ms.ws + tail);
    TextStart(v);
    SkipSpaceOver(ms.member.wsValue, Text(v) + (ms.ws + tail));
    ValueComplete(v, MAX_DEPTH, ms.ws + tail);
    SkipSpaceOver(ms.ws, tail);
    if ms.MoreMembers? {
      MembersStart(ms.rest, rest);
      SkipSpaceOver(ms.wsNext, MembersText(ms.rest) + rest);
    }
  }

  lemma {:induction false} MemberKeysOfTree(ms: Members, rest: string)
    requires ValidMembers(ms) && MembersNesting(ms) <= MAX_DEPTH
    ensures MemberKeys(MembersText(ms) + rest) == Strings(true, Keys(ms))
  {
    MemberStep(ms, rest);
    if ms.MoreMembers? {
      MemberKeysOfTree(ms.rest, rest);
    }
  }

  lemma {:induction false} FindMemberOfTree(ms: Members, needle: string, rest: string)
    requires ValidMembers(ms) && MembersNesting(ms) <= MAX_DEPTH
    ensures FindMember(MembersText(ms) + rest, needle) ==
            (if FirstMember(ms, needle).None? then None else Some(Text(FirstMember(ms, needle).value)))
  {
    MemberStep(ms, rest);
    var v, after := ms.member.value, ms.ws + MembersTail(ms, rest);
    assert (Text(v) + after)[..|Text(v)|] == Text(v);
    if ms.MoreMembers? {
      FindMemberOfTree(ms.rest, needle, rest);
    }
  }

  /** Skipping to the first member, or to the closing brace of an empty object. */
  lemma ObjectStep(before: string, v: Value, rest: string)
    requires AllSpace(before) && ValidValue(v)
    ensures var t := SkipSpace(before + (Text(v) + rest));
      && t == Text(v) + rest
      && (Starts(t, '{') <==> v.Object? || v.EmptyObject?)
      && (Starts(t, '[') <==> v.Array? || v.EmptyArray?)
      && (v.EmptyObject? ==> SkipSpace(t[1..]) == "}" + rest)
      && (v.EmptyArray? ==> SkipSpace(t[1..]) == "]" + rest)
      && (v.Object? ==> SkipSpace(t[1..]) == MembersText(v.members) + rest)
      && (v.Array? ==> SkipSpace(t[1..]) == ElementsText(v.elements) + rest)
  {
    TextStart(v);
    assert (Text(v) + rest)[0] == Text(v)[0];
    SkipSpaceOver(before, Text(v) + rest);
    match v {
      case EmptyObject(ws) => Assoc4("{", ws, "}", rest); SkipSpaceOver(ws, "}" + rest);
      case EmptyArray(ws) => Assoc4("[", ws, "]", rest); SkipSpaceOver(ws, "]" + rest);
      case Object(ws, ms) =>
        Assoc4("{", ws, MembersText(ms), rest);
        MembersStart(ms, rest);
        SkipSpaceOver(ws, MembersText(ms) + rest);
      case Array(ws, es) =>
        Assoc4("[", ws, ElementsText(es), rest);
        ElementsStart(es, rest);
        SkipSpaceOver(ws, ElementsText(es) + rest);
      case _ =>
        assert v.Number? || v.String? || v == True || v == False || v == Null;
    }
  }

  lemma TopLevelKeysOfTree(before: string, v: Value, rest: string)
    requires AllSpace(before) && ValidTopLevel(v)
    requires v.Object? || v.EmptyObject?
    ensures TopLevelKeys(before + (Text(v) + rest)) == Strings(true, ObjectKeys(v))
  {
    ObjectStep(before, v, rest);
    if v.Object? {
      MembersStart(v.members, rest);
      MemberKeysOfTree(v.members, rest);
    }
  }

  /**
    On an object, whatever follows it, extraction returns the exact text of the first top-level
    member whose decoded key is the needle, and nothing when there is none: never a nested member
    and never text inside a string.  On any other value it returns nothing.
   */
  lemma FindTopLevelOfTree(before: string, v: Value, needle: string, rest: string)
    requires AllSpace(before) && ValidTopLevel(v)
    ensures FindTopLevel(before + (Text(v) + rest), needle) ==
            (if Lookup(v, needle).None? then None else Some(Text(Lookup(v, needle).value)))
  {
    ObjectStep(before, v, rest);
    if v.Object? {
      MembersStart(v.members, rest);
      FindMemberOfTree(v.members, needle, rest);
    }
  }

  /** On any text at all, what extraction returns is one whole value, consumed from end to end. */
  lemma {:induction false} FindTopLevelIsValue(s: string, needle: string)
    requires FindTopLevel(s, needle).Some?
    ensures var slice := FindTopLevel(s, needle).value;
      && ParseValue(slice, MAX_DEPTH) == Some("")
      && exists v :: ValidValue(v) && Nesting(v) <= MAX_DEPTH && Text(v) == slice
  {
    FindMemberIsValue(SkipSpace(SkipSpace(s)[1..]), needle);
  }

  lemma {:induction false} FindMemberIsValue(s: string, needle: string)
    requires FindMember(s, needle).Some?
    ensures var slice := FindMember(s, needle).value;
      && ParseValue(slice, MAX_DEPTH) == Some("")
      && exists v :: ValidValue(v) && Nesting(v) <= MAX_DEPTH && Text(v) == slice
    decreases |s|
  {
    var key := ParseKey(s);
    var start := SkipSpace(key.rest);
    var after := ParseValue(start, MAX_DEPTH).value;
    if key.decoded == needle {
      SkipSpaceIdempotent(key.rest);
      var v := ValueSound(start, MAX_DEPTH);
      assert start == LeadingSpace(start) + start;
      assert start == Text(v) + after;
      assert start[..|start| - |after|] == Text(v);
      ValueComplete(v, MAX_DEPTH, "");
      assert Text(v) + "" == Text(v);
    } else {
      FindMemberIsValue(SkipSpace(SkipSpace(after)[1..]), needle);
    }
  }

  lemma {:induction false} StringElementsOfTree(es: Elements, after: string)
    requires ValidElements(es) && AllSpace(after)
    ensures StringElements(ElementsText(es) + after) == Strings(OnlyStrings(es), LeadingStrings(es))
  {
    var tail := ElementsTail(es, after);
    ElementsSplit(es, after);
    if es.value.String? {
      StringComplete(es.value.items, es.ws + tail);
      SkipSpaceOver(es.ws, tail);
      SpaceOnly(after);
      if es.MoreElements? {
        assert tail[1..] == es.wsNext + (ElementsText(es.rest) + after);
        ElementsStart(es.rest, after);
        SkipSpaceOver(es.wsNext, ElementsText(es.rest) + after);
        StringElementsOfTree(es.rest, after);
      }
    } else {
      TextStart(es.value);
      NotAString(es.value, es.ws + tail);
    }
  }

  lemma NotAString(v: Value, rest: string)
    requires ValidValue(v) && !v.String?
    ensures ParseString(Text(v) + rest) == BadString
  {
    TextStart(v);
    assert Text(v)[0] != '"';
    assert (Text(v) + rest)[0] == Text(v)[0];
  }

  /**
    On a value followed by white space, the reader succeeds exactly on arrays of strings; either
    way it hands back the strings before the first other element.
   */
  lemma StringArrayOfTree(before: string, v: Value, after: string)
    requires AllSpace(before) && ValidValue(v) && AllSpace(after)
    ensures StringArray(before + (Text(v) + after)) == Strings(StringArray?(v), ArrayStrings(v))
  {
    ObjectStep(before, v, after);
    if v.EmptyArray? {
      SpaceOnly(after);
    } else if v.Array? {
      ElementsStart(v.elements, after);
      StringElementsOfTree(v.elements, after);
    }
  }

  // ---------- exactly when the readers succeed ----------

  ghost predicate ObjectFirst(s: string, before: string, v: Value, rest: string) {
    AllSpace(before) && ValidTopLevel(v) && (v.Object? || v.EmptyObject?) && s == before + (Text(v) + rest)
  }

  ghost predicate StartsWithObject(s: string) { exists before, v, rest :: ObjectFirst(s, before, v, rest) }

  lemma {:induction false} KeysExactlyWhenMembers(s: string)
    ensures MemberKeys(s).ok <==> ParseMembers(s, MAX_DEPTH).Some?
    decreases |s|
  {
    hide ParseKey, ParseValue;
    var key := ParseKey(s);
    if key.GoodString? && ParseValue(key.rest, MAX_DEPTH).Some? {
      var t := SkipSpace(ParseValue(key.rest, MAX_DEPTH).value);
      if Starts(t, ',') {
        KeysExactlyWhenMembers(SkipSpace(t[1..]));
      }
    }
  }

  /** The keys are read exactly from texts that start with an object of the grammar. */
  lemma TopLevelKeysExactlyWhen(s: string)
    ensures TopLevelKeys(s).ok <==> StartsWithObject(s)
  {
    if StartsWithObject(s) {
      var before, v, rest :| ObjectFirst(s, before, v, rest);
      TopLevelKeysOfTree(before, v, rest);
    }
    if TopLevelKeys(s).ok {
      var t := SkipSpace(s);
      KeysExactlyWhenMembers(SkipSpace(t[1..]));
      var v := ObjectSound(t, MAX_DEPTH);
      assert s == LeadingSpace(s) + t;
      assert ObjectFirst(s, LeadingSpace(s), v, ParseObject(t, MAX_DEPTH).value);
    }
  }

  ghost predicate StringArrayBetween(s: string, before: string, v: Value, after: string) {
    AllSpace(before) && ValidValue(v) && StringArray?(v) && AllSpace(after) && s == before + (Text(v) + after)
  }

  ghost predicate IsStringArray(s: string) { exists before, v, after :: StringArrayBetween(s, before, v, after) }

  lemma StringValueSound(s: string) returns (v: Value)
    requires ParseString(s).GoodString?
    ensures v.String? && ValidValue(v) && s == Text(v) + ParseString(s).rest
  {
    var items := StringSound(s);
    v := String(items);
  }

  lemma SpaceToTheEnd(s: string)
    requires SkipSpace(s) == ""
    ensures AllSpace(s)
  {
    assert LeadingSpace(s) + "" == LeadingSpace(s) == s;
  }

  lemma {:induction false} StringElementsSound(s: string) returns (es: Elements, after: string)
    requires StringElements(s).ok
    ensures ValidElements(es) && OnlyStrings(es) && AllSpace(after) && s == ElementsText(es) + after
    decreases |s|
  {
    hide ParseString, Text, ElementsText, ValidValue, ValidElements, AllSpace, LeadingSpace, SkipSpace;
    var v := StringValueSound(s);
    var rest := ParseString(s).rest;
    var t := SkipSpace(rest);
    if Starts(t, ']') {
      es := LastElementSound(v, rest);
      after := t[1..];
      SpaceToTheEnd(after);
    } else {
      var more: Elements;
      more, after := StringElementsSound(SkipSpace(t[1..]));
      es := MoreElementsSound(v, rest, more, after);
    }
  }

  /** The reader of string arrays succeeds exactly on them, with nothing but white space around. */
  lemma StringArrayExactlyWhen(s: string)
    ensures StringArray(s).ok <==> IsStringArray(s)
  {
    if IsStringArray(s) {
      var before, v, after :| StringArrayBetween(s, before, v, after);
      StringArrayOfTree(before, v, after);
    }
    if StringArray(s).ok {
      StringArraySound(s);
    }
  }

  lemma StringArraySound(s: string)
    requires StringArray(s).ok
    ensures IsStringArray(s)
  {
    hide StringElements, ElementsText, ValidElements, LeadingSpace, IsStringArray, AllSpace, OnlyStrings;
    var t := SkipSpace(s);
    var u := SkipSpace(t[1..]);
    assert s == LeadingSpace(s) + t;
    if Starts(u, ']') {
      SpaceToTheEnd(u[1..]);
      EmptyArrayIsOne(s, t, u[1..]);
    } else {
      var es, after := StringElementsSound(u);
      ArrayIsOne(s, t, es, after);
    }
  }

  lemma EmptyArrayIsOne(s: string, t: string, after: string)
    requires s == LeadingSpace(s) + t && Starts(t, '[') && AllSpace(after)
    requires SkipSpace(t[1..]) == "]" + after
    ensures IsStringArray(s)
  {
    hide LeadingSpace, SkipSpace, AllSpace;
    var ws := LeadingSpace(t[1..]);
    assert t == "[" + (ws + ("]" + after));
    Assoc4("[", ws, "]", after);
    assert StringArrayBetween(s, LeadingSpace(s), EmptyArray(ws), after);
  }

  lemma ArrayIsOne(s: string, t: string, es: Elements, after: string)
    requires s == LeadingSpace(s) + t && Starts(t, '[') && AllSpace(after)
    requires ValidElements(es) && OnlyStrings(es) && SkipSpace(t[1..]) == ElementsText(es) + after
    ensures IsStringArray(s)
  {
    hide LeadingSpace, SkipSpace, AllSpace, ElementsText, ValidElements, OnlyStrings;
    var ws := LeadingSpace(t[1..]);
    assert t == "[" + (ws + (ElementsText(es) + after));
    Assoc4("[", ws, ElementsText(es), after);
    assert StringArrayBetween(s, LeadingSpace(s), Array(ws, es), after);
  }

  // ---------- fields and schemas ----------

  /** `extract_string_array_field`: the reader's verdict is dropped, its values are kept. */
  function StringArrayField(s: string, key: string): seq<string> {
    var raw := FindTopLevel(s, key);
    if raw.None? then [] else StringArray(raw.value).values
  }

  lemma StringArrayFieldOfTree(before: string, v: Value, key: string, rest: string)
    requires AllSpace(before) && ValidTopLevel(v)
    ensures StringArrayField(before + (Text(v) + rest), key) ==
            (if Lookup(v, key).None? then [] else ArrayStrings(Lookup(v, key).value))
  {
    FindTopLevelOfTree(before, v, key, rest);
    if Lookup(v, key).Some? {
      var member := Lookup(v, key).value;
      assert "" + (Text(member) + "") == Text(member);
      StringArrayOfTree("", member, "");
    }
  }

  /** The keys a schema names as required: none unless the member is an array of strings. */
  function DeclaredKeys(schema: string): seq<string> {
    var raw := FindTopLevel(schema, "required");
    if raw.None? || !StringArray(raw.value).ok then [] else StringArray(raw.value).values
  }

  /** The keys a schema requires; the key `agent` when it names none. */
  function RequiredKeys(schema: string): seq<string> {
    if DeclaredKeys(schema) == [] then ["agent"] else DeclaredKeys(schema)
  }

  predicate SatisfiesSchema(s: string, schema: string) {
    && TopLevelKeys(s).ok
    && forall i :: 0 <= i < |RequiredKeys(schema)| ==> RequiredKeys(schema)[i] in TopLevelKeys(s).values
  }

  function RequiredByTree(schema: Value): seq<string>
    requires ValidValue(schema)
  {
    var required := Lookup(schema, "required");
    if required.None? then ["agent"]
    else if StringArray?(required.value) && ArrayStrings(required.value) != []
    then ArrayStrings(required.value)
    else ["agent"]
  }

  /**
    On an object and a schema of the grammar the check says that every required key is the decoded
    key of a top-level member.  The text after the object is not looked at.
   */
  lemma SatisfiesSchemaOfTrees(before: string, v: Value, rest: string, before2: string, schema: Value, rest2: string)
    requires AllSpace(before) && ValidTopLevel(v) && (v.Object? || v.EmptyObject?)
    requires AllSpace(before2) && ValidTopLevel(schema)
    ensures SatisfiesSchema(before + (Text(v) + rest), before2 + (Text(schema) + rest2)) <==>
            forall k :: k in RequiredByTree(schema) ==> k in ObjectKeys(v)
  {
    TopLevelKeysOfTree(before, v, rest);
    FindTopLevelOfTree(before2, schema, "required", rest2);
    if Lookup(schema, "required").Some? {
      var member := Lookup(schema, "required").value;
      assert "" + (Text(member) + "") == Text(member);
      StringArrayOfTree("", member, "");
    }
    assert RequiredKeys(before2 + (Text(schema) + rest2)) == RequiredByTree(schema);
  }
}
