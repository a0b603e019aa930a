/**
  The recursive-descent parser: a cursor and a depth counter moved step by step.  Every method is
  proved against the function of the unread text that `JsonRecognizer` or `JsonMembers` gives it.
 */
module JsonParsing {
  import opened Wrappers
  import opened JsonGrammar
  import opened JsonEscapes
  import opened JsonRecognizer
  import opened JsonMembers

  class JsonParser {
    const text: string
    var pos: nat
    var depth: nat

    ghost predicate Valid()
      reads this
    {
      pos <= |text| && depth <= MAX_DEPTH
    }

    /** The unread text. */
    ghost function Rest(): string
      reads this
      requires Valid()
    {
      text[pos..]
    }

    /** How many more levels of values may start. */
    ghost function Room(): nat
      reads this
      requires Valid()
    {
      MAX_DEPTH - depth
    }

    constructor (text: string)
      ensures Valid() && this.text == text && Rest() == text && depth == 0
    {
      this.text := text;
      pos := 0;
      depth := 0;
    }

    method SkipSpace()
      requires Valid()
      modifies this`pos
      ensures Valid() && pos >= old(pos)
      ensures Rest() == JsonRecognizer.SkipSpace(old(Rest()))
    {
      while pos < |text| && IsSpace(text[pos])
        invariant Valid() && pos >= old(pos)
        invariant JsonRecognizer.SkipSpace(Rest()) == JsonRecognizer.SkipSpace(old(Rest()))
      {
        assert Rest()[1..] == text[pos + 1..];
        pos := pos + 1;
      }
    }

    method Consume(expected: char) returns (ok: bool)
      requires Valid()
      modifies this`pos
      ensures Valid() && ok == Starts(old(Rest()), expected)
      ensures if ok then pos == old(pos) + 1 && Rest() == old(Rest())[1..] else pos == old(pos)
    {
      ok := pos < |text| && text[pos] == expected;
      if ok {
        pos := pos + 1;
      }
    }

    /** The source's `out` may be null; here the decoded text is always returned. */
    method ParseString() returns (ok: bool, out: string)
      requires Valid()
      modifies this`pos
      ensures Valid() && pos >= old(pos)
      ensures ok == JsonRecognizer.ParseString(old(Rest())).GoodString?
      ensures ok ==> JsonRecognizer.ParseString(old(Rest())) == GoodString(out, Rest()) && pos > old(pos)
    {
      hide UnicodeChar, Unescape, IsHexDigit;
      out := "";
      ok := Consume('"');
      if !ok {
        return false, out;
      }
      ghost var result := ParseChars(Rest());
      hide JsonRecognizer.ParseString;
      while pos < |text|
        invariant Valid() && pos > old(pos)
        invariant result == Prepend(out, ParseChars(Rest()))
      {
        ghost var before := Rest();
        var c := text[pos];
        pos := pos + 1;
        assert Rest() == before[1..];
        if c == '"' {
          return true, out;
        }
        if c as int < 0x20 {
          return false, out;
        }
        if c == '\\' {
          ok, c := ReadEscape();
          if !ok {
            return false, out;
          }
        }
        assert ParseChars(before) == Prepend([c], ParseChars(Rest()));
        PrependTwice(out, c, ParseChars(Rest()));
        out := out + [c];
      }
      ok := false;
    }

    /** The rest of an escape: what follows the backslash just read. */
    method ReadEscape() returns (ok: bool, c: char)
      requires Valid() && 0 < pos && text[pos - 1] == '\\'
      modifies this`pos
      ensures Valid() && pos >= old(pos)
      ensures !ok ==> ParseChars(old(text[pos - 1..])).BadString?
      ensures ok ==> ParseChars(old(text[pos - 1..])) == Prepend([c], ParseChars(Rest()))
    {
      c := '?';
      ghost var before := text[pos - 1..];
      if pos >= |text| {
        return false, c;
      }
      var escaped := text[pos];
      pos := pos + 1;
      assert Rest() == before[2..];
      if escaped in "\"\\/bfnrt" {
        c := Unescape(escaped);
      } else if escaped == 'u' {
        if pos + 4 > |text| {
          return false, c;
        }
        var hex, codepoint := ReadHex();
        if !hex {
          return false, c;
        }
        assert text[pos + 4..] == before[6..];
        pos := pos + 4;
        c := if codepoint <= 0x7f then codepoint as char else '?';
      } else {
        return false, c;
      }
      ok := true;
    }

    /** The loop over the four hexadecimal digits of a `\u` escape. */
    method ReadHex() returns (ok: bool, codepoint: nat)
      requires Valid() && pos + 4 <= |text|
      ensures ok <==> forall i :: pos <= i < pos + 4 ==> IsHexDigit(text[i])
      ensures ok ==> UnicodeChar(text[pos], text[pos + 1], text[pos + 2], text[pos + 3]) ==
                     if codepoint <= 0x7f then codepoint as char else '?'
      ensures ok ==> forall n: nat, k: Case :: n < 0x10000 && FourDigits(n, k) == text[pos..pos + 4] ==> codepoint == n
    {
      hide FourDigits;
      codepoint := 0;
      for i := 0 to 4
        invariant forall k :: pos <= k < pos + i ==> IsHexDigit(text[k])
        invariant i == 0 ==> codepoint == 0
        invariant i == 1 ==> codepoint == HexValue(text[pos])
        invariant i == 2 ==> codepoint == HexValue(text[pos]) * 16 + HexValue(text[pos + 1])
        invariant i == 3 ==> codepoint == (HexValue(text[pos]) * 16 + HexValue(text[pos + 1])) * 16
                                          + HexValue(text[pos + 2])
        invariant i == 4 ==> codepoint == ((HexValue(text[pos]) * 16 + HexValue(text[pos + 1])) * 16
                                           + HexValue(text[pos + 2])) * 16 + HexValue(text[pos + 3])
      {
        var h := text[pos + i];
        if !IsHexDigit(h) {
          return false, codepoint;
        }
        codepoint := codepoint * 16 + HexValue(h);
      }
      forall n: nat, k: Case | n < 0x10000 && FourDigits(n, k) == text[pos..pos + 4]
        ensures codepoint == n
      {
        FourDigitsHaveValue(n, k);
        var h := text[pos..pos + 4];
        assert h[0] == text[pos] && h[1] == text[pos + 1] && h[2] == text[pos + 2] && h[3] == text[pos + 3];
      }
      ok := true;
    }

    method SkipDigits()
      requires Valid()
      modifies this`pos
      ensures Valid() && pos >= old(pos)
      ensures Rest() == JsonRecognizer.SkipDigits(old(Rest()))
    {
      while pos < |text| && IsDigit(text[pos])
        invariant Valid() && pos >= old(pos)
        invariant JsonRecognizer.SkipDigits(Rest()) == JsonRecognizer.SkipDigits(old(Rest()))
      {
        assert Rest()[1..] == text[pos + 1..];
        pos := pos + 1;
      }
    }

    method ParseNumber() returns (ok: bool)
      requires Valid() && pos < |text| && (text[pos] == '-' || IsDigit(text[pos]))
      modifies this`pos
      ensures Valid() && pos >= old(pos)
      ensures ok == JsonRecognizer.ParseNumber(old(Rest())).Some?
      ensures ok ==> JsonRecognizer.ParseNumber(old(Rest())) == Some(Rest())
    {
      var minus := Consume('-');
      if minus && pos >= |text| {
        return false;
      }
      ok := ParseWhole();
      if ok {
        ok := ParseFraction();
      }
      if ok {
        ok := ParseExponent();
      }
    }

    method ParseWhole() returns (ok: bool)
      requires Valid()
      modifies this`pos
      ensures Valid() && pos >= old(pos)
      ensures ok == JsonRecognizer.ParseWhole(old(Rest())).Some?
      ensures ok ==> JsonRecognizer.ParseWhole(old(Rest())) == Some(Rest())
    {
      var zero := Consume('0');
      if zero {
        if pos < |text| && IsDigit(text[pos]) {
          return false;
        }
      } else {
        if pos >= |text| || text[pos] < '1' || text[pos] > '9' {
          return false;
        }
        SkipDigits();
      }
      ok := true;
    }

    method ParseFraction() returns (ok: bool)
      requires Valid()
      modifies this`pos
      ensures Valid() && pos >= old(pos)
      ensures ok == JsonRecognizer.ParseFraction(old(Rest())).Some?
      ensures ok ==> JsonRecognizer.ParseFraction(old(Rest())) == Some(Rest())
    {
      var dot := Consume('.');
      if dot {
        if pos >= |text| || !IsDigit(text[pos]) {
          return false;
        }
        SkipDigits();
      }
      ok := true;
    }

    method ParseExponent() returns (ok: bool)
      requires Valid()
      modifies this`pos
      ensures Valid() && pos >= old(pos)
      ensures ok == JsonRecognizer.ParseExponent(old(Rest())).Some?
      ensures ok ==> JsonRecognizer.ParseExponent(old(Rest())) == Some(Rest())
    {
      ghost var exp := Rest();
      if pos < |text| && (text[pos] == 'e' || text[pos] == 'E') {
        pos := pos + 1;
        assert Rest() == exp[1..];
        if pos < |text| && (text[pos] == '+' || text[pos] == '-') {
          pos := pos + 1;
        }
        assert Rest() == SkipSign(exp[1..]);
        if pos >= |text| || !IsDigit(text[pos]) {
          return false;
        }
        SkipDigits();
      }
      ok := true;
    }

    method ParseValue() returns (ok: bool)
      requires Valid()
      modifies this`pos, this`depth
      ensures Valid() && depth == old(depth) && pos >= old(pos)
      ensures ok == JsonRecognizer.ParseValue(old(Rest()), old(Room())).Some?
      ensures ok ==> JsonRecognizer.ParseValue(old(Rest()), old(Room())) == Some(Rest())
      decreases |text| - pos, 1
    {
      hide JsonRecognizer.ParseNumber, JsonRecognizer.ParseString, JsonRecognizer.ParseObject,
        JsonRecognizer.ParseArray;
      hide JsonRecognizer.SkipSpace, IsSpace;
      SkipSpace();
      if pos >= |text| {
        return false;
      }
      if depth >= MAX_DEPTH {
        return false;
      }
      var c := text[pos];
      ghost var t := Rest();
      if c == '{' {
        depth := depth + 1;
        ok := ParseObject();
        depth := depth - 1;
        return;
      }
      if c == '[' {
        depth := depth + 1;
        ok := ParseArray();
        depth := depth - 1;
        return;
      }
      if c == '"' {
        var unused: string;
        ok, unused := ParseString();
        return;
      }
      if c == '-' || IsDigit(c) {
        ok := ParseNumber();
        return;
      }
      if "true" <= text[pos..] {
        pos := pos + 4;
        assert Rest() == t[4..];
        return true;
      }
      if "false" <= text[pos..] {
        pos := pos + 5;
        assert Rest() == t[5..];
        return true;
      }
      if "null" <= text[pos..] {
        pos := pos + 4;
        assert Rest() == t[4..];
        return true;
      }
      ok := false;
    }

    method ParseObject() returns (ok: bool)
      requires Valid() && Starts(Rest(), '{')
      modifies this`pos, this`depth
      ensures Valid() && depth == old(depth) && pos >= old(pos)
      ensures ok == JsonRecognizer.ParseObject(old(Rest()), old(Room())).Some?
      ensures ok ==> JsonRecognizer.ParseObject(old(Rest()), old(Room())) == Some(Rest())
      decreases |text| - pos, 0
    {
      hide ParseKey, JsonRecognizer.ParseValue, JsonRecognizer.SkipSpace;
      ok := Consume('{');
      SkipSpace();
      ok := Consume('}');
      if ok {
        return true;
      }
      while true
        invariant Valid() && depth == old(depth) && pos > old(pos)
        invariant JsonRecognizer.ParseObject(old(Rest()), old(Room())) == ParseMembers(Rest(), Room())
        decreases |text| - pos
      {
        var key: string;
        ok, key := ReadKey();
        if !ok {
          return false;
        }
        ok := ParseValue();
        if !ok {
          return false;
        }
        SkipSpace();
        ok := Consume('}');
        if ok {
          return true;
        }
        ok := Consume(',');
        if !ok {
          return false;
        }
        SkipSpace();
      }
    }

    /** A quoted key, white space and a colon. */
    method ReadKey() returns (ok: bool, key: string)
      requires Valid()
      modifies this`pos
      ensures Valid() && pos >= old(pos)
      ensures ok == ParseKey(old(Rest())).GoodString?
      ensures ok ==> ParseKey(old(Rest())) == GoodString(key, Rest()) && pos > old(pos)
    {
      ok, key := ParseString();
      if !ok {
        return;
      }
      SkipSpace();
      ok := Consume(':');
    }

    method ParseArray() returns (ok: bool)
      requires Valid() && Starts(Rest(), '[')
      modifies this`pos, this`depth
      ensures Valid() && depth == old(depth) && pos >= old(pos)
      ensures ok == JsonRecognizer.ParseArray(old(Rest()), old(Room())).Some?
      ensures ok ==> JsonRecognizer.ParseArray(old(Rest()), old(Room())) == Some(Rest())
      decreases |text| - pos, 0
    {
      hide JsonRecognizer.ParseValue, JsonRecognizer.SkipSpace;
      ok := Consume('[');
      SkipSpace();
      ok := Consume(']');
      if ok {
        return true;
      }
      while true
        invariant Valid() && depth == old(depth) && pos > old(pos)
        invariant JsonRecognizer.ParseArray(old(Rest()), old(Room())) == ParseElements(Rest(), Room())
        decreases |text| - pos
      {
        ok := ParseValue();
        if !ok {
          return false;
        }
        SkipSpace();
        ok := Consume(']');
        if ok {
          return true;
        }
        ok := Consume(',');
        if !ok {
          return false;
        }
        SkipSpace();
      }
    }

    method ParseDocumentValue() returns (ok: bool)
      requires Valid() && depth == 0
      modifies this`pos, this`depth
      ensures Valid() && depth == 0
      ensures ok <==> IsDocument(old(Rest()))
    {
      RecognizesGrammar(Rest());
      SkipSpace();
      if pos >= |text| || (text[pos] != '{' && text[pos] != '[') {
        return false;
      }
      ok := ParseValue();
      if !ok {
        return false;
      }
      SkipSpace();
      ok := pos == |text|;
    }

    method ParseDocumentStringArray() returns (ok: bool, values: seq<string>)
      requires Valid()
      modifies this`pos
      ensures Valid() && StringArray(old(Rest())) == Strings(ok, values)
    {
      hide JsonRecognizer.ParseValue, JsonRecognizer.ParseString;
      values := [];
      SkipSpace();
      ok := Consume('[');
      if !ok {
        return;
      }
      SkipSpace();
      ok := Consume(']');
      if ok {
        SkipSpace();
        ok := pos == |text|;
        return;
      }
      ghost var goal := StringElements(Rest());
      while true
        invariant Valid()
        invariant goal == PrependValues(values, StringElements(Rest()))
        decreases |text| - pos
      {
        var value: string;
        ok, value := ParseString();
        if !ok {
          return;
        }
        ghost var earlier := values;
        values := values + [value];
        SkipSpace();
        ok := Consume(']');
        if ok {
          SkipSpace();
          ok := pos == |text|;
          return;
        }
        ok := Consume(',');
        if !ok {
          return;
        }
        SkipSpace();
        PrependValuesTwice(earlier, value, StringElements(Rest()));
      }
    }

    method ParseTopLevelObjectKeys() returns (ok: bool, keys: seq<string>)
      requires Valid() && depth == 0
      modifies this`pos, this`depth
      ensures Valid() && TopLevelKeys(old(Rest())) == Strings(ok, keys)
    {
      hide JsonRecognizer.ParseValue, JsonRecognizer.SkipSpace, ParseKey;
      keys := [];
      SkipSpace();
      ok := Consume('{');
      if !ok {
        return;
      }
      SkipSpace();
      ok := Consume('}');
      if ok {
        return;
      }
      ghost var goal := MemberKeys(Rest());
      hide TopLevelKeys;
      while true
        invariant Valid() && depth == 0
        invariant goal == PrependValues(keys, MemberKeys(Rest()))
        decreases |text| - pos
      {
        ghost var start := Rest();
        var key: string;
        ok, key := ReadKey();
        if !ok {
          return;
        }
        ghost var earlier := keys;
        keys := keys + [key];
        ok := ParseValue();
        if !ok {
          return;
        }
        SkipSpace();
        ok := Consume('}');
        if ok {
          return;
        }
        ok := Consume(',');
        if !ok {
          return;
        }
        SkipSpace();
        assert MemberKeys(start) == PrependValues([key], MemberKeys(Rest()));
        PrependValuesTwice(earlier, key, MemberKeys(Rest()));
      }
    }

    method ExtractTopLevelMemberValue(needle: string) returns (value: Option<string>)
      requires Valid() && depth == 0
      modifies this`pos, this`depth
      ensures Valid() && value == FindTopLevel(old(Rest()), needle)
    {
      hide JsonRecognizer.ParseValue, JsonRecognizer.SkipSpace, ParseKey;
      SkipSpace();
      var ok := Consume('{');
      if !ok {
        return None;
      }
      SkipSpace();
      ok := Consume('}');
      if ok {
        SkipSpace();
        return None;
      }
      ghost var goal := FindMember(Rest(), needle);
      while true
        invariant Valid() && depth == 0
        invariant goal == FindMember(Rest(), needle)
        decreases |text| - pos
      {
        var key: string;
        ok, key := ReadKey();
        if !ok {
          return None;
        }
        SkipSpace();
        ghost var fromValue := Rest();
        var valueStart := pos;
        ok := ParseValue();
        if !ok {
          return None;
        }
        var valueEnd := pos;
        if key == needle {
          assert text[valueStart..valueEnd] == fromValue[..|fromValue| - |Rest()|];
          return Some(text[valueStart..valueEnd]);
        }
        SkipSpace();
        ok := Consume('}');
        if ok {
          SkipSpace();
          return None;
        }
        ok := Consume(',');
        if !ok {
          return None;
        }
        SkipSpace();
      }
    }
  }

  method IsCompleteJsonValue(text: string) returns (ok: bool)
    ensures ok <==> IsDocument(text)
  {
    var parser := new JsonParser(text);
    ok := parser.ParseDocumentValue();
  }

  method ExtractTopLevelJsonValue(objectJson: string, key: string) returns (value: Option<string>)
    ensures value == FindTopLevel(objectJson, key)
  {
    var parser := new JsonParser(objectJson);
    value := parser.ExtractTopLevelMemberValue(key);
  }

  method ExtractStringArrayField(objectJson: string, key: string) returns (result: seq<string>)
    ensures result == StringArrayField(objectJson, key)
  {
    var raw := ExtractTopLevelJsonValue(objectJson, key);
    if raw.None? {
      return [];
    }
    var inner := new JsonParser(raw.value);
    var ok: bool;
    ok, result := inner.ParseDocumentStringArray();
  }

  method ExtractRequiredSchemaKeys(schema: string) returns (keys: seq<string>)
    ensures keys == DeclaredKeys(schema)
  {
    var required := ExtractTopLevelJsonValue(schema, "required");
    if required.None? {
      return [];
    }
    var parser := new JsonParser(required.value);
    var ok: bool;
    ok, keys := parser.ParseDocumentStringArray();
    if !ok {
      return [];
    }
  }

  /** The default for a schema that names no required key. */
  method RequiredOrAgent(schema: string) returns (required: seq<string>)
    ensures required == RequiredKeys(schema)
  {
    hide DeclaredKeys;
    required := ExtractRequiredSchemaKeys(schema);
    if required == [] {
      required := ["agent"];
    }
  }

  method FirstNonSpace(text: string) returns (start: nat)
    ensures start <= |text| && text[start..] == JsonRecognizer.SkipSpace(text)
  {
    start := 0;
    while start < |text| && IsSpace(text[start])
      invariant start <= |text|
      invariant JsonRecognizer.SkipSpace(text[start..]) == JsonRecognizer.SkipSpace(text)
    {
      assert text[start..][1..] == text[start + 1..];
      start := start + 1;
    }
  }

  method JsonObjectSatisfiesRequiredSchema(objectJson: string, schema: string) returns (ok: bool)
    ensures ok == SatisfiesSchema(objectJson, schema)
  {
    hide MemberKeys, RequiredKeys, JsonRecognizer.SkipSpace;
    var start := FirstNonSpace(objectJson);
    if start == |objectJson| || objectJson[start] != '{' {
      return false;
    }
    hide TopLevelKeys, FindTopLevel, StringArray;
    var parser := new JsonParser(objectJson);
    var parsed, keys := parser.ParseTopLevelObjectKeys();
    if !parsed {
      return false;
    }
    var required := RequiredOrAgent(schema);
    ok := AllIn(required, keys);
  }

  method AllIn(required: seq<string>, keys: seq<string>) returns (ok: bool)
    ensures ok <==> forall k :: 0 <= k < |required| ==> required[k] in keys
  {
    for i := 0 to |required|
      invariant forall k :: 0 <= k < i ==> required[k] in keys
    {
      if required[i] !in keys {
        return false;
      }
    }
    ok := true;
  }
}
