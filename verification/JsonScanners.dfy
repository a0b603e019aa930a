/**
  The two hand-written scanners that cut texts at brackets without parsing them.  Both are small
  automata over (in a string, after a backslash, depth, text since the opening bracket); on texts
  of the grammar both cut where the grammar does.
 */
module JsonScanners {
  import opened Wrappers
  import opened JsonGrammar
  import opened JsonRecognizer

  /** `Splitter` is split_top_level_array_objects, `Stream` is iter_json_objects. */
  datatype Kind = Splitter | Stream

  /** `current` is the text since `start`, when `start` is set. */
  datatype Scan = Scan(inString: bool, escaped: bool, depth: int, current: Option<string>)

  datatype Result = Result(state: Scan, out: seq<string>)

  const IDLE := Scan(false, false, 0, None)

  predicate Opens(k: Kind, c: char) { c == '{' || (k.Stream? && c == '[') }

  predicate Closes(k: Kind, c: char) { c == '}' || (k.Stream? && c == ']') }

  function Extend(st: Scan, t: string): Scan {
    if st.current.None? then st else st.(current := Some(st.current.value + t))
  }

  function InString(st: Scan, c: char): Scan {
    if st.escaped then st.(escaped := false)
    else if c == '\\' then st.(escaped := true)
    else if c == '"' then st.(inString := false)
    else st
  }

  /** The splitter tracks strings everywhere; the stream scanner only inside a bracketed text. */
  function Step(k: Kind, st: Scan, c: char): Result {
    var next := Extend(st, [c]);
    if k.Stream? && st.current.None? && !Opens(k, c) then Result(st, [])
    else if st.inString then Result(InString(next, c), [])
    else if c == '"' then Result(next.(inString := true), [])
    else if Opens(k, c) then
      Result((if st.depth == 0 then next.(current := Some([c])) else next).(depth := st.depth + 1), [])
    else if Closes(k, c) then
      if st.depth == 1 && st.current.Some?
      then Result(st.(depth := 0, current := None), [next.current.value])
      else Result(next.(depth := st.depth - 1), [])
    else Result(next, [])
  }

  function Run(k: Kind, st: Scan, s: string): Result
    decreases |s|, 0
  {
    if s == "" then Result(st, []) else FollowedBy(k, Step(k, st, s[0]), s[1..])
  }

  function FollowedBy(k: Kind, r: Result, s: string): Result
    decreases |s|, 1
  {
    var r2 := Run(k, r.state, s);
    Result(r2.state, r.out + r2.out)
  }

  lemma {:induction false} RunAppend(k: Kind, st: Scan, a: string, b: string)
    ensures Run(k, st, a + b) == FollowedBy(k, Run(k, st, a), b)
    decreases |a|
  {
    if a == "" {
      assert a + b == b;
    } else {
      assert (a + b)[0] == a[0] && (a + b)[1..] == a[1..] + b;
      var r := Step(k, st, a[0]);
      RunAppend(k, r.state, a[1..], b);
      var middle := Run(k, r.state, a[1..]);
      var last := Run(k, middle.state, b);
      assert r.out + (middle.out + last.out) == r.out + middle.out + last.out;
    }
  }

  lemma OneMoreStep(k: Kind, r: Result, s: string)
    requires s != ""
    ensures var next := Step(k, r.state, s[0]);
            FollowedBy(k, r, s) == FollowedBy(k, Result(next.state, r.out + next.out), s[1..])
  {
    var next := Step(k, r.state, s[0]);
    var last := Run(k, next.state, s[1..]);
    assert Run(k, r.state, s) == FollowedBy(k, next, s[1..]);
    assert r.out + (next.out + last.out) == (r.out + next.out) + last.out;
  }

  // ---------- the two loops ----------

  method SplitTopLevelArrayObjects(text: string) returns (objects: seq<string>)
    ensures objects == Run(Splitter, IDLE, text).out
  {
    objects := [];
    var inString, escaped, depth, start := false, false, 0, None;
    ghost var st := IDLE;
    for i := 0 to |text|
      invariant start.Some? ==> 0 <= start.value <= i
      invariant st == Scan(inString, escaped, depth,
                           if start.None? then None else Some(text[start.value..i]))
      invariant FollowedBy(Splitter, Result(st, objects), text[i..]) == Run(Splitter, IDLE, text)
    {
      var c := text[i];
      OneMoreStep(Splitter, Result(st, objects), text[i..]);
      assert text[i..][1..] == text[i + 1..] && text[i..i + 1] == [c];
      assert objects + [] == objects;
      if start.Some? {
        assert text[start.value..i] + [c] == text[start.value..i + 1];
      }
      st := Step(Splitter, st, c).state;
      if inString {
        if escaped {
          escaped := false;
        } else if c == '\\' {
          escaped := true;
        } else if c == '"' {
          inString := false;
        }
      } else if c == '"' {
        inString := true;
      } else if c == '{' {
        if depth == 0 {
          start := Some(i);
        }
        depth := depth + 1;
      } else if c == '}' {
        depth := depth - 1;
        if depth == 0 && start.Some? {
          objects := objects + [text[start.value..i + 1]];
          start := None;
        }
      }
    }
    assert text[|text|..] == "";
  }

  /** The generator, with the texts it yields collected. */
  method IterJsonObjects(text: string) returns (objects: seq<string>)
    ensures objects == Run(Stream, IDLE, text).out
  {
    objects := [];
    var inString, escape, depth, start := false, false, 0, None;
    ghost var st := IDLE;
    for i := 0 to |text|
      invariant start.Some? ==> 0 <= start.value <= i && depth > 0
      invariant (escape ==> inString) && (start.None? ==> !inString && depth == 0)
      invariant st == Scan(inString, escape, depth,
                           if start.None? then None else Some(text[start.value..i]))
      invariant FollowedBy(Stream, Result(st, objects), text[i..]) == Run(Stream, IDLE, text)
    {
      var c := text[i];
      OneMoreStep(Stream, Result(st, objects), text[i..]);
      assert text[i..][1..] == text[i + 1..] && text[i..i + 1] == [c];
      assert objects + [] == objects;
      if start.Some? {
        assert text[start.value..i] + [c] == text[start.value..i + 1];
      }
      st := Step(Stream, st, c).state;
      if start.None? {
        if c == '{' || c == '[' {
          start, depth, inString, escape := Some(i), 1, false, false;
        }
        continue;
      }
      if inString {
        if escape {
          escape := false;
        } else if c == '\\' {
          escape := true;
        } else if c == '"' {
          inString := false;
        }
        continue;
      }
      if c == '"' {
        inString := true;
      } else if c == '{' || c == '[' {
        depth := depth + 1;
      } else if c == '}' || c == ']' {
        depth := depth - 1;
        if depth == 0 {
          objects := objects + [text[start.value..i + 1]];
          start := None;
        }
      }
    }
    assert text[|text|..] == "";
  }

  // ---------- running over pieces of the grammar ----------

  /** Outside strings, where something is being collected exactly when some bracket is open. */
  predicate Between(k: Kind, st: Scan) {
    !st.inString && !st.escaped && 0 <= st.depth && (st.depth == 0 <==> st.current.None?)
  }

  predicate Neutral(k: Kind, s: string) {
    forall i :: 0 <= i < |s| ==> s[i] != '"' && !Opens(k, s[i]) && !Closes(k, s[i])
  }

  lemma ExtendTwice(st: Scan, a: string, b: string)
    ensures Extend(Extend(st, a), b) == Extend(st, a + b)
    ensures Extend(st, "") == st
  {
    if st.current.Some? {
      Assoc(st.current.value, a, b);
      assert st.current.value + "" == st.current.value;
    }
  }

  lemma {:induction false} RunNeutral(k: Kind, st: Scan, s: string)
    requires Between(k, st) && Neutral(k, s)
    ensures Run(k, st, s) == Result(Extend(st, s), [])
    decreases |s|
  {
    ExtendTwice(st, "", "");
    if s != "" {
      RunNeutral(k, Extend(st, [s[0]]), s[1..]);
      assert [s[0]] + s[1..] == s;
      ExtendTwice(st, [s[0]], s[1..]);
    }
  }

  /** Two runs one after the other that both only extend the collected text. */
  lemma RunTwo(k: Kind, st: Scan, a: string, b: string, outA: seq<string>, outB: seq<string>)
    requires Run(k, st, a) == Result(Extend(st, a), outA)
    requires Run(k, Extend(st, a), b) == Result(Extend(Extend(st, a), b), outB)
    ensures Run(k, st, a + b) == Result(Extend(st, a + b), outA + outB)
  {
    RunAppend(k, st, a, b);
    ExtendTwice(st, a, b);
  }

  lemma RunChar(k: Kind, st: Scan, c: char)
    ensures Run(k, st, [c]) == Step(k, st, c)
  {
    assert [c][1..] == "";
    var r := Step(k, st, c);
    assert Run(k, r.state, "") == Result(r.state, []);
    assert r.out + [] == r.out;
  }

  /** In a string that the scanner knows to be one. */
  predicate InQuotes(k: Kind, st: Scan) {
    st.inString && !st.escaped && (k.Stream? ==> st.current.Some?)
  }

  lemma {:induction false} RunItems(k: Kind, st: Scan, items: List<Item>)
    requires InQuotes(k, st) && ValidItems(items)
    ensures Run(k, st, ItemsText(items)) == Result(Extend(st, ItemsText(items)), [])
    decreases items
  {
    match items
    case Nil => ExtendTwice(st, "", "");
    case Cons(i, rest) =>
      RunItem(k, st, i);
      RunItems(k, Extend(st, ItemText(i)), rest);
      RunTwo(k, st, ItemText(i), ItemsText(rest), [], []);
  }

  lemma RunItem(k: Kind, st: Scan, i: Item)
    requires InQuotes(k, st) && ValidItem(i)
    ensures Run(k, st, ItemText(i)) == Result(Extend(st, ItemText(i)), [])
  {
    match i
    case Plain(c) => RunPlain(k, st, [c]);
    case Escaped(e) => RunEscape(k, st, e);
    case Unicode(h0, h1, h2, h3) =>
      RunEscape(k, st, 'u');
      RunPlain(k, Extend(st, "\\u"), [h0, h1, h2, h3]);
      RunTwo(k, st, "\\u", [h0, h1, h2, h3], [], []);
      assert "\\u" + [h0, h1, h2, h3] == ItemText(i);
  }

  lemma {:induction false} RunPlain(k: Kind, st: Scan, s: string)
    requires InQuotes(k, st)
    requires forall i :: 0 <= i < |s| ==> s[i] != '"' && s[i] != '\\'
    ensures Run(k, st, s) == Result(Extend(st, s), [])
    decreases |s|
  {
    ExtendTwice(st, "", "");
    if s != "" {
      RunPlain(k, Extend(st, [s[0]]), s[1..]);
      assert [s[0]] + s[1..] == s;
      ExtendTwice(st, [s[0]], s[1..]);
    }
  }

  lemma RunEscape(k: Kind, st: Scan, e: char)
    requires InQuotes(k, st)
    ensures Run(k, st, ['\\', e]) == Result(Extend(st, ['\\', e]), [])
  {
    RunChar(k, st, '\\');
    RunChar(k, Step(k, st, '\\').state, e);
    RunAppend(k, st, "\\", [e]);
    assert "\\" + [e] == ['\\', e];
    ExtendTwice(st, "\\", [e]);
  }

  lemma RunString(k: Kind, st: Scan, items: List<Item>)
    requires Between(k, st) && ValidItems(items) && (k.Stream? ==> st.depth > 0)
    ensures Run(k, st, StringText(items)) == Result(Extend(st, StringText(items)), [])
  {
    var st1 := Extend(st, "\"").(inString := true);
    var body := ItemsText(items) + "\"";
    RunChar(k, st, '"');
    RunItems(k, st1, items);
    RunChar(k, Extend(st1, ItemsText(items)), '"');
    RunAppend(k, st1, ItemsText(items), "\"");
    ExtendTwice(st1, ItemsText(items), "\"");
    RunAppend(k, st, "\"", body);
    ExtendTwice(st, "\"", body);
  }

  lemma DigitsNeutral(k: Kind, s: string)
    requires AllDigits(s)
    ensures Neutral(k, s)
  {
  }

  lemma NeutralAppend(k: Kind, a: string, b: string)
    requires Neutral(k, a) && Neutral(k, b)
    ensures Neutral(k, a + b)
  {
  }

  lemma NumberNeutral(k: Kind, n: Numeral)
    requires ValidNumeral(n)
    ensures Neutral(k, NumeralText(n))
  {
    hide AllDigits, Opens, Closes;
    DigitsNeutral(k, n.whole);
    if n.frac.Some? {
      DigitsNeutral(k, n.frac.value);
      PunctuationNeutral(k, '.');
      NeutralAppend(k, ".", n.frac.value);
    }
    if n.exp.Some? {
      DigitsNeutral(k, n.exp.value.digits);
      PunctuationNeutral(k, n.exp.value.letter);
      SignNeutral(k, n.exp.value.sign);
      NeutralAppend(k, n.exp.value.sign, n.exp.value.digits);
      NeutralAppend(k, [n.exp.value.letter], n.exp.value.sign + n.exp.value.digits);
    }
    SignNeutral(k, if n.minus then "-" else "");
    NeutralAppend(k, FracText(n.frac), ExpText(n.exp));
    NeutralAppend(k, n.whole, FracText(n.frac) + ExpText(n.exp));
    NeutralAppend(k, if n.minus then "-" else "", n.whole + (FracText(n.frac) + ExpText(n.exp)));
  }

  lemma PunctuationNeutral(k: Kind, c: char)
    requires c in ".eE"
    ensures Neutral(k, [c])
  {
  }

  lemma SignNeutral(k: Kind, sign: string)
    requires sign in {"", "+", "-"}
    ensures Neutral(k, sign)
  {
  }

  /** Separators: white space around one punctuation character. */
  lemma SeparatorNeutral(k: Kind, before: string, c: char, after: string)
    requires AllSpace(before) && AllSpace(after) && c != '"' && !Opens(k, c) && !Closes(k, c)
    ensures Neutral(k, before + ([c] + after)) && Neutral(k, before) && Neutral(k, after)
  {
  }

  // ---------- bracketed texts ----------

  function Outside(st: Scan, out: seq<string>): seq<string> { if st.depth == 0 then out else [] }

  /** The state after an opening bracket. */
  function Opened(k: Kind, st: Scan, open: char): (r: Scan)
    requires Between(k, st)
    ensures Between(k, r) && r.depth > 0
  {
    if st.depth == 0 then Scan(false, false, 1, Some([open])) else Extend(st, [open]).(depth := st.depth + 1)
  }

  /** A matched pair of brackets: collected as one text when nothing else is open. */
  lemma ScanBracketed(k: Kind, st: Scan, open: char, body: string, close: char)
    requires Between(k, st) && Opens(k, open) && Closes(k, close)
    requires Run(k, Opened(k, st, open), body) == Result(Extend(Opened(k, st, open), body), [])
    ensures var all := [open] + (body + [close]);
            Run(k, st, all) == Result(Extend(st, all), Outside(st, [all]))
  {
    var st1 := Opened(k, st, open);
    RunChar(k, st, open);
    RunChar(k, Extend(st1, body), close);
    RunAppend(k, st1, body, [close]);
    RunAppend(k, st, [open], body + [close]);
    if st.depth == 0 {
      Assoc([open], body, [close]);
    } else {
      ExtendTwice(st, [open], body);
      ExtendTwice(st, [open] + body, [close]);
      Assoc([open], body, [close]);
    }
  }

  function ElementsBody(es: Elements): string {
    match es
    case LastElement(v, ws) => Text(v) + ws
    case MoreElements(v, ws, wsNext, rest) => Text(v) + ((ws + ("," + wsNext)) + ElementsBody(rest))
  }

  lemma {:induction false} ElementsBodyText(es: Elements)
    ensures ElementsText(es) == ElementsBody(es) + "]"
  {
    var v := Text(es.value);
    if es.LastElement? {
      Assoc(v, es.ws, "]");
    } else {
      ElementsBodyText(es.rest);
      var comma, rest := es.ws + ("," + es.wsNext), ElementsBody(es.rest);
      Assoc(v, comma + rest, "]");
      Assoc(comma, rest, "]");
      Assoc4(es.ws, ",", es.wsNext, rest + "]");
      Assoc(",", es.wsNext, rest + "]");
    }
  }

  function MembersBody(ms: Members): string {
    match ms
    case LastMember(m, ws) => MemberText(m) + ws
    case MoreMembers(m, ws, wsNext, rest) => MemberText(m) + ((ws + ("," + wsNext)) + MembersBody(rest))
  }

  lemma {:induction false} MembersBodyText(ms: Members)
    ensures MembersText(ms) == MembersBody(ms) + "}"
  {
    var m := MemberText(ms.member);
    if ms.LastMember? {
      Assoc(m, ms.ws, "}");
    } else {
      MembersBodyText(ms.rest);
      var comma, rest := ms.ws + ("," + ms.wsNext), MembersBody(ms.rest);
      Assoc(m, comma + rest, "}");
      Assoc(comma, rest, "}");
      Assoc4(ms.ws, ",", ms.wsNext, rest + "}");
      Assoc(",", ms.wsNext, rest + "}");
    }
  }

  // ---------- values ----------

  /** The texts of the outermost objects in a value, in order. */
  function OuterObjects(v: Value): seq<string> {
    match v
    case Object(_, _) => [Text(v)]
    case EmptyObject(_) => [Text(v)]
    case Array(_, es) => OuterObjectsIn(es)
    case _ => []
  }

  function OuterObjectsIn(es: Elements): seq<string> {
    OuterObjects(es.value) + (if es.LastElement? then [] else OuterObjectsIn(es.rest))
  }

  /** What each scanner cuts out of a value that starts outside all brackets. */
  function CutOut(k: Kind, v: Value): seq<string> {
    if k.Splitter? then OuterObjects(v) else [Text(v)]
  }

  lemma {:induction false} ScanValue(k: Kind, st: Scan, v: Value)
    requires Between(k, st) && ValidValue(v)
    requires k.Stream? && st.depth == 0 ==> v.Container?()
    ensures Run(k, st, Text(v)) == Result(Extend(st, Text(v)), Outside(st, CutOut(k, v)))
    decreases v, 1
  {
    match v
    case True => RunNeutral(k, st, "true");
    case False => RunNeutral(k, st, "false");
    case Null => RunNeutral(k, st, "null");
    case Number(n) => NumberNeutral(k, n); RunNeutral(k, st, NumeralText(n));
    case String(items) => RunString(k, st, items);
    case EmptyArray(ws) => ScanArray(k, st, ws, "", []);
      assert "[" + ((ws + "") + "]") == Text(v) by { assert ws + "" == ws; }
    case EmptyObject(ws) => ScanObject(k, st, ws, "");
      assert "{" + ((ws + "") + "}") == Text(v) by { assert ws + "" == ws; }
    case Array(ws, es) =>
      var st1 := if k.Splitter? then Extend(st, "[") else Opened(k, st, '[');
      ScanElements(k, Extend(st1, ws), es);
      ScanArray(k, st, ws, ElementsBody(es), OuterObjectsIn(es));
      ElementsBodyText(es);
      Assoc(ws, ElementsBody(es), "]");
    case Object(ws, ms) =>
      ScanMembers(k, Extend(Opened(k, st, '{'), ws), ms);
      ScanObject(k, st, ws, MembersBody(ms));
      MembersBodyText(ms);
      Assoc(ws, MembersBody(ms), "}");
  }

  lemma ScanObject(k: Kind, st: Scan, ws: string, body: string)
    requires Between(k, st) && AllSpace(ws)
    requires var st1 := Extend(Opened(k, st, '{'), ws);
             body == "" || Run(k, st1, body) == Result(Extend(st1, body), [])
    ensures var all := "{" + ((ws + body) + "}");
            Run(k, st, all) == Result(Extend(st, all), Outside(st, [all]))
  {
    var st1 := Opened(k, st, '{');
    RunNeutral(k, st1, ws);
    RunNeutral(k, Extend(st1, ws), "");
    RunTwo(k, st1, ws, body, [], []);
    ScanBracketed(k, st, '{', ws + body, '}');
  }

  lemma ScanArray(k: Kind, st: Scan, ws: string, body: string, out: seq<string>)
    requires Between(k, st) && AllSpace(ws)
    requires
      var st1 := Extend(if k.Splitter? then Extend(st, "[") else Opened(k, st, '['), ws);
      (body == "" && out == []) || Run(k, st1, body) == Result(Extend(st1, body), Outside(st1, out))
    ensures
      var all := "[" + ((ws + body) + "]");
      Run(k, st, all) == Result(Extend(st, all), Outside(st, if k.Splitter? then out else [all]))
  {
    if k.Stream? {
      var st1 := Opened(k, st, '[');
      RunNeutral(k, st1, ws);
      RunNeutral(k, Extend(st1, ws), "");
      RunTwo(k, st1, ws, body, [], []);
      ScanBracketed(k, st, '[', ws + body, ']');
    } else {
      var st1, o := Extend(st, "["), Outside(st, out);
      RunNeutral(k, st, "[");
      RunNeutral(k, st1, ws);
      RunNeutral(k, Extend(st1, ws), "");
      RunTwo(k, st1, ws, body, [], o);
      RunNeutral(k, Extend(st1, ws + body), "]") by {
        assert Between(k, Extend(st1, ws + body));
      }
      RunTwo(k, st1, ws + body, "]", [] + o, []);
      RunTwo(k, st, "[", (ws + body) + "]", [], [] + o + []);
    }
  }

  lemma {:induction false} ScanElements(k: Kind, st: Scan, es: Elements)
    requires Between(k, st) && ValidElements(es) && (k.Stream? ==> st.depth > 0)
    ensures Run(k, st, ElementsBody(es)) == Result(Extend(st, ElementsBody(es)), Outside(st, OuterObjectsIn(es)))
    decreases es, 0
  {
    hide Run, OuterObjects;
    var first, out := Text(es.value), OuterObjects(es.value);
    var st1 := Extend(st, first);
    ScanValue(k, st, es.value);
    assert Run(k, st, first) == Result(st1, Outside(st, out));
    if es.LastElement? {
      RunNeutral(k, st1, es.ws);
      RunTwo(k, st, first, es.ws, Outside(st, out), []);
    } else {
      var comma, rest, outs := es.ws + ("," + es.wsNext), ElementsBody(es.rest), OuterObjectsIn(es.rest);
      SeparatorNeutral(k, es.ws, ',', es.wsNext);
      RunNeutral(k, st1, comma);
      ScanElements(k, Extend(st1, comma), es.rest);
      RunTwo(k, st1, comma, rest, [], Outside(st, outs));
      assert [] + Outside(st, outs) == Outside(st, outs);
      RunTwo(k, st, first, comma + rest, Outside(st, out), Outside(st, outs));
      assert OuterObjectsIn(es) == out + outs;
    }
  }

  lemma {:induction false} ScanMember(k: Kind, st: Scan, m: Member)
    requires Between(k, st) && st.depth > 0 && ValidMember(m)
    ensures Run(k, st, MemberText(m)) == Result(Extend(st, MemberText(m)), [])
    decreases m, 2
  {
    var key, colon := StringText(m.key), m.wsKey + (":" + m.wsValue);
    RunString(k, st, m.key);
    SeparatorNeutral(k, m.wsKey, ':', m.wsValue);
    RunNeutral(k, Extend(st, key), colon);
    ScanValue(k, Extend(Extend(st, key), colon), m.value);
    RunTwo(k, Extend(st, key), colon, Text(m.value), [], []);
    RunTwo(k, st, key, colon + Text(m.value), [], []);
    Assoc4(m.wsKey, ":", m.wsValue, Text(m.value));
    Assoc(":", m.wsValue, Text(m.value));
    Assoc(m.wsKey, ":" + m.wsValue, Text(m.value));
  }

  lemma {:induction false} ScanMembers(k: Kind, st: Scan, ms: Members)
    requires Between(k, st) && st.depth > 0 && ValidMembers(ms)
    ensures Run(k, st, MembersBody(ms)) == Result(Extend(st, MembersBody(ms)), [])
    decreases ms, 0
  {
    var first := MemberText(ms.member);
    var st1 := Extend(st, first);
    assert ValidMember(ms.member);
    ScanMember(k, st, ms.member);
    if ms.LastMember? {
      RunNeutral(k, st1, ms.ws);
      RunTwo(k, st, first, ms.ws, [], []);
    } else {
      var comma, rest := ms.ws + ("," + ms.wsNext), MembersBody(ms.rest);
      SeparatorNeutral(k, ms.ws, ',', ms.wsNext);
      RunNeutral(k, st1, comma);
      ScanMembers(k, Extend(st1, comma), ms.rest);
      RunTwo(k, st1, comma, rest, [], []);
      RunTwo(k, st, first, comma + rest, [], []);
    }
  }

  // ---------- split_top_level_array_objects ----------

  /** On any value of the grammar the splitter returns the texts of its outermost objects. */
  lemma SplitsOuterObjects(before: string, v: Value, after: string)
    requires AllSpace(before) && ValidValue(v) && AllSpace(after)
    ensures Run(Splitter, IDLE, before + (Text(v) + after)).out == OuterObjects(v)
  {
    RunNeutral(Splitter, IDLE, before);
    RunNeutral(Splitter, IDLE, after);
    ScanValue(Splitter, IDLE, v);
    RunAppend(Splitter, IDLE, Text(v), after);
    RunAppend(Splitter, IDLE, before, Text(v) + after);
  }

  predicate Object?(v: Value) { v.Object? || v.EmptyObject? }

  predicate OnlyObjects(es: Elements) {
    Object?(es.value) && (es.MoreElements? ==> OnlyObjects(es.rest))
  }

  function ElementTexts(es: Elements): seq<string> {
    [Text(es.value)] + (if es.LastElement? then [] else ElementTexts(es.rest))
  }

  /** The texts of the elements that are objects. */
  function ObjectTexts(es: Elements): seq<string> {
    (if Object?(es.value) then [Text(es.value)] else [])
    + (if es.LastElement? then [] else ObjectTexts(es.rest))
  }

  /** An object, or an array that holds one at some depth, through arrays only. */
  predicate HoldsObject(v: Value) { Object?(v) || (v.Array? && HoldsObjectIn(v.elements)) }

  predicate HoldsObjectIn(es: Elements) {
    HoldsObject(es.value) || (es.MoreElements? && HoldsObjectIn(es.rest))
  }

  /** Some element is an array that holds an object. */
  predicate HidesObject(es: Elements) {
    (es.value.Array? && HoldsObject(es.value)) || (es.MoreElements? && HidesObject(es.rest))
  }

  lemma {:induction false} HoldsObjectExactlyWhen(v: Value)
    ensures HoldsObject(v) <==> OuterObjects(v) != []
    decreases v, 1
  {
    if v.Array? {
      HoldsObjectInExactlyWhen(v.elements);
    }
  }

  lemma {:induction false} HoldsObjectInExactlyWhen(es: Elements)
    ensures HoldsObjectIn(es) <==> OuterObjectsIn(es) != []
    decreases es, 0
  {
    HoldsObjectExactlyWhen(es.value);
    if es.MoreElements? {
      HoldsObjectInExactlyWhen(es.rest);
    }
  }

  lemma {:induction false} AllElements(es: Elements)
    requires OnlyObjects(es)
    ensures OuterObjectsIn(es) == ElementTexts(es)
  {
    if es.MoreElements? {
      AllElements(es.rest);
    }
  }

  lemma {:induction false} CountObjects(es: Elements)
    ensures |OuterObjectsIn(es)| >= |ObjectTexts(es)|
    ensures HidesObject(es) ==> |OuterObjectsIn(es)| > |ObjectTexts(es)|
    ensures !HidesObject(es) ==> OuterObjectsIn(es) == ObjectTexts(es)
  {
    HoldsObjectExactlyWhen(es.value);
    if es.MoreElements? {
      CountObjects(es.rest);
    }
  }

  /**
    On an array whose elements are all objects the splitter returns exactly the element texts, in
    order.  On any array it returns exactly the elements that are objects if and only if no object
    hides inside a nested array.
   */
  lemma SplitsElements(before: string, v: Value, after: string)
    requires AllSpace(before) && ValidValue(v) && v.Array? && AllSpace(after)
    ensures var out := Run(Splitter, IDLE, before + (Text(v) + after)).out;
      && (OnlyObjects(v.elements) ==> out == ElementTexts(v.elements))
      && (out == ObjectTexts(v.elements) <==> !HidesObject(v.elements))
  {
    SplitsOuterObjects(before, v, after);
    CountObjects(v.elements);
    if OnlyObjects(v.elements) {
      AllElements(v.elements);
    }
  }

  /** `[[{}]]`: the array has no element that is an object, and the splitter returns one text. */
  lemma HiddenObjectExample()
    ensures var inner := Array("", LastElement(EmptyObject(""), ""));
            var v := Array("", LastElement(inner, ""));
      && ValidValue(v) && Text(v) == "[[{}]]" && ObjectTexts(v.elements) == []
      && Run(Splitter, IDLE, "[[{}]]").out == ["{}"]
  {
    var inner := Array("", LastElement(EmptyObject(""), ""));
    var v := Array("", LastElement(inner, ""));
    assert ValidValue(inner);
    assert Text(EmptyObject("")) == "{}";
    OneElement(EmptyObject(""));
    OneElement(inner);
    SplitsOuterObjects("", v, "");
    assert "" + (Text(v) + "") == "[[{}]]";
    assert OuterObjects(inner) == ["{}"];
  }

  lemma OneElement(v: Value)
    ensures Text(Array("", LastElement(v, ""))) == "[" + (Text(v) + "]")
  {
    assert "" + "]" == "]";
    assert "" + (Text(v) + "]") == Text(v) + "]";
  }

  // ---------- iter_json_objects ----------

  /** Text between documents: anything without an opening bracket. */
  predicate Gap(s: string) { forall i :: 0 <= i < |s| ==> !Opens(Stream, s[i]) }

  lemma {:induction false} RunGap(s: string)
    requires Gap(s)
    ensures Run(Stream, IDLE, s) == Result(IDLE, [])
  {
    if s != "" {
      RunGap(s[1..]);
    }
  }

  /** Documents, each preceded by a gap. */
  function Joined(docs: seq<(string, Value)>, tail: string): string {
    if docs == [] then tail else docs[0].0 + (Text(docs[0].1) + Joined(docs[1..], tail))
  }

  function Texts(docs: seq<(string, Value)>): seq<string> {
    if docs == [] then [] else [Text(docs[0].1)] + Texts(docs[1..])
  }

  /**
    The scanner yields exactly the documents of a stream, in order, whatever brackets, quotes or
    escapes their strings hold, and whatever bracket-free text lies between them.
   */
  lemma {:induction false} YieldsDocuments(docs: seq<(string, Value)>, tail: string)
    requires forall i :: 0 <= i < |docs| ==> Gap(docs[i].0) && ValidValue(docs[i].1) && docs[i].1.Container?()
    requires Gap(tail)
    ensures Run(Stream, IDLE, Joined(docs, tail)) == Result(IDLE, Texts(docs))
  {
    if docs == [] {
      RunGap(tail);
    } else {
      var gap, v, rest := docs[0].0, docs[0].1, Joined(docs[1..], tail);
      YieldsDocuments(docs[1..], tail);
      RunGap(gap);
      ScanValue(Stream, IDLE, v);
      RunAppend(Stream, IDLE, Text(v), rest);
      RunAppend(Stream, IDLE, gap, Text(v) + rest);
    }
  }

  function JoinLines(docs: seq<Document>): string {
    if docs == [] then "" else DocumentText(docs[0]) + ("\n" + JoinLines(docs[1..]))
  }

  function ValueTexts(docs: seq<Document>): seq<string> {
    if docs == [] then [] else [Text(docs[0].value)] + ValueTexts(docs[1..])
  }

  /** In particular, accepted documents joined by newlines come back without their outer space. */
  lemma {:induction false} YieldsLines(docs: seq<Document>)
    requires forall i :: 0 <= i < |docs| ==> ValidDocument(docs[i])
    ensures Run(Stream, IDLE, JoinLines(docs)) == Result(IDLE, ValueTexts(docs))
  {
    if docs != [] {
      var d, rest := docs[0], JoinLines(docs[1..]);
      YieldsLines(docs[1..]);
      assert Gap(d.before) && Gap(d.after + "\n");
      RunGap(d.before);
      RunGap(d.after + "\n");
      ScanValue(Stream, IDLE, d.value);
      RunAppend(Stream, IDLE, d.after + "\n", rest);
      RunAppend(Stream, IDLE, Text(d.value), (d.after + "\n") + rest);
      RunAppend(Stream, IDLE, d.before, Text(d.value) + ((d.after + "\n") + rest));
      Assoc(d.after, "\n", rest);
      Assoc4(d.before, Text(d.value), d.after, "\n" + rest);
    }
  }
}
