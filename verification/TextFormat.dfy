/** Cutting, stripping and numbers: what the line formats of the two programs share. */
module TextFormat {
  import opened Wrappers
  import opened JsonGrammar
  import opened JsonRecognizer

  /** The text before and after the first occurrence of a character. */
  function Cut(s: string, c: char): (r: Option<(string, string)>)
    ensures r.Some? ==> |r.value.0| + 1 + |r.value.1| == |s|
    ensures r.None? <==> c !in s
  {
    if s == "" then None
    else if s[0] == c then Some(("", s[1..]))
    else
      var r := Cut(s[1..], c);
      if r.None? then None else Some(([s[0]] + r.value.0, r.value.1))
  }

  lemma {:induction false} CutAfter(a: string, c: char, b: string)
    requires c !in a
    ensures Cut(a + ([c] + b), c) == Some((a, b))
  {
    if a == "" {
      assert a + ([c] + b) == [c] + b;
    } else {
      assert (a + ([c] + b))[1..] == a[1..] + ([c] + b);
      CutAfter(a[1..], c, b);
      assert a == [a[0]] + a[1..];
    }
  }

  lemma {:induction false} CutParts(s: string, c: char)
    requires c in s
    ensures var (a, b) := Cut(s, c).value; c !in a && s == a + ([c] + b)
  {
    if s[0] != c {
      CutParts(s[1..], c);
      var (a, b) := Cut(s[1..], c).value;
      assert s == [s[0]] + s[1..];
      Assoc([s[0]], a, [c] + b);
    }
  }

  /** The first occurrence of a word, as the text after it. */
  function AfterWord(s: string, word: string): (r: Option<string>)
    ensures r.Some? ==> |r.value| + |word| <= |s|
  {
    if word <= s then Some(s[|word|..])
    else if s == "" then None
    else AfterWord(s[1..], word)
  }

  /** Text that cannot begin the word is passed over. */
  lemma {:induction false} AfterWordSkips(a: string, rest: string, word: string)
    requires word != ""
    requires forall i :: 0 <= i < |a| ==> !(word <= (a + rest)[i..])
    ensures AfterWord(a + rest, word) == AfterWord(rest, word)
    decreases |a|
  {
    if a == "" {
      assert a + rest == rest;
    } else {
      assert (a + rest)[0..] == a + rest;
      assert (a + rest)[1..] == a[1..] + rest;
      forall i | 0 <= i < |a[1..]|
        ensures !(word <= (a[1..] + rest)[i..])
      {
        assert (a[1..] + rest)[i..] == (a + rest)[i + 1..];
      }
      AfterWordSkips(a[1..], rest, word);
    }
  }

  lemma AfterWordHere(word: string, rest: string)
    ensures AfterWord(word + rest, word) == Some(rest)
  {
  }

  // ---------- lines ----------

  /** What successive `getline` calls return: an unterminated last line counts if it is not empty. */
  function Lines(s: string): seq<string>
    decreases |s|
  {
    if s == "" then [] else
    var cut := Cut(s, '\n');
    if cut.None? then [s] else [cut.value.0] + Lines(cut.value.1)
  }

  lemma LinesOfLine(line: string, rest: string)
    requires '\n' !in line
    ensures Lines(line + ("\n" + rest)) == [line] + Lines(rest)
  {
    CutAfter(line, '\n', rest);
  }

  predicate EndsLine(s: string) { s == "" || s[|s| - 1] == '\n' }

  lemma FirstLine(s: string) returns (line: string, rest: string)
    requires s != "" && EndsLine(s)
    ensures '\n' !in line && s == line + ("\n" + rest) && EndsLine(rest) && |rest| < |s|
  {
    assert '\n' in s;
    CutParts(s, '\n');
    line, rest := Cut(s, '\n').value.0, Cut(s, '\n').value.1;
    assert s[|s| - |rest|..] == rest;
  }

  lemma NoLines()
    ensures Lines("") == []
  {
  }

  lemma ConsAppend(line: string, a: seq<string>, b: seq<string>)
    ensures [line] + (a + b) == ([line] + a) + b
  {
  }

  lemma {:induction false} LinesAppend(a: string, b: string)
    requires EndsLine(a)
    ensures Lines(a + b) == Lines(a) + Lines(b)
    decreases |a|
  {
    hide Lines, EndsLine, Cut;
    if a == "" {
      NoLines();
      assert a + b == b;
      assert [] + Lines(b) == Lines(b);
    } else {
      var line, rest := FirstLine(a);
      LinesAppend(rest, b);
      Assoc4(line, "\n", rest, b);
      LinesOfLine(line, rest + b);
      LinesOfLine(line, rest);
      ConsAppend(line, Lines(rest), Lines(b));
    }
  }

  // ---------- stripping ----------

  function StripLeft(space: char -> bool, s: string): (r: string)
    ensures |r| <= |s|
    ensures r != "" ==> !space(r[0])
    ensures exists k :: 0 <= k <= |s| && r == s[k..]
    ensures s != "" && !space(s[0]) ==> r == s
    ensures s != "" && space(s[0]) ==> |r| < |s|
  {
    if s != "" && space(s[0]) then
      var r := StripLeft(space, s[1..]);
      var k :| 0 <= k <= |s[1..]| && r == s[1..][k..];
      assert r == s[k + 1..];
      r
    else
      assert s == s[0..];
      s
  }

  function StripRight(space: char -> bool, s: string): (r: string)
    ensures |r| <= |s|
    ensures r != "" ==> !space(r[|r| - 1])
    ensures r <= s
    ensures s != "" && !space(s[|s| - 1]) ==> r == s
    ensures s != "" && space(s[|s| - 1]) ==> |r| < |s|
  {
    if s != "" && space(s[|s| - 1]) then StripRight(space, s[..|s| - 1]) else s
  }

  function Strip(space: char -> bool, s: string): string { StripRight(space, StripLeft(space, s)) }

  /** Nothing to strip: empty, or no space at either end. */
  predicate Stripped(space: char -> bool, s: string) {
    s != "" ==> !space(s[0]) && !space(s[|s| - 1])
  }

  lemma StripIsStripped(space: char -> bool, s: string)
    ensures Stripped(space, Strip(space, s))
    ensures Strip(space, s) == s <==> Stripped(space, s)
    ensures forall c :: c in Strip(space, s) ==> c in s
  {
    var left := StripLeft(space, s);
    var k :| 0 <= k <= |s| && left == s[k..];
    var r := StripRight(space, left);
    assert r != "" ==> r[0] == left[0];
  }

  predicate AllOf(space: char -> bool, s: string) { forall i :: 0 <= i < |s| ==> space(s[i]) }

  lemma {:induction false} StripLeftSkips(space: char -> bool, a: string, s: string)
    requires AllOf(space, a) && (s != "" ==> !space(s[0]))
    ensures StripLeft(space, a + s) == s
    decreases |a|
  {
    if a == "" {
      assert a + s == s;
    } else {
      assert (a + s)[1..] == a[1..] + s;
      StripLeftSkips(space, a[1..], s);
    }
  }

  lemma {:induction false} StripRightSkips(space: char -> bool, s: string, b: string)
    requires AllOf(space, b) && (s != "" ==> !space(s[|s| - 1]))
    ensures StripRight(space, s + b) == s
    decreases |b|
  {
    if b == "" {
      assert s + b == s;
    } else {
      var n := |b| - 1;
      assert (s + b)[..|s + b| - 1] == s + b[..n];
      StripRightSkips(space, s, b[..n]);
    }
  }

  /** Stripping takes away exactly the space on either side. */
  lemma StripTakesSpace(space: char -> bool, a: string, s: string, b: string)
    requires AllOf(space, a) && AllOf(space, b) && Stripped(space, s)
    ensures Strip(space, a + (s + b)) == s
  {
    hide StripLeft, StripRight;
    if s == "" {
      assert a + (s + b) == (a + b) + "";
      StripLeftSkips(space, a + b, "");
      StripRightSkips(space, "", "");
      assert "" + "" == "";
    } else {
      StripLeftSkips(space, a, s + b);
      StripRightSkips(space, s, b);
    }
  }

  // ---------- decimal numbers ----------

  function Decimal(n: nat): (s: string)
    ensures s != "" && AllDigits(s)
  {
    if n < 10 then [('0' as int + n) as char] else Decimal(n / 10) + [('0' as int + n % 10) as char]
  }

  function DigitValue(c: char): nat
    requires IsDigit(c)
  {
    c as int - '0' as int
  }

  function NumberOf(digits: string): nat
    requires AllDigits(digits)
  {
    if digits == "" then 0 else NumberOf(digits[..|digits| - 1]) * 10 + DigitValue(digits[|digits| - 1])
  }

  lemma {:induction false} DecimalValue(n: nat)
    ensures NumberOf(Decimal(n)) == n
  {
    if n >= 10 {
      DecimalValue(n / 10);
      var s := Decimal(n);
      assert s[..|s| - 1] == Decimal(n / 10);
    } else {
      assert Decimal(n)[..0] == "";
    }
  }

  lemma {:induction false} LeadingDigitsOver(ds: string, rest: string)
    requires AllDigits(ds) && !StartsDigit(rest)
    ensures LeadingDigits(ds + rest) == ds
  {
    if ds == "" {
      assert ds + rest == rest;
    } else {
      assert (ds + rest)[1..] == ds[1..] + rest;
      LeadingDigitsOver(ds[1..], rest);
    }
  }
}
