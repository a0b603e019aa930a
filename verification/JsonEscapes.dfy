/**
  What the escapes of a string stand for, said by numbers: the code point that four digits spell,
  and the code of each escape letter.
 */
module JsonEscapes {
  import opened Wrappers
  import opened JsonGrammar
  import opened JsonRecognizer

  // ---------- the characters of the language ----------

  /** The character classes of the parser, listed. */
  lemma CharacterClasses(c: char)
    ensures IsDigit(c) <==> c in "0123456789"
    ensures IsHexDigit(c) <==> c in "0123456789abcdefABCDEF"
    ensures IsSpace(c) <==> c as int in [9, 10, 11, 12, 13, 32]
  {
    assert "0123456789abcdefABCDEF" == "0123456789" + ("abcdef" + "ABCDEF");
    DigitsListed(c);
    LettersListed(c);
  }

  lemma DigitsListed(c: char)
    ensures c in "0123456789" <==> '0' <= c <= '9'
  {
    if '0' <= c <= '9' {
      assert "0123456789"[c as int - 48] == c;
    }
  }

  lemma LettersListed(c: char)
    ensures c in "abcdef" <==> 'a' <= c <= 'f'
    ensures c in "ABCDEF" <==> 'A' <= c <= 'F'
  {
    if 'a' <= c <= 'f' {
      assert "abcdef"[c as int - 97] == c;
    }
    if 'A' <= c <= 'F' {
      assert "ABCDEF"[c as int - 65] == c;
    }
  }

  // ---------- four hexadecimal digits ----------

  /** The digit of a value, in either case. */
  function Digit(n: nat, upper: bool): char
    requires n < 16
  {
    if upper then "0123456789ABCDEF"[n] else "0123456789abcdef"[n]
  }

  /** Which of the four digits are in upper case. */
  datatype Case = Case(u0: bool, u1: bool, u2: bool, u3: bool)

  /** A 16-bit number, the highest digit first. */
  function FourDigits(n: nat, k: Case): (s: string)
    requires n < 0x10000
    ensures |s| == 4
  {
    [Digit(n / 4096, k.u0), Digit(n / 256 % 16, k.u1), Digit(n / 16 % 16, k.u2), Digit(n % 16, k.u3)]
  }

  lemma DigitHasValue(n: nat, upper: bool)
    requires n < 16
    ensures IsHexDigit(Digit(n, upper)) && HexValue(Digit(n, upper)) == n
  {
  }

  lemma DigitsAddUp(n: nat)
    requires n < 0x10000
    ensures ((n / 4096 * 16 + n / 256 % 16) * 16 + n / 16 % 16) * 16 + n % 16 == n
  {
  }

  lemma FourDigitsHaveValue(n: nat, k: Case)
    requires n < 0x10000
    ensures var s := FourDigits(n, k);
      && (forall i :: 0 <= i < 4 ==> IsHexDigit(s[i]))
      && ((HexValue(s[0]) * 16 + HexValue(s[1])) * 16 + HexValue(s[2])) * 16 + HexValue(s[3]) == n
  {
    hide Digit, IsHexDigit, HexValue;
    DigitHasValue(n / 4096, k.u0);
    DigitHasValue(n / 256 % 16, k.u1);
    DigitHasValue(n / 16 % 16, k.u2);
    DigitHasValue(n % 16, k.u3);
    DigitsAddUp(n);
  }

  /** Whatever four hexadecimal digits stand there spell a number in this way. */
  lemma EveryFourDigitsSpell(h: string) returns (n: nat, k: Case)
    requires |h| == 4 && forall i :: 0 <= i < 4 ==> IsHexDigit(h[i])
    ensures n < 0x10000 && FourDigits(n, k) == h
  {
    hide HexValue, Digit, IsUpper, IsHexDigit;
    var v0, v1, v2, v3 := HexValue(h[0]), HexValue(h[1]), HexValue(h[2]), HexValue(h[3]);
    n := ((v0 * 16 + v1) * 16 + v2) * 16 + v3;
    k := Case(IsUpper(h[0]), IsUpper(h[1]), IsUpper(h[2]), IsUpper(h[3]));
    SpellsBack(h[0]);
    SpellsBack(h[1]);
    SpellsBack(h[2]);
    SpellsBack(h[3]);
    DigitsTakenApart(v0, v1, v2, v3);
  }

  lemma DigitsTakenApart(v0: nat, v1: nat, v2: nat, v3: nat)
    requires v0 < 16 && v1 < 16 && v2 < 16 && v3 < 16
    ensures var n := ((v0 * 16 + v1) * 16 + v2) * 16 + v3;
      n < 0x10000 && n / 4096 == v0 && n / 256 % 16 == v1 && n / 16 % 16 == v2 && n % 16 == v3
  {
  }

  predicate IsUpper(c: char) { 'A' <= c <= 'F' }

  lemma SpellsBack(c: char)
    requires IsHexDigit(c)
    ensures Digit(HexValue(c), IsUpper(c)) == c
  {
  }

  /** The one byte kept of a code point. */
  function Kept(n: nat): char
    requires n < 0x10000
  {
    if n <= 0x7f then n as char else '?'
  }

  /** Anywhere in a string, `\u` and four digits stand for the code point up to 0x7f, and for a question mark above. */
  lemma UnicodeEscapeReads(n: nat, k: Case, rest: string)
    requires n < 0x10000
    ensures ParseChars("\\u" + (FourDigits(n, k) + rest)) == Prepend([Kept(n)], ParseChars(rest))
  {
    hide FourDigits, IsHexDigit, HexValue;
    FourDigitsHaveValue(n, k);
    var d := FourDigits(n, k);
    var s := "\\u" + (d + rest);
    assert s[2] == d[0] && s[3] == d[1] && s[4] == d[2] && s[5] == d[3];
    assert s[6..] == rest;
    assert forall i :: 2 <= i < 6 ==> s[i] == d[i - 2];
  }

  lemma UnicodeStringReads(n: nat, k: Case, rest: string)
    requires n < 0x10000
    ensures ParseString("\"\\u" + (FourDigits(n, k) + ("\"" + rest))) == GoodString([Kept(n)], rest)
  {
    hide FourDigits;
    UnicodeEscapeReads(n, k, "\"" + rest);
    var s := "\"\\u" + (FourDigits(n, k) + ("\"" + rest));
    assert s[1..] == "\\u" + (FourDigits(n, k) + ("\"" + rest));
    assert ParseChars("\"" + rest) == GoodString("", rest);
    assert [Kept(n)] + "" == [Kept(n)];
  }

  // ---------- escape letters ----------

  const LETTERS := "\"\\/bfnrt"

  /** The codes of quotation mark, backslash, slash, backspace, form feed, line feed, carriage return and tab. */
  const CODES: seq<nat> := [34, 92, 47, 8, 12, 10, 13, 9]

  /** Anywhere in a string, a backslash and a letter stand for the character with the letter's code. */
  lemma LetterEscapeReads(i: nat, rest: string)
    requires i < |LETTERS|
    ensures ParseChars(['\\', LETTERS[i]] + rest) == Prepend([CODES[i] as char], ParseChars(rest))
  {
    hide Unescape, UnicodeChar, IsHexDigit;
    var s := ['\\', LETTERS[i]] + rest;
    assert s[2..] == rest;
    LetterHasCode(i);
  }

  lemma LetterHasCode(i: nat)
    requires i < |LETTERS|
    ensures Unescape(LETTERS[i]) == CODES[i] as char && LETTERS[i] in "\"\\/bfnrt"
  {
  }
}
