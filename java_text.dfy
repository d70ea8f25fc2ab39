/**
 * The pieces of the Java platform that the listeners and the producer lean on:
 * 32-bit `int` arithmetic, `Integer.parseInt` / `Integer.toString`,
 * `String.contains`, `String.split(":")` and `equalsIgnoreCase("exit")`.
 * Only ASCII decimal digits are modelled (see README, "Left out").
 */
module JavaText {
  import opened Wrappers

  // ---------------------------------------------------------------- int

  const IntMin: int := -0x8000_0000
  const IntMax: int := 0x7FFF_FFFF

  predicate InInt(n: int) { IntMin <= n <= IntMax }

  /** A Java `int`. */
  type JInt = n: int | IntMin <= n <= IntMax

  /** Two's-complement wrap-around of a Java `int` expression such as `count + 1`. */
  function WrapInt(n: int): (r: JInt)
    ensures (r - n) % 0x1_0000_0000 == 0
    ensures InInt(n) ==> r == n
  {
    (n - IntMin) % 0x1_0000_0000 + IntMin
  }

  // ------------------------------------------------------------ digits

  predicate IsDigit(c: char) { '0' <= c <= '9' }

  predicate AllDigits(s: string) { forall i | 0 <= i < |s| :: IsDigit(s[i]) }

  function DigitValue(c: char): nat
    requires IsDigit(c)
  {
    (c as int) - ('0' as int)
  }

  function DigitChar(d: nat): (c: char)
    requires d < 10
    ensures IsDigit(c) && DigitValue(c) == d
  {
    (('0' as int) + d) as char
  }

  /** Value of a string of decimal digits, most significant digit first. */
  function DigitsValue(s: string): nat
    requires AllDigits(s)
  {
    if s == [] then 0 else DigitsValue(s[..|s| - 1]) * 10 + DigitValue(s[|s| - 1])
  }

  /** The decimal digits of n without leading zeros. */
  function NatDigits(n: nat): (s: string)
    ensures |s| > 0 && AllDigits(s)
    ensures n >= 10 ==> |s| >= 2 && s[0] != '0'
  {
    if n < 10 then [DigitChar(n)] else NatDigits(n / 10) + [DigitChar(n % 10)]
  }

  lemma {:induction false} NatDigitsValue(n: nat)
    ensures DigitsValue(NatDigits(n)) == n
  {
    if n >= 10 {
      var s := NatDigits(n);
      assert s[..|s| - 1] == NatDigits(n / 10);
      NatDigitsValue(n / 10);
    }
  }

  /** `Integer.toString(n)`: an optional minus sign followed by the digits of |n|. */
  function ShowInt(n: int): string
  {
    if n < 0 then "-" + NatDigits(-n) else NatDigits(n)
  }

  /**
   * `Integer.parseInt(s)`: an optional '+' or '-', then at least one decimal digit,
   * and a value that fits in an `int`; anything else is a `NumberFormatException`,
   * modelled as `None`.
   */
  function ParseInt(s: string): (r: Option<JInt>)
    ensures r.Some? ==> s != [] && IsDigit(s[|s| - 1])
  {
    if s == [] then None
    else
      var signed := s[0] == '-' || s[0] == '+';
      var digits := if signed then s[1..] else s;
      if digits == [] || !AllDigits(digits) then None
      else
        assert IsDigit(s[|s| - 1]);
        var v: int := if s[0] == '-' then -(DigitsValue(digits) as int) else DigitsValue(digits);
        if InInt(v) then Some(v) else None
  }

  /** What `Integer.toString` writes, `Integer.parseInt` reads back. */
  lemma ShowIntRoundTrip(n: JInt)
    ensures ParseInt(ShowInt(n)) == Some(n)
  {
    if n < 0 {
      var m: nat := -(n as int);
      var d := NatDigits(m);
      NatDigitsValue(m);
      var s := "-" + d;
      assert s == ShowInt(n) && s[0] == '-' && s[1..] == d;
    } else {
      var d := NatDigits(n);
      NatDigitsValue(n);
      assert d == ShowInt(n) && IsDigit(d[0]);
    }
  }

  // ---------------------------------------------------------- contains

  /** t occurs in s starting at index i. */
  predicate OccursAt(s: string, t: string, i: int)
  {
    0 <= i <= |s| - |t| && s[i..i + |t|] == t
  }

  lemma OccursShift(s: string, t: string)
    requires |s| > 0
    ensures forall i | 0 <= i :: OccursAt(s[1..], t, i) <==> OccursAt(s, t, i + 1)
  {
  }

  /** `s.contains(t)`, scanning s from the left. */
  function Contains(s: string, t: string): (b: bool)
    ensures b <==> exists i :: OccursAt(s, t, i)
  {
    if |s| < |t| then false
    else if s[..|t|] == t then assert OccursAt(s, t, 0); true
    else
      OccursShift(s, t);
      assert !OccursAt(s, t, 0);
      assert forall i :: OccursAt(s, t, i) ==> i >= 1 && OccursAt(s[1..], t, i - 1);
      Contains(s[1..], t)
  }

  // ------------------------------------------------------------- split

  /** Every field of s between occurrences of sep, none dropped: one more field than separators. */
  function Fields(s: string, sep: char): (r: seq<string>)
    ensures |r| >= 1
    ensures forall i | 0 <= i < |r| :: sep !in r[i]
  {
    if s == [] then [[]]
    else
      var rest := Fields(s[1..], sep);
      if s[0] == sep then [[]] + rest else [[s[0]] + rest[0]] + rest[1..]
  }

  /** Glues fields back together with sep between neighbours. */
  function Join(fs: seq<string>, sep: char): string
  {
    if fs == [] then [] else if |fs| == 1 then fs[0] else fs[0] + [sep] + Join(fs[1..], sep)
  }

  lemma {:induction false} JoinFields(s: string, sep: char)
    ensures Join(Fields(s, sep), sep) == s
  {
    if s != [] {
      var rest := Fields(s[1..], sep);
      JoinFields(s[1..], sep);
      if s[0] == sep {
        assert Fields(s, sep) == [[]] + rest;
        assert ([[]] + rest)[1..] == rest;
      } else {
        var fs := [[s[0]] + rest[0]] + rest[1..];
        if |rest| == 1 {
          assert Join(fs, sep) == [s[0]] + rest[0];
        } else {
          assert fs[1..] == rest[1..];
          assert Join(rest, sep) == rest[0] + [sep] + Join(rest[1..], sep);
        }
      }
    }
  }

  /** A piece without sep stays glued to whatever field follows it. */
  lemma {:induction false} FieldsPrefix(x: string, rest: string, sep: char)
    requires sep !in x
    ensures Fields(x + rest, sep) == [x + Fields(rest, sep)[0]] + Fields(rest, sep)[1..]
  {
    if x != [] {
      assert (x + rest)[1..] == x[1..] + rest;
      FieldsPrefix(x[1..], rest, sep);
      assert [x[0]] + (x[1..] + Fields(rest, sep)[0]) == x + Fields(rest, sep)[0];
    } else {
      var fr := Fields(rest, sep);
      assert x + rest == rest && x + fr[0] == fr[0];
      assert fr == [fr[0]] + fr[1..];
    }
  }

  /** The trailing empty fields removed, as `split` does with limit 0. */
  function DropTrailingEmpty(fs: seq<string>): (r: seq<string>)
    ensures |r| <= |fs| && r == fs[..|r|]
    ensures r == [] || r[|r| - 1] != []
    ensures forall i | |r| <= i < |fs| :: fs[i] == []
  {
    if fs == [] then []
    else if fs[|fs| - 1] == [] then DropTrailingEmpty(fs[..|fs| - 1])
    else fs
  }

  /**
   * `s.split(String.valueOf(sep))` for a separator that is not a regular-expression
   * metacharacter: the whole string when sep does not occur, otherwise the fields
   * with trailing empty fields dropped (a leading empty field is kept).
   */
  function Split(s: string, sep: char): seq<string>
  {
    if sep !in s then [s] else DropTrailingEmpty(Fields(s, sep))
  }

  /** n copies of sep. */
  function Repeat(sep: char, n: nat): (r: string)
    ensures |r| == n && forall i | 0 <= i < n :: r[i] == sep
  {
    if n == 0 then [] else [sep] + Repeat(sep, n - 1)
  }

  // --------------------------------------------------- equalsIgnoreCase

  function UpperAscii(c: char): char
  {
    if 'a' <= c <= 'z' then (c as int - 32) as char else c
  }

  /**
   * Whether Java's `equalsIgnoreCase` matches c with the lower-case ASCII letter l:
   * the letter itself, its upper case, and for 'i' also U+0130 and U+0131, whose
   * Java case mappings meet 'i' and 'I'.
   */
  predicate MatchesIgnoringCase(c: char, l: char)
  {
    c == l || c == UpperAscii(l) || (l == 'i' && (c == '\U{0130}' || c == '\U{0131}'))
  }

  /** `"exit".equalsIgnoreCase(input)`. */
  predicate IsExit(input: string)
  {
    |input| == 4
    && MatchesIgnoringCase(input[0], 'e') && MatchesIgnoringCase(input[1], 'x')
    && MatchesIgnoringCase(input[2], 'i') && MatchesIgnoringCase(input[3], 't')
  }
}
