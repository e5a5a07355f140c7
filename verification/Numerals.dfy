/** Numerals in the two radices uart_printf (firmware/bsp/uart.c) prints. */
module Numerals {
  import opened Bits

  datatype Radix = Ten | Sixteen

  function Base(b: Radix): nat { if b.Ten? then 10 else 16 }

  // The radix is always one of two constants, which keeps the arithmetic below linear.

  function Div(u: nat, b: Radix): nat { if b.Ten? then u / 10 else u / 16 }

  function Mod(u: nat, b: Radix): nat { if b.Ten? then u % 10 else u % 16 }

  function Times(u: nat, b: Radix): nat { if b.Ten? then 10 * u else 16 * u }

  predicate IsDigit(c: char, b: Radix) { ValueOf(c) < Base(b) }

  function DigitFor(d: nat): (c: char)
    requires d < 16
    ensures ValueOf(c) == d && c != '-' && (c == '0' <==> d == 0)
  {
    if d < 10 then '0' + d as char else 'a' + (d - 10) as char
  }

  /** Value of a digit; 16 for any other character. */
  function ValueOf(c: char): nat {
    if '0' <= c <= '9' then (c - '0') as nat else if 'a' <= c <= 'f' then (c - 'a') as nat + 10 else 16
  }

  lemma SameDigit(c: char)
    requires ValueOf(c) < 16
    ensures DigitFor(ValueOf(c)) == c
  {
  }

  /** The usual numeral of u. */
  function Numeral(u: nat, b: Radix): (s: string)
    ensures |s| > 0
    decreases u, b
  {
    if u < Base(b) then [DigitFor(u)] else Numeral(Div(u, b), b) + [DigitFor(Mod(u, b))]
  }

  predicate IsNumeral(s: string, b: Radix) { |s| > 0 && forall i :: 0 <= i < |s| ==> IsDigit(s[i], b) }

  /** Reading a string of digits. */
  function Parse(s: string, b: Radix): nat {
    if |s| == 0 then 0 else Times(Parse(s[..|s| - 1], b), b) + ValueOf(s[|s| - 1])
  }

  function Power(b: Radix, n: nat): (p: nat)
    ensures p > 0
    decreases n, b
  {
    if n == 0 then 1 else Times(Power(b, n - 1), b)
  }

  lemma ParsePush(s: string, c: char, b: Radix)
    ensures Parse(s + [c], b) == Times(Parse(s, b), b) + ValueOf(c)
  {
    assert (s + [c])[..|s|] == s;
  }

  lemma NumeralSplits(u: nat, b: Radix)
    requires u >= Base(b)
    ensures Numeral(u, b) == Numeral(Div(u, b), b) + [DigitFor(Mod(u, b))]
    ensures Div(u, b) < u && Times(Div(u, b), b) + Mod(u, b) == u
  {
  }

  /** The numeral reads back as the number. */
  lemma {:induction false} ParseNumeral(u: nat, b: Radix)
    ensures Parse(Numeral(u, b), b) == u
    decreases u
  {
    if u < Base(b) {
      ParseDigit(DigitFor(u), b);
    } else {
      NumeralSplits(u, b);
      var q := Div(u, b);
      ParseNumeral(q, b);
      ParsePush(Numeral(q, b), DigitFor(Mod(u, b)), b);
    }
  }

  lemma ParseDigit(c: char, b: Radix)
    ensures Parse([c], b) == ValueOf(c)
  {
    ParsePush("", c, b);
    assert "" + [c] == [c];
  }

  /** It has digits of the radix only, and no leading zero except for zero itself. */
  lemma {:induction false} NumeralCanonical(u: nat, b: Radix)
    ensures IsNumeral(Numeral(u, b), b)
    ensures Numeral(u, b)[0] == '0' <==> u == 0
    ensures u == 0 ==> Numeral(u, b) == "0"
    decreases u
  {
    if u >= Base(b) { NumeralCanonical(Div(u, b), b); }
  }

  /** There is no other: a digit string without a leading zero is the numeral of its value. */
  lemma {:induction false} NumeralUnique(s: string, b: Radix)
    requires IsNumeral(s, b) && (s[0] == '0' ==> |s| == 1)
    ensures Numeral(Parse(s, b), b) == s && (s[0] != '0' ==> Parse(s, b) > 0)
    decreases |s|
  {
    var t, c := s[..|s| - 1], s[|s| - 1];
    assert s == t + [c] && IsDigit(c, b);
    ParsePush(t, c, b);
    SameDigit(c);
    if |t| > 0 {
      NumeralUnique(t, b);
      NumeralPush(Parse(t, b), c, b);
    } else {
      assert t == "";
    }
  }

  lemma NumeralPush(q: nat, c: char, b: Radix)
    requires q > 0 && IsDigit(c, b)
    ensures Numeral(Times(q, b) + ValueOf(c), b) == Numeral(q, b) + [c]
  {
    SameDigit(c);
  }

  /** Exactly the numbers below b^n have numerals of at most n digits. */
  lemma {:induction false} NumeralLength(u: nat, b: Radix, n: nat)
    requires n > 0
    ensures |Numeral(u, b)| <= n <==> u < Power(b, n)
    decreases n
  {
    if u >= Base(b) && n > 1 {
      NumeralLength(Div(u, b), b, n - 1);
    } else if n == 1 {
      assert Power(b, 1) == Times(Power(b, 0), b);
    }
  }
}
