/** What each directive of uart_printf (firmware/bsp/uart.c) puts into the text, in terms of the argument alone: how
    the digits read back, and where they stand between what comes before and after. */
module UartDirectives {
  import opened Bits
  import opened Numerals
  import opened Uart

  /** t is the numeral of v: only digits of the radix, no needless leading zero, and it reads as v. */
  predicate ReadsAs(t: string, b: Radix, v: nat) {
    IsNumeral(t, b) && (t[0] == '0' ==> |t| == 1) && Parse(t, b) == v
  }

  /** The same for a number with a sign; there is a '-' exactly for negative numbers. */
  predicate ReadsSigned(t: string, v: int) {
    && ParseSigned(t) == v && |t| > 0 && (t[0] == '-' <==> v < 0)
    && if v < 0 then ReadsAs(t[1..], Ten, -v) else ReadsAs(t, Ten, v)
  }

  lemma NumeralReads(u: nat, b: Radix)
    ensures ReadsAs(Numeral(u, b), b, u)
  {
    ParseNumeral(u, b);
    NumeralCanonical(u, b);
  }

  lemma SignedReads(v: int)
    requires -0x8000_0000_0000_0000 <= v < 0x8000_0000_0000_0000
    ensures ReadsSigned(SignedNumeral(v), v)
  {
    SignedRoundTrip(v);
    NumeralReads(if v < 0 then -v else v, Ten);
    if v < 0 {
      assert SignedNumeral(v)[1..] == Numeral(-v, Ten);
    } else {
      NoMinus(Numeral(v, Ten));
    }
  }

  /** A piece in front of a format that is already all right. */
  lemma InFront(d: string, f: string, args: seq<Arg>, a: seq<Arg>)
    requires |d| > 0 && WellFormed(f, args) && Usable(d + f, a + args)
    requires Width(d + f) == |d| && Used(d + f) == |a|
    ensures WellFormed(d + f, a + args) && Render(d + f, a + args) == Piece(d + f, a + args) + Render(f, args)
  {
    assert (d + f)[|d|..] == f && (a + args)[|a|..] == args;
  }

  /** %x: lower-case hexadecimal digits of the 32-bit word. */
  lemma HexDirective(w: u32, f: string, args: seq<Arg>)
    requires WellFormed(f, args)
    ensures WellFormed("%x" + f, [Word(w)] + args)
    ensures exists t :: ReadsAs(t, Sixteen, w) && Render("%x" + f, [Word(w)] + args) == t + Render(f, args)
  {
    InFront("%x", f, args, [Word(w)]);
    NumeralReads(w, Sixteen);
  }

  /** %lx: those of the 64-bit word. */
  lemma LongHexDirective(l: u64, f: string, args: seq<Arg>)
    requires WellFormed(f, args)
    ensures WellFormed("%lx" + f, [Long(l)] + args)
    ensures exists t :: ReadsAs(t, Sixteen, l) && Render("%lx" + f, [Long(l)] + args) == t + Render(f, args)
  {
    InFront("%lx", f, args, [Long(l)]);
    NumeralReads(l, Sixteen);
  }

  /** %u: decimal digits of the 32-bit word. */
  lemma UnsignedDirective(w: u32, f: string, args: seq<Arg>)
    requires WellFormed(f, args)
    ensures WellFormed("%u" + f, [Word(w)] + args)
    ensures exists t :: ReadsAs(t, Ten, w) && Render("%u" + f, [Word(w)] + args) == t + Render(f, args)
  {
    InFront("%u", f, args, [Word(w)]);
    NumeralReads(w, Ten);
  }

  /** %lu: those of the 64-bit word. */
  lemma LongUnsignedDirective(l: u64, f: string, args: seq<Arg>)
    requires WellFormed(f, args)
    ensures WellFormed("%lu" + f, [Long(l)] + args)
    ensures exists t :: ReadsAs(t, Ten, l) && Render("%lu" + f, [Long(l)] + args) == t + Render(f, args)
  {
    InFront("%lu", f, args, [Long(l)]);
    NumeralReads(l, Ten);
  }

  /** v is what the low bits of word mean as a two's complement number. */
  predicate IsSigned(v: int, word: nat, modulus: int) {
    modulus > 0 && -modulus <= 2 * v < modulus && (v - word) % modulus == 0
  }

  lemma Signed32Is(w: u32)
    ensures IsSigned(Signed32(w), w, 0x1_0000_0000)
  {
  }

  lemma Signed64Is(l: u64)
    ensures IsSigned(Signed64(l), l, 0x1_0000_0000_0000_0000)
  {
  }

  /** There is one such number. */
  lemma OneSigned(v: int, v': int, word: nat, modulus: int)
    requires IsSigned(v, word, modulus) && IsSigned(v', word, modulus)
    ensures v == v'
  {
    var k: int := (v - word) / modulus - (v' - word) / modulus;
    assert k * modulus == v - v';
    NoMultipleBetween(k, modulus);
  }

  /** %d and %i, of the 32-bit word. */
  lemma SignedDirective(c: char, w: u32, f: string, args: seq<Arg>)
    requires WellFormed(f, args) && c in "di"
    ensures WellFormed(['%', c] + f, [Word(w)] + args)
    ensures exists t, v :: IsSigned(v, w, 0x1_0000_0000) && ReadsSigned(t, v)
              && Render(['%', c] + f, [Word(w)] + args) == t + Render(f, args)
  {
    InFront(['%', c], f, args, [Word(w)]);
    Signed32Is(w);
    SignedReads(Signed32(w));
  }

  /** %ld and %li, of the 64-bit word. */
  lemma LongSignedDirective(c: char, l: u64, f: string, args: seq<Arg>)
    requires WellFormed(f, args) && c in "di"
    ensures WellFormed(['%', 'l', c] + f, [Long(l)] + args)
    ensures exists t, v :: IsSigned(v, l, 0x1_0000_0000_0000_0000) && ReadsSigned(t, v)
              && Render(['%', 'l', c] + f, [Long(l)] + args) == t + Render(f, args)
  {
    InFront(['%', 'l', c], f, args, [Long(l)]);
    Signed64Is(l);
    SignedReads(Signed64(l));
  }

  /** %s gives the string, %c the character of the word's low byte. */
  lemma TextDirectives(s: CString, w: u32, f: string, args: seq<Arg>)
    requires WellFormed(f, args)
    ensures WellFormed("%s" + f, [Text(s)] + args) && WellFormed("%c" + f, [Word(w)] + args)
    ensures Render("%s" + f, [Text(s)] + args) == s + Render(f, args)
    ensures Render("%c" + f, [Word(w)] + args) == [(w % 256) as char] + Render(f, args)
  {
    InFront("%s", f, args, [Text(s)]);
    InFront("%c", f, args, [Word(w)]);
  }

  /** An ordinary character stands for itself and takes no argument. */
  lemma PlainCharacter(c: char, f: string, args: seq<Arg>)
    requires WellFormed(f, args) && c != '\0' && c != '%'
    ensures WellFormed([c] + f, args) && Render([c] + f, args) == [c] + Render(f, args)
  {
    assert [] + args == args;
    InFront([c], f, args, []);
  }

  /** So does %% for a percent sign, and a directive the switch does not know for itself. */
  lemma OtherDirective(c: char, f: string, args: seq<Arg>)
    requires WellFormed(f, args) && c !in "sxdiucl" && c != '\0'
    ensures WellFormed(['%', c] + f, args)
    ensures Render(['%', c] + f, args) == (if c == '%' then "%" else ['%', c]) + Render(f, args)
  {
    assert [] + args == args;
    InFront(['%', c], f, args, []);
  }

  lemma OtherLongDirective(c: char, f: string, args: seq<Arg>)
    requires WellFormed(f, args) && c !in "xdiu" && c != '\0'
    ensures WellFormed(['%', 'l', c] + f, args)
    ensures Render(['%', 'l', c] + f, args) == ['%', 'l', c] + Render(f, args)
  {
    assert [] + args == args;
    InFront(['%', 'l', c], f, args, []);
  }

  /** The digits are those of the table in the source. */
  lemma DigitTable(d: nat)
    requires d < 16
    ensures DigitFor(d) == "0123456789abcdef"[d] && ValueOf("0123456789abcdef"[d]) == d
  {
  }
}
