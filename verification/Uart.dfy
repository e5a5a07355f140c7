/** firmware/bsp/uart.c: character output and the formatter uart_printf. */
module Uart {
  import opened Bits
  import opened Numerals
  import opened Protocol
  import opened Sequences

  // ---- What a format and its arguments mean ----

  /** The characters before the NUL that ends a C string. */
  type CString = s: string | '\0' !in s witness ""

  /** A variadic argument: a 32-bit word, a 64-bit word or a C string. */
  datatype Arg = Word(w: u32) | Long(l: u64) | Text(s: CString)

  function Signed32(w: u32): int { if w < 0x8000_0000 then w else w - TWO32 }

  function Signed64(l: u64): int { if l < 0x8000_0000_0000_0000 then l else l - TWO64 }

  function SignedNumeral(v: int): string {
    if v < 0 then "-" + Numeral(-v, Ten) else Numeral(v, Ten)
  }

  function ParseSigned(s: string): int {
    if |s| > 0 && s[0] == '-' then 0 - Parse(s[1..], Ten) else Parse(s, Ten)
  }

  datatype Want = Nothing | AWord | ALong | AText

  /** The argument the directive at the front of a format consumes. */
  function Wants(f: string): Want {
    if |f| < 2 || f[0] != '%' then Nothing
    else if f[1] == 's' then AText
    else if f[1] in "xdiuc" then AWord
    else if f[1] == 'l' && |f| > 2 && f[2] in "xdiu" then ALong
    else Nothing
  }

  predicate Supplies(args: seq<Arg>, want: Want) {
    match want
    case Nothing => true
    case AWord => |args| > 0 && args[0].Word?
    case ALong => |args| > 0 && args[0].Long?
    case AText => |args| > 0 && args[0].Text?
  }

  /** An ordinary character, or a complete directive with an argument of the type it reads; the NUL that
      ends a format is neither. */
  predicate Usable(f: string, args: seq<Arg>) {
    && |f| > 0 && f[0] != '\0'
    && (f[0] == '%' ==> |f| >= 2 && f[1] != '\0' && (f[1] == 'l' ==> |f| >= 3 && f[2] != '\0'))
    && Supplies(args, Wants(f))
  }

  /** Format characters taken by the piece at the front. */
  function Width(f: string): nat
    requires |f| > 0
  {
    if f[0] != '%' then 1 else if |f| >= 2 && f[1] == 'l' then 3 else 2
  }

  function Used(f: string): nat { if Wants(f).Nothing? then 0 else 1 }

  /** What the piece at the front prints. */
  function Piece(f: string, args: seq<Arg>): string
    requires Usable(f, args)
  {
    if f[0] != '%' then [f[0]]
    else if f[1] == 's' then args[0].s
    else if f[1] == 'x' then Numeral(args[0].w, Sixteen)
    else if f[1] == 'd' || f[1] == 'i' then SignedNumeral(Signed32(args[0].w))
    else if f[1] == 'u' then Numeral(args[0].w, Ten)
    else if f[1] == 'c' then [(args[0].w % 256) as char]
    else if f[1] == '%' then "%"
    else if f[1] == 'l' then
      if f[2] == 'x' then Numeral(args[0].l, Sixteen)
      else if f[2] == 'd' || f[2] == 'i' then SignedNumeral(Signed64(args[0].l))
      else if f[2] == 'u' then Numeral(args[0].l, Ten)
      else ['%', 'l', f[2]]
    else ['%', f[1]]
  }

  predicate WellFormed(f: string, args: seq<Arg>)
    decreases |f|
  {
    |f| == 0 || (Usable(f, args) && WellFormed(f[Width(f)..], args[Used(f)..]))
  }

  /** The text a format stands for: its pieces, one after another. */
  function Render(f: string, args: seq<Arg>): string
    requires WellFormed(f, args)
    decreases |f|
  {
    if |f| == 0 then "" else Piece(f, args) + Render(f[Width(f)..], args[Used(f)..])
  }

  // ---- What the fixed buffer lets through ----

  const LIMIT := 255

  /** Is the piece at the front a string argument? */
  predicate IsText(f: string)
    requires |f| > 0 && (f[0] == '%' ==> |f| >= 2)
  {
    f[0] == '%' && f[1] == 's'
  }

  /** A string argument stops at the limit; other pieces are not cut. */
  function Kept(f: string, args: seq<Arg>, len: nat): string
    requires Usable(f, args) && len < LIMIT
  {
    var p := Piece(f, args);
    if IsText(f) && |p| > LIMIT - len then p[..LIMIT - len] else p
  }

  /** What the loop stores from here on, with len characters already there. */
  function Stored(f: string, args: seq<Arg>, len: nat): string
    requires WellFormed(f, args)
    decreases |f|
  {
    if |f| == 0 || len >= LIMIT then ""
    else
      var k := Kept(f, args, len);
      k + Stored(f[Width(f)..], args[Used(f)..], len + |k|)
  }

  /** Within the limit nothing is cut. */
  lemma {:induction false} StoredWhole(f: string, args: seq<Arg>, len: nat)
    requires WellFormed(f, args) && len + |Render(f, args)| <= LIMIT
    ensures Stored(f, args, len) == Render(f, args)
    decreases |f|
  {
    if |f| > 0 {
      if len < LIMIT {
        StoredWhole(f[Width(f)..], args[Used(f)..], len + |Piece(f, args)|);
      }
    }
  }

  // ---- Signed numbers read back ----

  lemma {:induction false} NoMinus(s: string)
    requires IsNumeral(s, Ten)
    ensures s[0] != '-'
  {
    assert IsDigit(s[0], Ten);
  }

  /** Every signed 32- or 64-bit value, the most negative one included, reads back, from at most 20
      characters. */
  lemma SignedRoundTrip(v: int)
    requires -0x8000_0000_0000_0000 <= v < 0x8000_0000_0000_0000
    ensures ParseSigned(SignedNumeral(v)) == v && |SignedNumeral(v)| <= 20
  {
    var m := if v < 0 then -v else v;
    ParseNumeral(m, Ten);
    NumeralCanonical(m, Ten);
    NoMinus(Numeral(m, Ten));
    if v < 0 { assert ("-" + Numeral(m, Ten))[1..] == Numeral(m, Ten); }
    NumeralLength(m, Ten, 19);
    TenToThe19();
  }

  lemma TenToThe19()
    ensures Power(Ten, 19) == 10_000_000_000_000_000_000
  {
    assert Power(Ten, 8) == 100_000_000;
    assert Power(Ten, 16) == 10_000_000_000_000_000;
  }

  /** No decimal conversion needs more than 20 of the 24 scratch digits, and some need 20. */
  lemma ScratchDigits(u: u64)
    ensures |Numeral(u, Ten)| <= 20
    ensures |Numeral(u, Ten)| == 20 <==> u >= 10_000_000_000_000_000_000
  {
    TenToThe19();
    assert Power(Ten, 20) == 10 * Power(Ten, 19);
    NumeralLength(u, Ten, 20);
    NumeralLength(u, Ten, 19);
  }

  // ---- Where the buffer ends ----

  /** Memory that holds the buffer and everything an overrun can reach. */
  const REACH := 275

  /** Apart from string arguments no piece has more than 20 characters. */
  lemma PieceBound(f: string, args: seq<Arg>)
    requires Usable(f, args)
    ensures !IsText(f) ==> |Piece(f, args)| <= 20
  {
    if f[0] == '%' {
      if Wants(f).AWord? {
        NumberBound(args[0].w);
        SignedRoundTrip(Signed32(args[0].w));
      } else if Wants(f).ALong? {
        NumberBound(args[0].l);
        SignedRoundTrip(Signed64(args[0].l));
      }
    }
  }

  lemma NumberBound(u: u64)
    ensures |Numeral(u, Ten)| <= 20 && |Numeral(u, Sixteen)| <= 20
  {
    ScratchDigits(u);
    HexRanges();
    NumeralLength(u, Sixteen, 16);
  }

  lemma HexRanges()
    ensures Power(Sixteen, 8) == TWO32 && Power(Sixteen, 16) == TWO64
  {
    assert Power(Sixteen, 4) == 0x1_0000;
    assert Power(Sixteen, 12) == 0x1_0000_0000_0000;
  }

  /** With at characters before it, the first piece that takes the text past 255 characters starts below 255
      and is not a string argument. */
  predicate Crosses(f: string, args: seq<Arg>, at: nat)
    requires WellFormed(f, args)
    decreases |f|
  {
    |f| > 0 && at < LIMIT &&
    var end := at + |Piece(f, args)|;
    if end > LIMIT then !IsText(f) else Crosses(f[Width(f)..], args[Used(f)..], end)
  }

  lemma StoredStep(f: string, args: seq<Arg>, at: nat)
    requires WellFormed(f, args) && |f| > 0 && at < LIMIT
    ensures var k := Kept(f, args, at);
            Stored(f, args, at) == k + Stored(f[Width(f)..], args[Used(f)..], at + |k|)
  {
  }

  /** A piece that goes beyond the limit is the last; a string argument is cut there. */
  lemma LastPiece(f: string, args: seq<Arg>, at: nat)
    requires WellFormed(f, args) && |f| > 0 && at < LIMIT && at + |Piece(f, args)| > LIMIT
    ensures Stored(f, args, at) == Kept(f, args, at)
    ensures at + |Kept(f, args, at)| > LIMIT <==> !IsText(f)
  {
  }

  /** uart_printf writes past its buffer exactly for such formats. */
  lemma {:induction false} OverrunExact(f: string, args: seq<Arg>, at: nat)
    requires WellFormed(f, args) && at <= LIMIT
    ensures at + |Stored(f, args, at)| > LIMIT <==> Crosses(f, args, at)
    decreases |f|
  {
    if |f| > 0 && at < LIMIT {
      StoredStep(f, args, at);
      if at + |Piece(f, args)| > LIMIT {
        LastPiece(f, args, at);
      } else {
        OverrunExact(f[Width(f)..], args[Used(f)..], at + |Piece(f, args)|);
      }
    }
  }

  /** And then by at most 19 characters and the NUL: the piece starts at 254 at the latest. */
  lemma {:induction false} OverrunBound(f: string, args: seq<Arg>, at: nat)
    requires WellFormed(f, args) && at <= LIMIT
    ensures at + |Stored(f, args, at)| < REACH
    decreases |f|
  {
    if |f| > 0 && at < LIMIT {
      var k := Kept(f, args, at);
      PieceBound(f, args);
      if at + |k| <= LIMIT { OverrunBound(f[Width(f)..], args[Used(f)..], at + |k|); }
    }
  }

  lemma StoredFits(f: string, args: seq<Arg>, n: nat)
    requires WellFormed(f, args) && n > LIMIT && (Crosses(f, args, 0) ==> n >= REACH)
    ensures |Stored(f, args, 0)| < n && (|Stored(f, args, 0)| > LIMIT <==> Crosses(f, args, 0))
  {
    OverrunExact(f, args, 0);
    OverrunBound(f, args, 0);
  }

  /** Every other format is stored up to the limit: what is cut off is the end of the text. */
  lemma {:induction false} StoredCut(f: string, args: seq<Arg>, at: nat)
    requires WellFormed(f, args) && at <= LIMIT && !Crosses(f, args, at)
    ensures Stored(f, args, at) == Render(f, args)[..Min(|Render(f, args)|, LIMIT - at)]
    decreases |f|
  {
    if |f| > 0 && at < LIMIT {
      var p, f', args' := Piece(f, args), f[Width(f)..], args[Used(f)..];
      CutAfter(p, Render(f', args'), LIMIT - at);
      StoredStep(f, args, at);
      if at + |p| <= LIMIT {
        StoredCut(f', args', at + |p|);
      } else {
        LastPiece(f, args, at);
      }
    }
  }

  /** The first n characters of p + r. */
  lemma CutAfter(p: string, r: string, n: nat)
    ensures (p + r)[..Min(|p + r|, n)] == if |p| <= n then p + r[..Min(|r|, n - |p|)] else p[..n]
  {
  }

  /** The whole text is stored without running past the buffer exactly when it has at most 255 characters. */
  lemma StoredExact(f: string, args: seq<Arg>)
    requires WellFormed(f, args)
    ensures !Crosses(f, args, 0) && Stored(f, args, 0) == Render(f, args) <==> |Render(f, args)| <= LIMIT
  {
    OverrunExact(f, args, 0);
    if |Render(f, args)| <= LIMIT { StoredWhole(f, args, 0); }
  }

  /** The bound is met: 254 characters and the longest number. */
  lemma LongPieceOverruns(pad: CString, u: u64)
    requires |pad| == 254 && '%' !in pad
    ensures var f, args := pad + "%lu", [Long(u)];
            && WellFormed(f, args) && |Stored(f, args, 0)| == 254 + |Numeral(u, Ten)|
            && (Crosses(f, args, 0) <==> u >= 10)
            && (u == TWO64 - 1 ==> |Stored(f, args, 0)| == REACH - 1)
  {
    PadThenNumber(pad, 0, u);
    OverrunExact(pad + "%lu", [Long(u)], 0);
    ScratchDigits(u);
    NumeralLength(u, Ten, 1);
    assert Power(Ten, 1) == Times(Power(Ten, 0), Ten);
  }

  lemma {:induction false} PadThenNumber(pad: CString, at: nat, u: u64)
    requires |pad| + at == 254 && '%' !in pad
    ensures WellFormed(pad + "%lu", [Long(u)])
    ensures |Stored(pad + "%lu", [Long(u)], at)| == |pad| + |Numeral(u, Ten)|
    decreases |pad|
  {
    var f := pad + "%lu";
    if |pad| == 0 {
      assert f == "%lu" && f[3..] == "";
    } else {
      assert f[0] == pad[0] && f[1..] == pad[1..] + "%lu";
      assert pad[0] in pad;
      PadThenNumber(pad[1..], at + 1, u);
    }
  }

  // ---- The conversions ----

  function Reversed(s: string): string {
    if |s| == 0 then "" else [s[|s| - 1]] + Reversed(s[..|s| - 1])
  }

  lemma {:induction false} ReversedCons(c: char, s: string)
    ensures Reversed([c] + s) == Reversed(s) + [c]
  {
    if |s| == 0 {
      assert [c] + s == [c] && [c][..0] == "";
    } else {
      assert ([c] + s)[..|s|] == [c] + s[..|s| - 1];
      ReversedCons(c, s[..|s| - 1]);
    }
  }

  lemma ReversedPush(s: string, c: char)
    ensures Reversed(s + [c]) == [c] + Reversed(s)
  {
    assert (s + [c])[..|s|] == s;
  }

  lemma {:induction false} ReversedLength(s: string)
    ensures |Reversed(s)| == |s|
  {
    if |s| > 0 { ReversedLength(s[..|s| - 1]); }
  }

  function Ahead(v: nat): string { if v == 0 then "" else Numeral(v, Ten) }

  lemma NextDigit(u: nat, v: nat, done: string)
    requires v > 0 && Ahead(v) + Reversed(done) == Numeral(u, Ten)
    ensures |done| < |Numeral(u, Ten)|
    ensures Ahead(v / 10) + Reversed(done + [DigitFor(v % 10)]) == Numeral(u, Ten)
  {
    ReversedLength(done);
    ReversedPush(done, DigitFor(v % 10));
    LastDigit(v);
    Regroup(Ahead(v / 10), [DigitFor(v % 10)], Reversed(done));
  }

  lemma LastDigit(v: nat)
    requires v > 0
    ensures Ahead(v) == Ahead(v / 10) + [DigitFor(v % 10)]
  {
  }

  /** '0' + d, the digit the code computes. */
  function Decimal(d: nat): (c: char)
    requires d < 10
    ensures c == DigitFor(d)
  {
    '0' + d as char
  }

  lemma ReversedZero()
    ensures Reversed("0") == Numeral(0, Ten)
  {
    ReversedPush("", '0');
    assert "" + ['0'] == "0";
  }

  /** Digits from the right into tmp. */
  method Digits(u: u64, tmp: array<char>) returns (tlen: nat)
    requires tmp.Length == 24
    modifies tmp
    ensures tlen <= 20 && Reversed(tmp[..tlen]) == Numeral(u, Ten)
  {
    tlen := 0;
    if u == 0 {
      tmp[0] := '0';
      tlen := 1;
      ReversedZero();
      assert tmp[..1] == "0";
    }
    var v: nat := u;
    ScratchDigits(u);
    while v > 0
      invariant tlen <= 20
      invariant Ahead(v) + Reversed(tmp[..tlen]) == Numeral(u, Ten)
    {
      NextDigit(u, v, tmp[..tlen]);
      tlen := Push(tmp, tlen, Decimal(v % 10));
      v := v / 10;
    }
  }

  /** tmp[tlen++] = c */
  method Push(tmp: array<char>, tlen: nat, c: char) returns (end: nat)
    requires tlen < tmp.Length
    modifies tmp
    ensures end == tlen + 1 && tmp[..end] == old(tmp[..tlen]) + [c]
  {
    tmp[tlen] := c;
    end := tlen + 1;
  }

  /** Copies tmp backwards to the end of the text. */
  method CopyBack(tmp: array<char>, tlen: nat, buf: array<char>, len: nat) returns (end: nat)
    requires tlen <= tmp.Length && len + tlen <= buf.Length && tmp != buf
    modifies buf
    ensures end == len + tlen && buf[..end] == old(buf[..len]) + Reversed(tmp[..tlen])
  {
    end := len;
    var i := tlen;
    ghost var digits := tmp[..tlen];
    assert digits[i..] == "";
    while i > 0
      invariant 0 <= i <= tlen && end + i == len + tlen && tmp[..tlen] == digits
      invariant buf[..end] == old(buf[..len]) + Reversed(digits[i..])
    {
      i := i - 1;
      assert digits[i..] == [digits[i]] + digits[i + 1..];
      ReversedCons(digits[i], digits[i + 1..]);
      end := Push(buf, end, tmp[i]);
    }
    assert digits[0..] == digits;
  }

  /** %u and %lu. */
  method PutUnsigned(u: u64, buf: array<char>, len: nat) returns (end: nat)
    requires len + |Numeral(u, Ten)| <= buf.Length
    modifies buf
    ensures end == len + |Numeral(u, Ten)| && buf[..end] == old(buf[..len]) + Numeral(u, Ten)
  {
    var tmp := new char[24];
    var tlen := Digits(u, tmp);
    ReversedLength(tmp[..tlen]);
    end := CopyBack(tmp, tlen, buf, len);
  }

  /** Negation modulo 2^64 gives the magnitude, for the most negative value too. */
  lemma Negated(v: int)
    requires -0x8000_0000_0000_0000 <= v < 0
    ensures (TWO64 - (v + TWO64)) % TWO64 == -v && SignedNumeral(v) == ['-'] + Numeral(-v, Ten)
  {
  }

  /** The sign, then the value negated as an unsigned 64-bit word. */
  method PutNegative(v: int, buf: array<char>, len: nat) returns (end: nat)
    requires -0x8000_0000_0000_0000 <= v < 0 && len + |SignedNumeral(v)| <= buf.Length
    modifies buf
    ensures end == len + |SignedNumeral(v)| && buf[..end] == old(buf[..len]) + SignedNumeral(v)
  {
    Negated(v);
    var word: u64 := v + TWO64;
    var u: u64 := (TWO64 - word) % TWO64;
    ghost var before := buf[..len];
    end := Push(buf, len, '-');
    end := PutUnsigned(u, buf, end);
    Regroup(before, ['-'], Numeral(u, Ten));
  }

  /** %d and %ld. */
  method PutSigned(v: int, buf: array<char>, len: nat) returns (end: nat)
    requires -0x8000_0000_0000_0000 <= v < 0x8000_0000_0000_0000
    requires len + |SignedNumeral(v)| <= buf.Length
    modifies buf
    ensures end == len + |SignedNumeral(v)| && buf[..end] == old(buf[..len]) + SignedNumeral(v)
  {
    if v < 0 {
      end := PutNegative(v, buf, len);
    } else {
      end := PutUnsigned(v, buf, len);
    }
  }

  /** The top of v: everything from nibble k on. */
  function Top(v: nat, k: nat): nat
    decreases k, v
  {
    if k == 0 then v else Top(v, k - 1) / 16
  }

  lemma {:induction false} TopBelow(v: nat, k: nat)
    requires v < Power(Sixteen, k)
    ensures Top(v, k) == 0
    decreases k
  {
    TopIsSmall(v, k, k);
  }

  lemma {:induction false} TopIsSmall(v: nat, k: nat, n: nat)
    requires k <= n && v < Power(Sixteen, n)
    ensures Top(v, k) < Power(Sixteen, n - k)
    decreases k
  {
    if k > 0 {
      TopIsSmall(v, k - 1, n);
      assert Power(Sixteen, n - (k - 1)) == 16 * Power(Sixteen, n - k);
    }
  }

  function HexSoFar(v: nat, k: nat): string { if Top(v, k) == 0 then "" else Numeral(Top(v, k), Sixteen) }

  /** %x and %lx: nibbles from the top, leading zeros skipped but for the last. */
  method PutHex(v: u64, nibbles: nat, buf: array<char>, len: nat) returns (end: nat)
    requires nibbles > 0 && v < Power(Sixteen, nibbles)
    requires len + |Numeral(v, Sixteen)| <= buf.Length
    modifies buf
    ensures end == len + |Numeral(v, Sixteen)| && buf[..end] == old(buf[..len]) + Numeral(v, Sixteen)
  {
    end := len;
    var started := false;
    var k: nat := nibbles;      // the source's shift is 4 * (k - 1)
    TopBelow(v, k);
    while k > 0
      invariant k <= nibbles && end <= buf.Length
      invariant k > 0 ==> (started <==> Top(v, k) != 0) && buf[..end] == old(buf[..len]) + HexSoFar(v, k)
      invariant k == 0 ==> started && buf[..end] == old(buf[..len]) + Numeral(v, Sixteen)
      invariant end == len + if k > 0 then |HexSoFar(v, k)| else |Numeral(v, Sixteen)|
    {
      k := k - 1;
      var nibble := Top(v, k) % 16;
      HexGrows(v, k);
      if nibble != 0 || started || k == 0 {
        HexFits(v, k);
        end := Push(buf, end, DigitFor(nibble));
        started := true;
      }
    }
  }

  lemma HexGrows(v: nat, k: nat)
    ensures var d := Top(v, k) % 16;
            && (Top(v, k) == 0 <==> Top(v, k + 1) == 0 && d == 0)
            && (Top(v, k) != 0 ==> Numeral(Top(v, k), Sixteen) == HexSoFar(v, k + 1) + [DigitFor(d)])
            && (Top(v, k) == 0 ==> Numeral(Top(v, k), Sixteen) == [DigitFor(d)] && HexSoFar(v, k + 1) == "")
  {
  }

  lemma {:induction false} HexFits(v: nat, k: nat)
    ensures |Numeral(Top(v, k), Sixteen)| <= |Numeral(v, Sixteen)|
    decreases k
  {
    if k > 0 {
      HexFits(v, k - 1);
      HexGrows(v, k - 1);
    }
  }

  // ---- The switch ----

  /** %s: copies until the string or the room ends. */
  method PutText(s: string, buf: array<char>, len: nat) returns (end: nat)
    requires len <= LIMIT < buf.Length
    modifies buf
    ensures var k := if |s| > LIMIT - len then s[..LIMIT - len] else s;
            end == len + |k| && buf[..end] == old(buf[..len]) + k
  {
    end := len;
    var i := 0;
    while i < |s| && end < LIMIT
      invariant 0 <= i <= |s| && end == len + i <= LIMIT
      invariant buf[..end] == old(buf[..len]) + s[..i]
    {
      Regroup(old(buf[..len]), s[..i], [s[i]]);
      assert s[..i + 1] == s[..i] + [s[i]];
      end := Push(buf, end, s[i]);
      i := i + 1;
    }
    assert s[..|s|] == s;
  }

  /** The directives after %l. */
  method PutLong(f: string, args: seq<Arg>, buf: array<char>, len: nat) returns (end: nat)
    requires Usable(f, args) && f[0] == '%' && f[1] == 'l'
    requires len + |Piece(f, args)| <= buf.Length
    modifies buf
    ensures end == len + |Piece(f, args)| && buf[..end] == old(buf[..len]) + Piece(f, args)
  {
    if f[2] == 'x' {
      HexRanges();
      end := PutHex(args[0].l, 16, buf, len);
    } else if f[2] == 'd' || f[2] == 'i' {
      end := PutSigned(Signed64(args[0].l), buf, len);
    } else if f[2] == 'u' {
      end := PutUnsigned(args[0].l, buf, len);
    } else {
      end := Push(buf, len, '%');
      end := Push(buf, end, 'l');
      end := Push(buf, end, f[2]);
    }
  }

  /** One piece of the format, in a buffer that has room for it or with the memory behind the buffer. */
  method PutPiece(f: string, args: seq<Arg>, buf: array<char>, len: nat) returns (end: nat)
    requires Usable(f, args) && len < LIMIT < buf.Length
    requires len + |Kept(f, args, len)| <= buf.Length || buf.Length >= REACH
    modifies buf
    ensures end == len + |Kept(f, args, len)| <= buf.Length && buf[..end] == old(buf[..len]) + Kept(f, args, len)
  {
    PieceBound(f, args);
    if f[0] != '%' {
      end := Push(buf, len, f[0]);
    } else if f[1] == 's' {
      end := PutText(args[0].s, buf, len);
    } else if f[1] == 'x' {
      HexRanges();
      end := PutHex(args[0].w, 8, buf, len);
    } else if f[1] == 'l' {
      end := PutLong(f, args, buf, len);
    } else if f[1] == 'd' || f[1] == 'i' {
      end := PutSigned(Signed32(args[0].w), buf, len);
    } else if f[1] == 'u' {
      end := PutUnsigned(args[0].w, buf, len);
    } else if f[1] == 'c' {
      end := Push(buf, len, (args[0].w % 256) as char);
    } else if f[1] == '%' {
      end := Push(buf, len, '%');
    } else {
      end := Push(buf, len, '%');
      end := Push(buf, end, f[1]);
    }
  }

  // ---- What goes out on the line ----

  /** Every line feed is followed by a carriage return. */
  function Expand(s: string): string {
    if |s| == 0 then "" else (if s[0] == '\n' then "\n\r" else [s[0]]) + Expand(s[1..])
  }

  /** Drops the character after every line feed. */
  function Collapse(s: string): string
    decreases |s|
  {
    if |s| == 0 then "" else [s[0]] + Collapse(if s[0] == '\n' && |s| > 1 then s[2..] else s[1..])
  }

  /** The text is recoverable from what was sent. */
  lemma {:induction false} CollapseExpand(s: string)
    ensures Collapse(Expand(s)) == s
  {
    if |s| > 0 {
      var e := Expand(s);
      assert e[if s[0] == '\n' then 2 else 1..] == Expand(s[1..]);
      CollapseExpand(s[1..]);
    }
  }

  lemma {:induction false} ExpandJoin(a: string, b: string)
    ensures Expand(a + b) == Expand(a) + Expand(b)
    decreases |a|
  {
    if |a| == 0 {
      assert a + b == b;
    } else {
      assert (a + b)[1..] == a[1..] + b;
      ExpandJoin(a[1..], b);
    }
  }

  lemma {:induction false} ExpandPlain(line: string)
    requires '\n' !in line
    ensures Expand(line) == line
    decreases |line|
  {
    if |line| > 0 {
      assert line[0] in line;
      ExpandPlain(line[1..]);
    }
  }

  /** Line by line: the line as it is, its line feed, a carriage return, and the other lines. */
  lemma ExpandLine(line: string, rest: string)
    requires '\n' !in line
    ensures Expand(line + "\n" + rest) == line + "\n\r" + Expand(rest)
  {
    ExpandJoin(line + "\n", rest);
    ExpandJoin(line, "\n");
    ExpandPlain(line);
  }

  lemma {:induction false} ExpandPush(s: string, c: char)
    ensures Expand(s + [c]) == Expand(s) + if c == '\n' then "\n\r" else [c]
  {
    if |s| == 0 {
      assert s + [c] == [c] && [c][1..] == "";
    } else {
      assert (s + [c])[1..] == s[1..] + [c];
      ExpandPush(s[1..], c);
    }
  }

  /** A C string in a character array. */
  function UpToNul(s: string): string {
    if |s| == 0 || s[0] == '\0' then "" else [s[0]] + UpToNul(s[1..])
  }

  lemma {:induction false} UpToNulAt(s: string, n: nat)
    requires n < |s| && s[n] == '\0' && '\0' !in s[..n]
    ensures UpToNul(s) == s[..n]
    decreases n
  {
    if n > 0 {
      assert s[..n][0] == s[0] && s[..n][1..] == s[1..][..n - 1];
      UpToNulAt(s[1..], n - 1);
    } else {
      assert s[..0] == "";
    }
  }

  /** Only the part before the first NUL matters. */
  lemma {:induction false} UpToNulPrefix(a: string, b: string)
    ensures UpToNul(a + ['\0'] + b) == UpToNul(a)
    decreases |a|
  {
    if |a| > 0 {
      assert (a + ['\0'] + b)[1..] == a[1..] + ['\0'] + b;
      UpToNulPrefix(a[1..], b);
    }
  }

  lemma {:induction false} NoNul(s: string)
    requires '\0' !in s
    ensures UpToNul(s) == s
  {
    if |s| > 0 { NoNul(s[1..]); }
  }

  lemma NulAhead(s: string, i: nat)
    requires i < |s| && '\0' in s && '\0' !in s[..i] && s[i] != '\0'
    ensures i + 1 < |s|
  {
    assert forall m :: 0 <= m < i ==> s[m] in s[..i];
  }

  class Console {
    var sent: string

    method Putc(c: char)
      modifies this
      ensures sent == old(sent) + Expand([c])
      decreases if c == '\n' then 1 else 0
    {
      assert Expand([c]) == if c == '\n' then "\n\r" else [c];
      sent := sent + [c];
      if c == '\n' {
        assert Expand("\r") == "\r";
        Putc('\r');
      }
    }

    method Puts(s: array<char>)
      requires '\0' in s[..]
      modifies this
      ensures sent == old(sent) + Expand(UpToNul(s[..]))
    {
      var i := 0;
      while s[i] != '\0'
        invariant 0 <= i < s.Length && '\0' !in s[..i]
        invariant sent == old(sent) + Expand(s[..i])
        decreases s.Length - i
      {
        assert s[..][..i] == s[..i];
        NulAhead(s[..], i);
        ExpandPush(s[..i], s[i]);
        assert s[..i + 1] == s[..i] + [s[i]];
        Putc(s[i]);
        i := i + 1;
      }
      assert s[..][..i] == s[..i];
      UpToNulAt(s[..], i);
    }

    /** uart_printf, on a format and arguments it can read and that stay within its buffer. */
    method Printf(fmt: string, args: seq<Arg>)
      requires WellFormed(fmt, args) && !Crosses(fmt, args, 0)
      modifies this
      ensures sent == old(sent) + Expand(UpToNul(Stored(fmt, args, 0)))
    {
      var buf := new char[LIMIT + 1];
      var len := Format(fmt, args, buf);
      ghost var text := Stored(fmt, args, 0);
      assert buf[..] == text + ['\0'] + buf[len + 1..];
      UpToNulPrefix(text, buf[len + 1..]);
      assert buf[len] in buf[..];
      Puts(buf);
    }
  }

  /** One turn of the format loop: text is what the loop stores in all. */
  method NextPiece(f: string, args: seq<Arg>, buf: array<char>, len: nat, ghost text: string) returns (end: nat)
    requires WellFormed(f, args) && |f| > 0 && len < LIMIT < buf.Length && |text| < buf.Length
    requires buf[..len] + Stored(f, args, len) == text
    modifies buf
    ensures end <= |text| && buf[..end] + Stored(f[Width(f)..], args[Used(f)..], end) == text
  {
    ghost var done, k := buf[..len], Kept(f, args, len);
    ghost var next := Stored(f[Width(f)..], args[Used(f)..], len + |k|);
    StoredStep(f, args, len);
    Regroup(done, k, next);
    end := PutPiece(f, args, buf, len);
    assert buf[..end] == done + k;
  }

  /** The format loop and the NUL after it. buf is the 256-byte buffer, or that and the memory behind it;
      the loop writes past the first 256 characters exactly when the format crosses. */
  method Format(fmt: string, args: seq<Arg>, buf: array<char>) returns (len: nat)
    requires WellFormed(fmt, args) && buf.Length > LIMIT && (Crosses(fmt, args, 0) ==> buf.Length >= REACH)
    modifies buf
    ensures len == |Stored(fmt, args, 0)| < buf.Length && buf[..len] == Stored(fmt, args, 0) && buf[len] == '\0'
    ensures len > LIMIT <==> Crosses(fmt, args, 0)
  {
    len := 0;
    var f, rest := fmt, args;
    ghost var text := Stored(fmt, args, 0);
    StoredFits(fmt, args, buf.Length);
    while |f| > 0 && len < LIMIT
      invariant WellFormed(f, rest) && len <= |text|
      invariant buf[..len] + Stored(f, rest, len) == text
      decreases |f|
    {
      len := NextPiece(f, rest, buf, len, text);
      f, rest := f[Width(f)..], rest[Used(f)..];
    }
    buf[len] := '\0';
  }

  /** What goes out for a format that stays within the buffer and whose text has no NUL of its own (%c can
      put one there): the text cut at 255 characters, each line feed followed by a carriage return. */
  lemma PrintedText(fmt: string, args: seq<Arg>)
    requires WellFormed(fmt, args) && !Crosses(fmt, args, 0) && '\0' !in Render(fmt, args)
    ensures var shown := Render(fmt, args)[..Min(|Render(fmt, args)|, LIMIT)];
            Expand(UpToNul(Stored(fmt, args, 0))) == Expand(shown)
            && Collapse(Expand(UpToNul(Stored(fmt, args, 0)))) == shown
  {
    StoredCut(fmt, args, 0);
    var shown := Render(fmt, args)[..Min(|Render(fmt, args)|, LIMIT)];
    assert forall c :: c in shown ==> c in Render(fmt, args);
    NoNul(shown);
    CollapseExpand(shown);
  }

  /** So such a text goes out whole, from within the buffer, exactly when it has at most 255 characters. */
  lemma PrintedExact(fmt: string, args: seq<Arg>)
    requires WellFormed(fmt, args) && '\0' !in Render(fmt, args)
    ensures !Crosses(fmt, args, 0) && Expand(UpToNul(Stored(fmt, args, 0))) == Expand(Render(fmt, args))
            <==> |Render(fmt, args)| <= LIMIT
  {
    StoredExact(fmt, args);
    var text := Render(fmt, args);
    assert text[..|text|] == text;
    if !Crosses(fmt, args, 0) {
      PrintedText(fmt, args);
      CollapseExpand(Render(fmt, args));
    }
  }
}
