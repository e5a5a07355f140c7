/** Fixed-width unsigned integers, bitwise operators on them, and little-endian byte strings. */
module Bits {
  type u8 = x: int | 0 <= x < 0x100
  type u16 = x: int | 0 <= x < 0x1_0000
  type u32 = x: int | 0 <= x < 0x1_0000_0000
  type u64 = x: int | 0 <= x < 0x1_0000_0000_0000_0000

  const TWO32 := 0x1_0000_0000
  const TWO64 := 0x1_0000_0000_0000_0000

  // ---- Division facts the solver does not find by itself ----

  lemma NoMultipleBetween(k: int, d: int)
    requires d > 0
    ensures !(-d < k * d < d && k != 0)
  {
    if k > 0 { assert k * d >= d; }
    if k < 0 { assert k * d <= -d; }
  }

  lemma QuotientIs(n: nat, q: int, r: nat, d: nat)
    requires d > 0 && n == q * d + r && r < d
    ensures n % d == r && n / d == q
  {
    var k := q - n / d;
    assert k * d == n % d - r;
    NoMultipleBetween(k, d);
  }

  // ---- Bits ----

  function Pow2(k: nat): (p: nat)
    ensures p > 0
  {
    if k == 0 then 1 else 2 * Pow2(k - 1)
  }

  /** Bit k of x. */
  predicate Bit(x: nat, k: nat)
    decreases x, k
  {
    if k == 0 then x % 2 == 1 else Bit(x / 2, k - 1)
  }

  function And(a: nat, b: nat): nat {
    if a == 0 then 0 else (a % 2) * (b % 2) + 2 * And(a / 2, b / 2)
  }

  function Or(a: nat, b: nat): nat
    decreases a + b
  {
    if a == 0 && b == 0 then 0
    else (if a % 2 == 1 || b % 2 == 1 then 1 else 0) + 2 * Or(a / 2, b / 2)
  }

  /** a & ~b */
  function AndNot(a: nat, b: nat): nat {
    if a == 0 then 0
    else (if a % 2 == 1 && b % 2 == 0 then 1 else 0) + 2 * AndNot(a / 2, b / 2)
  }

  lemma {:induction false} ZeroHasNoBits(k: nat)
    ensures !Bit(0, k)
    decreases k
  {
    if k > 0 { ZeroHasNoBits(k - 1); }
  }

  lemma HalfOr(a: nat, b: nat)
    ensures Or(a, b) / 2 == Or(a / 2, b / 2) && Or(a, b) % 2 == if a % 2 == 1 || b % 2 == 1 then 1 else 0
  {
  }

  lemma HalfAndNot(a: nat, b: nat)
    ensures AndNot(a, b) / 2 == AndNot(a / 2, b / 2) && AndNot(a, b) % 2 == if a % 2 == 1 && b % 2 == 0 then 1 else 0
  {
  }

  /** The operators mean what their names say, bit by bit. */
  lemma {:induction false} BitOr(a: nat, b: nat, k: nat)
    ensures Bit(Or(a, b), k) <==> Bit(a, k) || Bit(b, k)
    decreases k
  {
    HalfOr(a, b);
    if k > 0 { BitOr(a / 2, b / 2, k - 1); }
  }

  lemma {:induction false} BitAndNot(a: nat, b: nat, k: nat)
    ensures Bit(AndNot(a, b), k) <==> Bit(a, k) && !Bit(b, k)
    decreases k
  {
    HalfAndNot(a, b);
    if k > 0 { BitAndNot(a / 2, b / 2, k - 1); }
  }

  lemma {:induction false} BitAnd(a: nat, b: nat, k: nat)
    ensures Bit(And(a, b), k) <==> Bit(a, k) && Bit(b, k)
    decreases k
  {
    if a == 0 {
      ZeroHasNoBits(k);
    } else if k > 0 {
      BitAnd(a / 2, b / 2, k - 1);
    }
  }

  lemma {:induction false} BitIsDigit(x: nat, k: nat)
    ensures Bit(x, k) <==> x / Pow2(k) % 2 == 1
    decreases k
  {
    if k > 0 {
      BitIsDigit(x / 2, k - 1);
      DivDiv(x, Pow2(k - 1));
    }
  }

  lemma DivDiv(x: nat, p: nat)
    requires p > 0
    ensures x / (2 * p) == x / 2 / p
  {
    var q, r := x / 2 / p, x / 2 % p;
    assert x / 2 == q * p + r;
    assert x == q * (2 * p) + (2 * r + x % 2);
    QuotientIs(x, q, 2 * r + x % 2, 2 * p);
  }

  /** Testing, clearing and setting one bit. */
  lemma {:induction false} SingleBit(x: nat, n: nat)
    ensures And(x, Pow2(n)) == if Bit(x, n) then Pow2(n) else 0
    ensures Bit(x, n) ==> x >= Pow2(n)
    ensures AndNot(x, Pow2(n)) == if Bit(x, n) then x - Pow2(n) else x
    ensures Or(x, Pow2(n)) == if Bit(x, n) then x else x + Pow2(n)
    decreases n
  {
    if n == 0 {
      AndZero(x / 2);
    } else {
      SingleBit(x / 2, n - 1);
      if x == 0 { ZeroHasNoBits(n); }
    }
  }

  /** A power of two has its own bit and no other. */
  lemma {:induction false} BitOfPow2(n: nat, k: nat)
    ensures Bit(Pow2(n), k) <==> k == n
    decreases n
  {
    if n == 0 {
      if k > 0 { ZeroHasNoBits(k - 1); }
    } else if k > 0 {
      BitOfPow2(n - 1, k - 1);
    }
  }

  /** Setting one bit leaves the others alone. */
  lemma BitSet(x: nat, n: nat, k: nat)
    ensures Bit(Or(x, Pow2(n)), k) <==> Bit(x, k) || k == n
  {
    BitOr(x, Pow2(n), k);
    BitOfPow2(n, k);
  }

  /** Clearing one bit leaves the others alone. */
  lemma BitCleared(x: nat, n: nat, k: nat)
    ensures Bit(AndNot(x, Pow2(n)), k) <==> Bit(x, k) && k != n
  {
    BitAndNot(x, Pow2(n), k);
    BitOfPow2(n, k);
  }

  lemma {:induction false} AndZero(x: nat)
    ensures And(x, 0) == 0 && AndNot(x, 0) == x && Or(x, 0) == x
    decreases x
  {
    if x > 0 { AndZero(x / 2); }
  }

  lemma {:induction false} SomeBit(x: nat) returns (k: nat)
    requires x > 0
    ensures Bit(x, k)
    decreases x
  {
    if x % 2 == 1 {
      k := 0;
    } else {
      var j := SomeBit(x / 2);
      k := j + 1;
    }
  }

  /** Nothing is left just when every bit is cleared. */
  lemma AllBitsCleared(a: nat, b: nat)
    ensures AndNot(a, b) == 0 <==> forall k: nat :: Bit(a, k) ==> Bit(b, k)
  {
    if AndNot(a, b) == 0 {
      forall k: nat | Bit(a, k) ensures Bit(b, k) {
        BitAndNot(a, b, k);
        ZeroHasNoBits(k);
      }
    } else {
      var k := SomeBit(AndNot(a, b));
      BitAndNot(a, b, k);
    }
  }

  lemma {:induction false} AndNotBound(a: nat, b: nat)
    ensures AndNot(a, b) <= a
  {
    if a > 0 { AndNotBound(a / 2, b / 2); }
  }

  lemma {:induction false} OrBound(a: nat, b: nat, n: nat)
    requires a < Pow2(n) && b < Pow2(n)
    ensures Or(a, b) < Pow2(n)
    decreases n
  {
    if n > 0 { OrBound(a / 2, b / 2, n - 1); }
  }

  lemma Pow2Values()
    ensures Pow2(30) == 0x4000_0000 && Pow2(31) == 0x8000_0000 && Pow2(32) == TWO32
  {
    assert Pow2(8) == 0x100;
    assert Pow2(16) == 0x1_0000;
    assert Pow2(24) == 0x100_0000;
  }

  function Or32(a: u32, b: u32): u32 {
    Pow2Values(); OrBound(a, b, 32);
    Or(a, b)
  }

  function AndNot32(a: u32, b: u32): u32 {
    AndNotBound(a, b);
    AndNot(a, b)
  }

  // ---- Little-endian encodings ----

  function Pow256(n: nat): (p: nat)
    ensures p > 0
  {
    if n == 0 then 1 else 256 * Pow256(n - 1)
  }

  function Le(x: nat, n: nat): (s: seq<u8>)
    ensures |s| == n
    decreases x, n
  {
    if n == 0 then [] else [x % 256] + Le(x / 256, n - 1)
  }

  /** Byte k is digit k in base 256, the lowest first. */
  lemma {:induction false} LeByte(x: nat, n: nat, k: nat)
    requires k < n
    ensures Le(x, n)[k] == x / Pow256(k) % 256
    decreases k
  {
    if k > 0 {
      LeByte(x / 256, n - 1, k - 1);
      DivDiv256(x, Pow256(k - 1));
    }
  }

  lemma DivDiv256(x: nat, p: nat)
    requires p > 0
    ensures x / (256 * p) == x / 256 / p
  {
    var q, r := x / 256 / p, x / 256 % p;
    assert x / 256 == q * p + r;
    assert x == q * (256 * p) + (256 * r + x % 256);
    QuotientIs(x, q, 256 * r + x % 256, 256 * p);
  }

  function UnLe(s: seq<u8>): nat {
    if |s| == 0 then 0 else s[0] + 256 * UnLe(s[1..])
  }

  lemma {:induction false} UnLeBound(s: seq<u8>)
    ensures UnLe(s) < Pow256(|s|)
  {
    if |s| > 0 { UnLeBound(s[1..]); }
  }

  /** Decoding inverts encoding on every value that fits. */
  lemma {:induction false} LeRoundTrip(x: nat, n: nat)
    requires x < Pow256(n)
    ensures UnLe(Le(x, n)) == x
    decreases n
  {
    if n > 0 {
      LeRoundTrip(x / 256, n - 1);
      assert Le(x, n)[1..] == Le(x / 256, n - 1);
    }
  }

  /** Encoding inverts decoding on every byte string. */
  lemma {:induction false} LeOfUnLe(s: seq<u8>)
    ensures Le(UnLe(s), |s|) == s
  {
    if |s| > 0 {
      LeOfUnLe(s[1..]);
      assert UnLe(s) % 256 == s[0] && UnLe(s) / 256 == UnLe(s[1..]);
      assert s == [s[0]] + s[1..];
    }
  }

  lemma Pow256Values()
    ensures Pow256(4) == TWO32 && Pow256(8) == TWO64
  {
    assert Pow256(2) == 0x1_0000;
    assert Pow256(6) == 0x1_0000_0000_0000;
  }
}
