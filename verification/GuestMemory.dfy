/** Guest physical memory as the device's DMA accesses see it. */
module GuestMemory {
  import opened Bits

  /** Bytes by address; an address never written reads as zero. */
  type Memory = map<int, u8>

  function Load(m: Memory, a: nat): u8 {
    if a in m then m[a] else 0
  }

  /** The n bytes from address a on. */
  function Fetch(m: Memory, a: nat, n: nat): (s: seq<u8>)
    ensures |s| == n
  {
    seq<u8>(n, i requires 0 <= i < n => Load(m, a + i))
  }

  /** Writes data at address a; every other byte keeps its value. */
  function Store(m: Memory, a: nat, data: seq<u8>): (m': Memory)
    ensures forall k: nat {:trigger Load(m', k)} ::
              Load(m', k) == if a <= k < a + |data| then data[k - a] else Load(m, k)
    decreases |data|
  {
    if |data| == 0 then m else Store(m[a := data[0]], a + 1, data[1..])
  }

  predicate Disjoint(a: nat, n: nat, b: nat, k: nat) {
    a + n <= b || b + k <= a
  }

  lemma FetchStored(m: Memory, a: nat, data: seq<u8>)
    ensures Fetch(Store(m, a, data), a, |data|) == data
  {
  }

  lemma FetchElsewhere(m: Memory, a: nat, data: seq<u8>, b: nat, n: nat)
    requires Disjoint(a, |data|, b, n)
    ensures Fetch(Store(m, a, data), b, n) == Fetch(m, b, n)
  {
  }

  /** Two memories hold the same bytes on a range. */
  ghost predicate SameOn(m: Memory, m': Memory, a: nat, n: nat) {
    forall k: nat {:trigger Load(m', k)} :: a <= k < a + n ==> Load(m', k) == Load(m, k)
  }

  lemma FetchSame(m: Memory, m': Memory, a: nat, n: nat)
    requires SameOn(m, m', a, n)
    ensures Fetch(m', a, n) == Fetch(m, a, n)
  {
  }
}
