/** A ring of descriptors laid out in guest memory, and stretches of consecutive slots in it. */
module RingMemory {
  import opened Bits
  import opened GuestMemory
  import opened Protocol
  import opened DmaPath
  import opened Rings

  function SlotAt(mem: Memory, base: nat, i: nat): Desc { DecodeDesc(Fetch(mem, base + i * DESC_BYTES, DESC_BYTES)) }

  function Slots(mem: Memory, base: nat, size: nat): (s: seq<Desc>)
    ensures |s| == size
  {
    seq(size, i requires 0 <= i < size => SlotAt(mem, base, i))
  }

  /** A ring the device can walk: non-empty, inside the address space, tail in range. */
  predicate WellFormed(r: Ring) {
    r.base > 0 && r.tail < r.size && r.base + r.size * DESC_BYTES <= TWO64
  }

  /** The bytes a DMA touches for this descriptor's buffer lie outside the ring. */
  predicate BufferOutside(d: Desc, base: nat, size: nat) {
    Disjoint(d.addr, Min(d.length, DMA_MAX_BUF), base, size * DESC_BYTES)
  }

  /** Memory outside the ring is the same. */
  ghost predicate SameOutside(m: Memory, m': Memory, base: nat, size: nat) {
    forall a: nat {:trigger Load(m', a)} :: !(base <= a < base + size * DESC_BYTES) ==> Load(m', a) == Load(m, a)
  }

  lemma WrapMod(x: nat, size: nat)
    requires 0 < size && x < 2 * size
    ensures x % size == if x < size then x else x - size
  {
    if x >= size { assert x == 1 * size + (x - size); }
  }

  /** The slot j places after t. */
  function After(t: nat, j: nat, size: nat): (i: nat)
    requires t < size && j <= size
    ensures i < size && i == (t + j) % size
  {
    WrapMod(t + j, size);
    if t + j < size then t + j else t + j - size
  }

  lemma SlotStoredAt(mem: Memory, base: nat, i: nat, d: Desc, k: nat)
    ensures var m' := Store(mem, base + i * DESC_BYTES, EncodeDesc(d));
            SlotAt(m', base, k) == if k == i then d else SlotAt(mem, base, k)
  {
    var e := EncodeDesc(d);
    if k == i {
      FetchStored(mem, base + i * DESC_BYTES, e);
      DescRoundTrip(d);
    } else {
      FetchElsewhere(mem, base + i * DESC_BYTES, e, base + k * DESC_BYTES, DESC_BYTES);
    }
  }

  /** A write-back reaches its own slot only. */
  lemma SlotStored(mem: Memory, base: nat, size: nat, i: nat, d: Desc)
    requires i < size
    ensures var m' := Store(mem, base + i * DESC_BYTES, EncodeDesc(d));
            Slots(m', base, size) == Slots(mem, base, size)[i := d] && SameOutside(mem, m', base, size)
  {
    var m' := Store(mem, base + i * DESC_BYTES, EncodeDesc(d));
    forall k | 0 <= k < size
      ensures Slots(m', base, size)[k] == Slots(mem, base, size)[i := d][k]
    {
      SlotStoredAt(mem, base, i, d, k);
    }
    assert i * DESC_BYTES + DESC_BYTES <= size * DESC_BYTES;
  }

  lemma NextTailIs(r: Ring)
    requires WellFormed(r)
    ensures NextTail(r) == (r.tail + 1) % r.size == After(r.tail, 1, r.size)
  {
    assert r.tail + 1 < TWO32;
  }

  lemma TailSlot(p: Port, r: Ring)
    requires WellFormed(r)
    ensures SlotAddr(r) == r.base + r.tail * DESC_BYTES
    ensures !Fails(p) ==> SlotRead(p, r) == SlotAt(p.mem, r.base, r.tail)
  {
    assert r.tail * DESC_BYTES + DESC_BYTES <= r.size * DESC_BYTES;
    ReadIsExact(SlotAddr(r), DESC_BYTES);
  }

  /** Writing a descriptor back to the tail slot. */
  lemma TailWritten(p: Port, r: Ring, d: Desc)
    requires WellFormed(r) && p.faults == []
    ensures var m' := Store(p.mem, SlotAddr(r), EncodeDesc(d));
            && WriteFrom(p, SlotAddr(r), EncodeDesc(d)) == Port(m', [])
            && Slots(m', r.base, r.size) == Slots(p.mem, r.base, r.size)[r.tail := d]
            && SameOutside(p.mem, m', r.base, r.size)
  {
    TailSlot(p, r);
    var e := EncodeDesc(d);
    assert e[..DESC_BYTES] == e;
    SlotStored(p.mem, r.base, r.size, r.tail, d);
  }

  /** Writes elsewhere leave the ring alone. */
  lemma SlotsUntouched(mem: Memory, base: nat, size: nat, a: nat, data: seq<u8>)
    requires Disjoint(a, |data|, base, size * DESC_BYTES)
    ensures Slots(Store(mem, a, data), base, size) == Slots(mem, base, size)
  {
    forall k | 0 <= k < size ensures SlotAt(Store(mem, a, data), base, k) == SlotAt(mem, base, k) {
      assert k * DESC_BYTES + DESC_BYTES <= size * DESC_BYTES;
      FetchElsewhere(mem, a, data, base + k * DESC_BYTES, DESC_BYTES);
    }
  }

  /** What process_tx transmits for a descriptor. */
  function FrameOf(mem: Memory, d: Desc): Frame { Filled(mem, d.addr, Zeros(d.length)) }

  lemma FrameUnaffected(m: Memory, m': Memory, base: nat, size: nat, d: Desc)
    requires SameOutside(m, m', base, size) && BufferOutside(d, base, size)
    ensures FrameOf(m', d) == FrameOf(m, d)
  {
    FetchSame(m, m', d.addr, Min(d.length, DMA_MAX_BUF));
  }

  /** Length of the run of OWN slots from t, looking at no more than limit of them. */
  function OwnRun(s: seq<Desc>, t: nat, limit: nat): (k: nat)
    requires t < |s| && limit <= |s|
    ensures k <= limit
    decreases limit
  {
    if limit == 0 || !Own(s[t]) then 0 else 1 + OwnRun(s, After(t, 1, |s|), limit - 1)
  }

  /** The run is what its name says: OWN all the way, and stopped by a slot without OWN or by the limit. */
  lemma {:induction false} OwnRunExact(s: seq<Desc>, t: nat, limit: nat)
    requires t < |s| && limit <= |s|
    ensures var k := OwnRun(s, t, limit);
            && (forall j :: 0 <= j < k ==> Own(s[After(t, j, |s|)]))
            && (k < limit ==> !Own(s[After(t, k, |s|)]))
    decreases limit
  {
    if limit > 0 && Own(s[t]) {
      var t1 := After(t, 1, |s|);
      OwnRunExact(s, t1, limit - 1);
      var k := OwnRun(s, t, limit);
      forall j | 0 <= j < k ensures Own(s[After(t, j, |s|)]) {
        if j > 0 { AfterStep(t, j - 1, |s|); }
      }
      if k < limit { AfterStep(t, k - 1, |s|); }
    }
  }

  lemma AfterStep(t: nat, j: nat, size: nat)
    requires t < size && j < size
    ensures After(After(t, 1, size), j, size) == After(t, j + 1, size)
  {
  }

  /** Clearing the slot the run has just left does not change the run ahead of it. */
  lemma {:induction false} OwnRunBehind(s: seq<Desc>, t: nat, j: nat, d: Desc)
    requires t < |s| && 0 < j <= |s| && !Own(d)
    ensures OwnRun(s[t := d], After(t, j, |s|), |s| - j + 1) == OwnRun(s, After(t, j, |s|), |s| - j)
    decreases |s| - j
  {
    if j < |s| {
      var i := After(t, j, |s|);
      assert i != t;
      if Own(s[i]) {
        AfterStep(i, 0, |s|);
        assert After(i, 1, |s|) == After(t, j + 1, |s|);
        OwnRunBehind(s, t, j + 1, d);
      }
    }
  }

  // ---- Counting descriptors round the ring ----

  /** The slot of the n-th descriptor ever posted. */
  function SlotOf(n: nat, size: nat): (i: nat)
    requires size > 0
    ensures i < size
  {
    n % size
  }

  lemma SlotsDiffer(a: nat, b: nat, size: nat)
    requires size > 0 && a < b < a + size
    ensures SlotOf(a, size) != SlotOf(b, size)
  {
    var k := b / size - a / size;
    assert b - a == k * size + b % size - a % size;
    NoMultipleBetween(k, size);
  }

  lemma NextSlot(n: nat, size: nat)
    requires size > 0
    ensures SlotOf(n + 1, size) == if SlotOf(n, size) + 1 == size then 0 else SlotOf(n, size) + 1
    ensures SlotOf(n + size, size) == SlotOf(n, size)
  {
    var q, i := n / size, n % size;
    assert n == q * size + i;
    assert (q + 1) * size == q * size + size;
    QuotientIs(n + size, q + 1, i, size);
    if i + 1 == size { QuotientIs(n + 1, q + 1, 0, size); } else { QuotientIs(n + 1, q, i + 1, size); }
  }

  // ---- The driver's partial stores ----

  function Patched(b: seq<u8>, off: nat, data: seq<u8>): seq<u8>
    requires off + |data| <= |b|
  {
    b[..off] + data + b[off + |data|..]
  }

  lemma SlotPatchedAt(mem: Memory, base: nat, i: nat, off: nat, data: seq<u8>, k: nat)
    requires off + |data| <= DESC_BYTES
    ensures var m' := Store(mem, base + i * DESC_BYTES + off, data);
            SlotAt(m', base, k)
            == if k == i then DecodeDesc(Patched(Fetch(mem, base + i * DESC_BYTES, DESC_BYTES), off, data))
               else SlotAt(mem, base, k)
  {
    var a := base + i * DESC_BYTES;
    if k == i {
      assert Fetch(Store(mem, a + off, data), a, DESC_BYTES) == Patched(Fetch(mem, a, DESC_BYTES), off, data);
    } else {
      FetchElsewhere(mem, a + off, data, base + k * DESC_BYTES, DESC_BYTES);
    }
  }

  /** A store inside one descriptor changes that descriptor only. */
  lemma SlotPatched(mem: Memory, base: nat, size: nat, i: nat, off: nat, data: seq<u8>)
    requires i < size && off + |data| <= DESC_BYTES
    ensures var m' := Store(mem, base + i * DESC_BYTES + off, data);
            && Slots(m', base, size)
               == Slots(mem, base, size)
                  [i := DecodeDesc(Patched(Fetch(mem, base + i * DESC_BYTES, DESC_BYTES), off, data))]
            && SameOutside(mem, m', base, size)
  {
    var m' := Store(mem, base + i * DESC_BYTES + off, data);
    var d := DecodeDesc(Patched(Fetch(mem, base + i * DESC_BYTES, DESC_BYTES), off, data));
    forall k | 0 <= k < size
      ensures Slots(m', base, size)[k] == Slots(mem, base, size)[i := d][k]
    {
      SlotPatchedAt(mem, base, i, off, data, k);
    }
    assert i * DESC_BYTES + DESC_BYTES <= size * DESC_BYTES;
  }

  lemma PatchedAddr(b: seq<u8>, addr: u64)
    requires |b| == DESC_BYTES
    ensures DecodeDesc(Patched(b, 0, Le(addr, 8))) == DecodeDesc(b).(addr := addr)
  {
    Pow256Values();
    LeRoundTrip(addr, 8);
    var p := Patched(b, 0, Le(addr, 8));
    assert p[..8] == Le(addr, 8) && p[8..12] == b[8..12] && p[12..] == b[12..];
  }

  lemma PatchedLength(b: seq<u8>, length: u32)
    requires |b| == DESC_BYTES
    ensures DecodeDesc(Patched(b, 8, Le(length, 4))) == DecodeDesc(b).(length := length)
  {
    Pow256Values();
    LeRoundTrip(length, 4);
    var p := Patched(b, 8, Le(length, 4));
    assert p[..8] == b[..8] && p[8..12] == Le(length, 4) && p[12..] == b[12..];
  }

  lemma PatchedFlags(b: seq<u8>, flags: u32)
    requires |b| == DESC_BYTES
    ensures DecodeDesc(Patched(b, 12, Le(flags, 4))) == DecodeDesc(b).(flags := flags)
  {
    Pow256Values();
    LeRoundTrip(flags, 4);
    var p := Patched(b, 12, Le(flags, 4));
    assert p[..8] == b[..8] && p[8..12] == b[8..12] && p[12..] == Le(flags, 4);
  }

  /** The driver's store of a descriptor's addr field changes that field of that descriptor only. */
  lemma StoredAddr(mem: Memory, base: nat, size: nat, i: nat, addr: u64)
    requires i < size
    ensures var m' := Store(mem, base + i * DESC_BYTES + 0, Le(addr, 8));
            var s := Slots(mem, base, size);
            Slots(m', base, size) == s[i := s[i].(addr := addr)] && SameOutside(mem, m', base, size)
  {
    SlotPatched(mem, base, size, i, 0, Le(addr, 8));
    PatchedAddr(Fetch(mem, base + i * DESC_BYTES, DESC_BYTES), addr);
  }

  /** The driver's store of a descriptor's length field changes that field of that descriptor only. */
  lemma StoredLength(mem: Memory, base: nat, size: nat, i: nat, length: u32)
    requires i < size
    ensures var m' := Store(mem, base + i * DESC_BYTES + 8, Le(length, 4));
            var s := Slots(mem, base, size);
            Slots(m', base, size) == s[i := s[i].(length := length)] && SameOutside(mem, m', base, size)
  {
    SlotPatched(mem, base, size, i, 8, Le(length, 4));
    PatchedLength(Fetch(mem, base + i * DESC_BYTES, DESC_BYTES), length);
  }

  /** The driver's store of a descriptor's flags field changes that field of that descriptor only. */
  lemma StoredFlags(mem: Memory, base: nat, size: nat, i: nat, flags: u32)
    requires i < size
    ensures var m' := Store(mem, base + i * DESC_BYTES + 12, Le(flags, 4));
            var s := Slots(mem, base, size);
            Slots(m', base, size) == s[i := s[i].(flags := flags)] && SameOutside(mem, m', base, size)
  {
    SlotPatched(mem, base, size, i, 12, Le(flags, 4));
    PatchedFlags(Fetch(mem, base + i * DESC_BYTES, DESC_BYTES), flags);
  }
}
