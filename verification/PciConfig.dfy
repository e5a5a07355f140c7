/** firmware/rtos/pci_test.c: configuration space through the ECAM window (section 7.2.2 of the PCI Express
    Base Specification) and the device scan, over a configuration space that behaves as memory. */
module PciConfig {
  import opened Bits

  // ---- Shifts ----

  function Shift(x: nat, k: nat): nat
    decreases k, x
  {
    if k == 0 then x else 2 * Shift(x, k - 1)
  }

  /** x >> k */
  function High(x: nat, k: nat): nat
    decreases k, x
  {
    if k == 0 then x else High(x / 2, k - 1)
  }

  /** The k lowest bits of x. */
  function Low(x: nat, k: nat): nat
    decreases k, x
  {
    if k == 0 then 0 else x % 2 + 2 * Low(x / 2, k - 1)
  }

  /** k bits set. */
  function Ones(k: nat): nat { if k == 0 then 0 else 1 + 2 * Ones(k - 1) }

  lemma {:induction false} SplitAt(x: nat, k: nat)
    ensures x == Shift(High(x, k), k) + Low(x, k)
    decreases k
  {
    if k > 0 { SplitAt(x / 2, k - 1); }
  }

  lemma {:induction false} HighLowOf(h: nat, l: nat, k: nat)
    requires l < Pow2(k)
    ensures High(Shift(h, k) + l, k) == h && Low(Shift(h, k) + l, k) == l
    decreases k
  {
    if k > 0 {
      assert (Shift(h, k) + l) / 2 == Shift(h, k - 1) + l / 2;
      HighLowOf(h, l / 2, k - 1);
    }
  }

  lemma {:induction false} LowBound(x: nat, k: nat)
    ensures Low(x, k) < Pow2(k)
    decreases k
  {
    if k > 0 { LowBound(x / 2, k - 1); }
  }

  lemma {:induction false} SmallIsLow(x: nat, k: nat)
    requires x < Pow2(k)
    ensures Low(x, k) == x && High(x, k) == 0
    decreases k
  {
    if k > 0 { SmallIsLow(x / 2, k - 1); }
  }

  /** Or and and-not work on the two halves of a word separately. */
  lemma {:induction false} SplitOr(a: nat, b: nat, k: nat)
    ensures High(Or(a, b), k) == Or(High(a, k), High(b, k)) && Low(Or(a, b), k) == Or(Low(a, k), Low(b, k))
    decreases k
  {
    if k == 0 {
      AndZero(0);
    } else {
      HalfOr(a, b);
      SplitOr(a / 2, b / 2, k - 1);
      LowOr(a, b, k);
    }
  }

  /** One step of Or on the low bits. */
  lemma LowOr(a: nat, b: nat, k: nat)
    requires k > 0
    ensures Or(Low(a, k), Low(b, k))
            == (if a % 2 == 1 || b % 2 == 1 then 1 else 0) + 2 * Or(Low(a / 2, k - 1), Low(b / 2, k - 1))
  {
    HalfOr(Low(a, k), Low(b, k));
    assert Low(a, k) / 2 == Low(a / 2, k - 1) && Low(b, k) / 2 == Low(b / 2, k - 1);
  }

  lemma {:induction false} SplitAndNot(a: nat, b: nat, k: nat)
    ensures High(AndNot(a, b), k) == AndNot(High(a, k), High(b, k))
    ensures Low(AndNot(a, b), k) == AndNot(Low(a, k), Low(b, k))
    decreases k
  {
    if k > 0 {
      HalfAndNot(a, b);
      SplitAndNot(a / 2, b / 2, k - 1);
      LowAndNot(a, b, k);
    }
  }

  /** One step of and-not on the low bits. */
  lemma LowAndNot(a: nat, b: nat, k: nat)
    requires k > 0
    ensures AndNot(Low(a, k), Low(b, k))
            == (if a % 2 == 1 && b % 2 == 0 then 1 else 0) + 2 * AndNot(Low(a / 2, k - 1), Low(b / 2, k - 1))
  {
    HalfAndNot(Low(a, k), Low(b, k));
    assert Low(a, k) / 2 == Low(a / 2, k - 1) && Low(b, k) / 2 == Low(b / 2, k - 1);
  }

  lemma {:induction false} AllMasked(x: nat, k: nat)
    requires x < Pow2(k)
    ensures AndNot(x, Ones(k)) == 0
    decreases k
  {
    if k > 0 { AllMasked(x / 2, k - 1); }
  }

  lemma {:induction false} OrOfZero(x: nat)
    ensures Or(0, x) == x
  {
    if x > 0 { OrOfZero(x / 2); }
  }

  /** Fields that do not overlap can be combined with |. */
  lemma {:induction false} OrDisjoint(x: nat, y: nat, k: nat)
    requires y < Pow2(k)
    ensures Or(Shift(x, k), y) == Shift(x, k) + y
    decreases k
  {
    if k == 0 {
      AndZero(x);
    } else {
      OrDisjoint(x, y / 2, k - 1);
    }
  }

  // ---- Addresses ----

  datatype Fn = Fn(bus: nat, dev: nat, func: nat)

  predicate InRange(f: Fn, offset: nat) { f.bus < 256 && f.dev < 32 && f.func < 8 && offset < 4096 }

  function Aligned(offset: nat): nat { offset - offset % 4 }

  function EcamAddr(f: Fn, offset: nat): nat {
    Or(Or(Or(Shift(f.bus, 20), Shift(f.dev, 15)), Shift(f.func, 12)), Aligned(offset))
  }

  /** The index into the word array. */
  function Index(f: Fn, offset: nat): nat { EcamAddr(f, offset) / 4 }

  lemma {:induction false} ShiftTimes(x: nat, k: nat)
    ensures Shift(x, k) == x * Pow2(k)
    decreases k
  {
    if k > 0 {
      ShiftTimes(x, k - 1);
      assert 2 * (x * Pow2(k - 1)) == x * (2 * Pow2(k - 1));
    }
  }

  lemma PowersOfTwo()
    ensures Pow2(8) == 0x100 && Pow2(12) == 0x1000 && Pow2(15) == 0x8000
    ensures Pow2(16) == 0x1_0000 && Pow2(20) == 0x10_0000
  {
  }

  lemma BusAndDev(bus: nat, dev: nat)
    requires dev < 32
    ensures Or(Shift(bus, 20), Shift(dev, 15)) == Shift(bus * 32 + dev, 15)
  {
    PowersOfTwo();
    ShiftTimes(bus, 20); ShiftTimes(dev, 15); ShiftTimes(bus * 32 + dev, 15);
    OrDisjoint(bus, dev * 0x8000, 20);
  }

  lemma SlotAndFunc(slot: nat, func: nat)
    requires func < 8
    ensures Or(Shift(slot, 15), Shift(func, 12)) == Shift(slot * 8 + func, 12)
  {
    PowersOfTwo();
    ShiftTimes(slot, 15); ShiftTimes(func, 12); ShiftTimes(slot * 8 + func, 12);
    OrDisjoint(slot, func * 0x1000, 15);
  }

  lemma PageAndOffset(page: nat, offset: nat)
    requires offset < 4096
    ensures Or(Shift(page, 12), Aligned(offset)) == page * 0x1000 + Aligned(offset)
  {
    PowersOfTwo();
    ShiftTimes(page, 12);
    OrDisjoint(page, Aligned(offset), 12);
  }

  lemma IndexIs(f: Fn, offset: nat)
    requires InRange(f, offset)
    ensures Index(f, offset) == f.bus * 0x4_0000 + f.dev * 0x2000 + f.func * 0x400 + offset / 4
  {
    BusAndDev(f.bus, f.dev);
    SlotAndFunc(f.bus * 32 + f.dev, f.func);
    PageAndOffset((f.bus * 32 + f.dev) * 8 + f.func, offset);
  }

  /** Different functions and dwords have different addresses. */
  lemma EcamInjective(f: Fn, offset: nat, f': Fn, offset': nat)
    requires InRange(f, offset) && InRange(f', offset')
    ensures Index(f, offset) == Index(f', offset') <==> f == f' && offset / 4 == offset' / 4
  {
    IndexIs(f, offset);
    IndexIs(f', offset');
  }

  // ---- Accesses ----

  /** Configuration space by word index. */
  type Space = map<int, u32>

  function At(s: Space, i: int): u32 { if i in s then s[i] else 0 }

  function Read32(s: Space, f: Fn, offset: nat): u32 { At(s, Index(f, offset)) }

  function Read16(s: Space, f: Fn, offset: nat): u16 {
    var val := Read32(s, f, Aligned(offset));
    SplitAt(val, 16); ShiftTimes(High(val, 16), 16); LowBound(val, 16); PowersOfTwo();
    if Bit(offset, 1) then High(val, 16) else Low(val, 16)
  }

  function Read8(s: Space, f: Fn, offset: nat): u8 {
    var val := Read32(s, f, Aligned(offset));
    LowBound(High(val, offset % 4 * 8), 8); PowersOfTwo();
    Low(High(val, offset % 4 * 8), 8)
  }

  function Write32(s: Space, f: Fn, offset: nat, val: u32): Space { s[Index(f, offset) := val] }

  /** (old & ~(0xFFFF << shift)) | (val << shift) */
  function Merged(word: u32, shift: nat, val: u16): nat {
    Or(AndNot(word, Shift(Ones(16), shift)), Shift(val, shift))
  }

  lemma OnesSmall()
    ensures Low(Ones(16), 16) == Ones(16) == 0xFFFF && High(Ones(16), 16) == 0
  {
    PowersOfTwo();
    assert Ones(8) == 0xFF;
    assert Ones(16) == 0xFFFF;
    SmallIsLow(Ones(16), 16);
  }

  lemma HighBound(x: u32)
    ensures High(x, 16) < 0x1_0000
  {
    SplitAt(x, 16); ShiftTimes(High(x, 16), 16); PowersOfTwo();
  }

  lemma MergedLow(word: u32, val: u16)
    ensures High(Merged(word, 0, val), 16) == High(word, 16) && Low(Merged(word, 0, val), 16) == val
  {
    PowersOfTwo(); OnesSmall(); LowBound(word, 16); SmallIsLow(val, 16);
    SplitOr(AndNot(word, Ones(16)), val, 16);
    SplitAndNot(word, Ones(16), 16);
    AllMasked(Low(word, 16), 16);
    AndZero(High(word, 16));
    OrOfZero(val);
  }

  /** A value moved up by 16 bits has it in the upper half and nothing in the lower. */
  lemma MovedUp(x: nat)
    ensures High(Shift(x, 16), 16) == x && Low(Shift(x, 16), 16) == 0
  {
    HighLowOf(x, 0, 16);
  }

  lemma MergedHigh(word: u32, val: u16)
    ensures High(Merged(word, 16, val), 16) == val && Low(Merged(word, 16, val), 16) == Low(word, 16)
  {
    var mask, up := Shift(Ones(16), 16), Shift(val, 16);
    MovedUp(Ones(16));
    MovedUp(val);
    SplitOr(AndNot(word, mask), up, 16);
    SplitAndNot(word, mask, 16);
    HighMasked(word);
    AndZero(Low(word, 16));
    OrOfZero(val);
  }

  lemma HighMasked(word: u32)
    ensures AndNot(High(word, 16), Ones(16)) == 0
  {
    PowersOfTwo();
    HighBound(word);
    AllMasked(High(word, 16), 16);
  }

  lemma MergedFits(word: u32, shift: nat, val: u16)
    requires shift == 0 || shift == 16
    ensures Merged(word, shift, val) < TWO32
  {
    MergedLow(word, val);
    MergedHigh(word, val);
    HighBound(word); LowBound(word, 16); PowersOfTwo();
    var m := Merged(word, shift, val);
    SplitAt(m, 16);
    ShiftTimes(High(m, 16), 16);
  }

  function HalfShift(offset: nat): nat { if Bit(offset, 1) then 16 else 0 }

  function Write16(s: Space, f: Fn, offset: nat, val: u16): Space {
    var word := Read32(s, f, Aligned(offset));
    MergedFits(word, HalfShift(offset), val);
    Write32(s, f, Aligned(offset), Merged(word, HalfShift(offset), val))
  }

  // ---- What a 16-bit write changes ----

  /** A 32-bit write changes the word it addresses and no other. */
  lemma Write32Exact(s: Space, f: Fn, offset: nat, val: u32, f': Fn, offset': nat)
    requires InRange(f, offset) && InRange(f', offset')
    ensures Read32(Write32(s, f, offset, val), f', offset')
            == if f' == f && offset' / 4 == offset / 4 then val else Read32(s, f', offset')
  {
    EcamInjective(f, offset, f', offset');
  }

  lemma HalfBit(offset: nat)
    ensures Bit(offset, 1) <==> offset / 2 % 2 == 1
    ensures Aligned(offset) / 4 == offset / 4
  {
    assert Bit(offset, 1) == Bit(offset / 2, 0);
  }

  lemma SameHalf(offset: nat, offset': nat)
    ensures offset' / 2 == offset / 2 <==> offset' / 4 == offset / 4 && Bit(offset', 1) == Bit(offset, 1)
  {
    HalfBit(offset);
    HalfBit(offset');
    var h, h' := offset / 2, offset' / 2;
    assert offset / 4 == h / 2 && offset' / 4 == h' / 2;
  }

  /** A 16-bit write is read back, and changes no other halfword of any function. */
  lemma Write16Exact(s: Space, f: Fn, offset: nat, val: u16, f': Fn, offset': nat)
    requires InRange(f, offset) && InRange(f', offset')
    ensures Read16(Write16(s, f, offset, val), f', offset')
            == if f' == f && offset' / 2 == offset / 2 then val else Read16(s, f', offset')
  {
    var word := Read32(s, f, Aligned(offset));
    MergedFits(word, HalfShift(offset), val);
    Write32Exact(s, f, Aligned(offset), Merged(word, HalfShift(offset), val), f', Aligned(offset'));
    HalfBit(offset);
    HalfBit(offset');
    SameHalf(offset, offset');
    MergedLow(word, val);
    MergedHigh(word, val);
    if f' == f && offset' / 4 == offset / 4 { assert Aligned(offset') == Aligned(offset); }
  }

  lemma {:induction false} LowOfLow(x: nat, a: nat, b: nat)
    requires a <= b
    ensures Low(Low(x, b), a) == Low(x, a)
    decreases a
  {
    if a > 0 {
      assert Low(x, b) / 2 == Low(x / 2, b - 1) && Low(x, b) % 2 == x % 2;
      LowOfLow(x / 2, a - 1, b - 1);
    }
  }

  lemma {:induction false} HighOfLow(x: nat, a: nat, b: nat)
    ensures High(Low(x, a + b), a) == Low(High(x, a), b)
    decreases a
  {
    if a > 0 {
      assert Low(x, a + b) / 2 == Low(x / 2, a - 1 + b);
      HighOfLow(x / 2, a - 1, b);
    }
  }

  lemma {:induction false} HighOfHigh(x: nat, a: nat, b: nat)
    ensures High(High(x, a), b) == High(x, a + b)
    decreases a
  {
    if a > 0 { HighOfHigh(x / 2, a - 1, b); }
  }

  /** Byte 0 or 1 of a halfword. */
  function ByteOf(h: u16, offset: nat): nat { if offset % 2 == 0 then Low(h, 8) else High(h, 8) }

  lemma UpperByte(h: u16)
    ensures Low(High(h, 8), 8) == High(h, 8)
  {
    PowersOfTwo();
    SplitAt(h, 8); ShiftTimes(High(h, 8), 8);
    SmallIsLow(High(h, 8), 8);
  }

  /** The four bytes of a word are the bytes of its halves. */
  lemma BytesOfLower(w: u32)
    ensures Low(High(w, 0), 8) == Low(Low(w, 16), 8) && Low(High(w, 8), 8) == High(Low(w, 16), 8)
  {
    LowOfLow(w, 8, 16);
    HighOfLow(w, 8, 8);
  }

  lemma BytesOfUpper(w: u32)
    ensures Low(High(w, 24), 8) == High(High(w, 16), 8)
  {
    HighOfHigh(w, 16, 8);
    HighBound(w);
    UpperByte(High(w, 16));
  }

  lemma ByteOfWord(w: u32, j: nat)
    requires j < 4
    ensures Low(High(w, j * 8), 8)
            == if j == 0 then Low(Low(w, 16), 8) else if j == 1 then High(Low(w, 16), 8)
               else if j == 2 then Low(High(w, 16), 8) else High(High(w, 16), 8)
  {
    if j <= 1 {
      BytesOfLower(w);
    } else if j == 3 {
      BytesOfUpper(w);
    }
  }

  lemma WhichHalf(offset: nat)
    ensures Bit(offset, 1) <==> offset % 4 >= 2
    ensures offset % 2 == 1 <==> offset % 4 == 1 || offset % 4 == 3
  {
    assert Bit(offset, 1) == Bit(offset / 2, 0);
  }

  /** The 8-bit read gives the matching byte of the 16-bit read. */
  lemma Read8IsByte(s: Space, f: Fn, offset: nat)
    ensures Read8(s, f, offset) == ByteOf(Read16(s, f, offset), offset)
  {
    WhichHalf(offset);
    ByteOfWord(Read32(s, f, Aligned(offset)), offset % 4);
  }

  /** A 16-bit write is read back byte by byte, and changes no other byte of any function. */
  lemma Write16Bytes(s: Space, f: Fn, offset: nat, val: u16, f': Fn, offset': nat)
    requires InRange(f, offset) && InRange(f', offset')
    ensures Read8(Write16(s, f, offset, val), f', offset')
            == if f' == f && offset' / 2 == offset / 2 then ByteOf(val, offset') else Read8(s, f', offset')
  {
    Write16Exact(s, f, offset, val, f', offset');
    Read8IsByte(s, f', offset');
    Read8IsByte(Write16(s, f, offset, val), f', offset');
  }

  // ---- The scan ----

  const PCI_VENDOR_ID := 0x00
  const PCI_DEVICE_ID := 0x02
  const PCI_COMMAND := 0x04
  const PCI_BAR0 := 0x10
  const SMARTETH_VENDOR_ID: u16 := 0x1efd
  const SMARTETH_DEVICE_ID: u16 := 0x0001
  const PCI_MMIO_BASE: u32 := 0x4000_0000

  function Slot(dev: nat): Fn { Fn(0, dev, 0) }

  predicate IsSmartEth(s: Space, dev: nat) {
    && Read16(s, Slot(dev), PCI_VENDOR_ID) == SMARTETH_VENDOR_ID
    && Read16(s, Slot(dev), PCI_DEVICE_ID) == SMARTETH_DEVICE_ID
  }

  /** x & ~0xF */
  function Base(x: u32): u32 { x - x % 16 }

  function Enabled(cmd: u16): nat { Or(cmd, 6) }

  lemma EnabledFits(cmd: u16)
    ensures Enabled(cmd) < 0x1_0000
  {
    PowersOfTwo();
    OrBound(cmd, 6, 16);
  }

  /** Memory space (bit 1) and bus mastering (bit 2) on, every other bit as it was. */
  lemma EnabledBits(cmd: u16, k: nat)
    ensures Bit(Enabled(cmd), k) <==> Bit(cmd, k) || k == 1 || k == 2
  {
    assert Pow2(1) == 2 && Pow2(2) == 4;
    BitOr(cmd, 6, k);
    SingleBit(2, 2);
    assert Or(2, Pow2(2)) == 6;
    BitSet(2, 2, k);
    BitOfPow2(1, k);
  }

  /** The space after the BAR has been looked at, before the command register is. */
  function Assigned(s: Space, dev: nat): Space {
    if Base(Read32(s, Slot(dev), PCI_BAR0)) == 0 then Write32(s, Slot(dev), PCI_BAR0, PCI_MMIO_BASE) else s
  }

  /** What programming a found device leaves. */
  function Programmed(s: Space, dev: nat): Space {
    var cmd := Read16(Assigned(s, dev), Slot(dev), PCI_COMMAND);
    EnabledFits(cmd);
    Write16(Assigned(s, dev), Slot(dev), PCI_COMMAND, Enabled(cmd))
  }

  class Host {
    var ecam: Space

    method ConfigRead32(f: Fn, offset: nat) returns (val: u32)
      ensures val == Read32(ecam, f, offset)
    {
      var index := EcamAddr(f, offset) / 4;
      val := if index in ecam then ecam[index] else 0;
    }

    method ConfigWrite32(f: Fn, offset: nat, val: u32)
      modifies this
      ensures ecam == Write32(old(ecam), f, offset, val)
    {
      ecam := ecam[EcamAddr(f, offset) / 4 := val];
    }

    method ConfigWrite16(f: Fn, offset: nat, val: u16)
      modifies this
      ensures ecam == Write16(old(ecam), f, offset, val)
    {
      var word := ConfigRead32(f, Aligned(offset));
      MergedFits(word, HalfShift(offset), val);
      ConfigWrite32(f, Aligned(offset), Merged(word, HalfShift(offset), val));
    }

    /** smarteth_pci_scan: the lowest of the 32 slots that holds the device, or nothing. */
    method Scan() returns (bar0: nat, ghost found: nat)
      modifies this
      ensures found <= 32 && forall d :: 0 <= d < found ==> !IsSmartEth(old(ecam), d)
      ensures found == 32 ==> bar0 == 0 && ecam == old(ecam)
      ensures found < 32 ==> IsSmartEth(old(ecam), found) && ecam == Programmed(old(ecam), found)
      ensures found < 32 ==> bar0 == Base(Read32(ecam, Slot(found), PCI_BAR0))
    {
      for dev := 0 to 32
        invariant ecam == old(ecam) && forall d :: 0 <= d < dev ==> !IsSmartEth(old(ecam), d)
      {
        var vendor := Read16(ecam, Slot(dev), PCI_VENDOR_ID);
        if vendor != 0xFFFF && vendor != 0x0000 {
          var device := Read16(ecam, Slot(dev), PCI_DEVICE_ID);
          if vendor == SMARTETH_VENDOR_ID && device == SMARTETH_DEVICE_ID {
            found := dev;
            bar0 := Program(dev);
            return;
          }
        }
      }
      bar0, found := 0, 32;
    }

    /** The branch for a found device. */
    method Program(dev: nat) returns (bar0: nat)
      modifies this
      ensures ecam == Programmed(old(ecam), dev) && bar0 == Base(Read32(ecam, Slot(dev), PCI_BAR0))
    {
      var bar0_lo := ConfigRead32(Slot(dev), PCI_BAR0);
      if Base(bar0_lo) == 0 { ConfigWrite32(Slot(dev), PCI_BAR0, PCI_MMIO_BASE); }
      var cmd := Read16(ecam, Slot(dev), PCI_COMMAND);
      EnabledFits(cmd);
      ConfigWrite16(Slot(dev), PCI_COMMAND, Enabled(cmd));
      bar0_lo := ConfigRead32(Slot(dev), PCI_BAR0);
      bar0 := Base(bar0_lo);
      if bar0 == 0 { return 0; }
    }
  }

  lemma Write32OtherHalf(s: Space, f: Fn, offset: nat, val: u32, f': Fn, offset': nat)
    requires InRange(f, offset) && InRange(f', offset') && (f' != f || offset' / 4 != offset / 4)
    ensures Read16(Write32(s, f, offset, val), f', offset') == Read16(s, f', offset')
  {
    Write32Exact(s, f, offset, val, f', Aligned(offset'));
  }

  lemma Write16OtherWord(s: Space, f: Fn, offset: nat, val: u16, f': Fn, offset': nat)
    requires InRange(f, offset) && InRange(f', offset') && (f' != f || offset' / 4 != offset / 4)
    ensures Read32(Write16(s, f, offset, val), f', offset') == Read32(s, f', offset')
  {
    EcamInjective(f, Aligned(offset), f', offset');
  }

  lemma AssignedExact(s: Space, dev: nat, f: Fn, offset: nat)
    requires dev < 32 && InRange(f, offset)
    ensures var bar := Read32(s, Slot(dev), PCI_BAR0);
            Read32(Assigned(s, dev), Slot(dev), PCI_BAR0) == if Base(bar) == 0 then PCI_MMIO_BASE else bar
    ensures f != Slot(dev) || offset / 4 != PCI_BAR0 / 4 ==> Read16(Assigned(s, dev), f, offset) == Read16(s, f, offset)
  {
    Write32Exact(s, Slot(dev), PCI_BAR0, PCI_MMIO_BASE, Slot(dev), PCI_BAR0);
    if f != Slot(dev) || offset / 4 != PCI_BAR0 / 4 {
      Write32OtherHalf(s, Slot(dev), PCI_BAR0, PCI_MMIO_BASE, f, offset);
    }
  }

  lemma ProgramIs(s: Space, dev: nat, f: Fn, offset: nat)
    requires dev < 32 && InRange(f, offset)
    ensures Read32(Programmed(s, dev), Slot(dev), PCI_BAR0) == Read32(Assigned(s, dev), Slot(dev), PCI_BAR0)
    ensures Read16(Programmed(s, dev), Slot(dev), PCI_COMMAND) == Enabled(Read16(s, Slot(dev), PCI_COMMAND))
    ensures f != Slot(dev) || (offset / 4 != PCI_BAR0 / 4 && offset / 2 != PCI_COMMAND / 2) ==>
              Read16(Programmed(s, dev), f, offset) == Read16(s, f, offset)
  {
    var s1 := Assigned(s, dev);
    var cmd := Read16(s1, Slot(dev), PCI_COMMAND);
    AssignedExact(s, dev, Slot(dev), PCI_COMMAND);
    AssignedExact(s, dev, f, offset);
    EnabledFits(cmd);
    Write16OtherWord(s1, Slot(dev), PCI_COMMAND, Enabled(cmd), Slot(dev), PCI_BAR0);
    Write16Exact(s1, Slot(dev), PCI_COMMAND, Enabled(cmd), Slot(dev), PCI_COMMAND);
    Write16Exact(s1, Slot(dev), PCI_COMMAND, Enabled(cmd), f, offset);
  }

  lemma AddressGiven(s: Space, dev: nat)
    requires dev < 32
    ensures var bar, bar' := Read32(s, Slot(dev), PCI_BAR0), Read32(Programmed(s, dev), Slot(dev), PCI_BAR0);
            bar' == (if bar < 16 then 0x4000_0000 else bar) && Base(bar') == bar' - bar' % 16 > 0
  {
    ProgramIs(s, dev, Slot(dev), PCI_BAR0);
    AssignedExact(s, dev, Slot(dev), PCI_BAR0);
  }

  lemma CommandGiven(s: Space, dev: nat, k: nat)
    requires dev < 32
    ensures Bit(Read16(Programmed(s, dev), Slot(dev), PCI_COMMAND), k)
            <==> Bit(Read16(s, Slot(dev), PCI_COMMAND), k) || k == 1 || k == 2
  {
    ProgramIs(s, dev, Slot(dev), PCI_COMMAND);
    EnabledBits(Read16(s, Slot(dev), PCI_COMMAND), k);
  }

  /** Programming a device gives it the address 0x4000_0000 if the base address register (0x10) holds none, turns on
      memory space and bus mastering (bits 1 and 2 of the command word at 0x04), and leaves every other bit of the
      command word and every other halfword of configuration space alone. */
  lemma ProgramExact(s: Space, dev: nat, f: Fn, offset: nat, k: nat)
    requires dev < 32 && InRange(f, offset)
    ensures var bar, bar' := Read32(s, Slot(dev), 0x10), Read32(Programmed(s, dev), Slot(dev), 0x10);
            bar' == (if bar < 16 then 0x4000_0000 else bar) && Base(bar') == bar' - bar' % 16 > 0
    ensures Bit(Read16(Programmed(s, dev), Slot(dev), 0x04), k)
            <==> Bit(Read16(s, Slot(dev), 0x04), k) || k == 1 || k == 2
    ensures f != Slot(dev) || (offset / 4 != 4 && offset / 2 != 2) ==>
              Read16(Programmed(s, dev), f, offset) == Read16(s, f, offset)
  {
    AddressGiven(s, dev);
    CommandGiven(s, dev, k);
    ProgramIs(s, dev, f, offset);
  }

  lemma HalfRead(s: Space, f: Fn, offset: nat)
    ensures var w := Read32(s, f, Aligned(offset));
            Read16(s, f, offset) == if offset % 4 >= 2 then High(w, 16) else Low(w, 16)
  {
    WhichHalf(offset);
  }

  lemma WordIs(w: u32, h: u16, l: u16)
    ensures High(w, 16) == h && Low(w, 16) == l <==> w == h * 0x1_0000 + l
  {
    PowersOfTwo();
    SplitAt(w, 16);
    ShiftTimes(High(w, 16), 16);
    ShiftTimes(h, 16);
    HighLowOf(h, l, 16);
  }

  lemma HalvesOf(s: Space, f: Fn, a: nat, b: nat, l: u16, h: u16)
    requires a % 4 == 0 && b == a + 2
    ensures Read16(s, f, a) == l && Read16(s, f, b) == h <==> Read32(s, f, a) == h * 0x1_0000 + l
  {
    assert Aligned(a) == a && Aligned(b) == a && b % 4 == 2;
    HalfRead(s, f, a);
    HalfRead(s, f, b);
    WordIs(Read32(s, f, a), h, l);
  }

  /** The device the scan looks for: vendor 0x1efd, device 1, in the two halves of the first word. */
  lemma SmartEthIs(s: Space, dev: nat)
    ensures IsSmartEth(s, dev) <==> Read32(s, Slot(dev), 0) == 0x0001_1efd
  {
    HalvesOf(s, Slot(dev), PCI_VENDOR_ID, PCI_DEVICE_ID, 0x1efd, 1);
  }
}
