/** Register map, control bits and descriptor layout shared by driver, bridge and device. */
module Protocol {
  import opened Bits
  import opened GuestMemory

  const SC_REG_CTRL := 0x000
  const SC_REG_STATUS := 0x004
  const SC_REG_IRQ_EN := 0x008
  const SC_REG_IRQ_STS := 0x00C
  const SC_REG_MAC_LO := 0x010
  const SC_REG_MAC_HI := 0x014
  const SC_REG_DMA_SRC := 0x040
  const SC_REG_DMA_DST := 0x048
  const SC_REG_DMA_LEN := 0x050
  const SC_REG_DMA_CTRL := 0x058
  const SC_REG_DMA_STS := 0x05C
  const SC_REG_DEV_ID := 0x100
  const SC_REG_IRQ_TEST := 0x200
  const SC_REG_TX_RING_BASE_LO := 0x300
  const SC_REG_TX_RING_BASE_HI := 0x304
  const SC_REG_TX_RING_SIZE := 0x308
  const SC_REG_TX_DOORBELL := 0x30C
  const SC_REG_TX_TAIL := 0x310
  const SC_REG_RX_RING_BASE_LO := 0x320
  const SC_REG_RX_RING_BASE_HI := 0x324
  const SC_REG_RX_RING_SIZE := 0x328
  const SC_REG_RX_DOORBELL := 0x32C
  const SC_REG_RX_TAIL := 0x330
  const SC_REG_COUNT := 0x400

  const REG_WORDS := 256

  const SC_DEV_ID: u32 := 0x52414D53
  const SC_STATUS_READY: u32 := 1
  const SC_STATUS_DMA_BSY: u32 := 2
  const SC_IRQ_DMA_DONE: u32 := 1
  const SC_IRQ_TEST: u32 := 2
  const SC_IRQ_TX_DONE: u32 := 4
  const SC_IRQ_RX: u32 := 8

  // Bit positions inside SC_REG_CTRL, SC_REG_DMA_CTRL, SC_REG_IRQ_EN.
  const CTRL_RESET_BIT := 0
  const DMA_START_BIT := 0
  const DMA_DIR_WRITE_BIT := 1
  const DMA_IRQ_EN_BIT := 2
  const IRQ_TX_DONE_BIT := 2
  const IRQ_RX_BIT := 3

  /** Both sides of the bridge move at most this many bytes per DMA. */
  const DMA_MAX_BUF := 4096

  /** The register file: 256 words. */
  type Regs = s: seq<u32> | |s| == REG_WORDS witness seq(REG_WORDS, _ => 0)

  function ZeroRegs(): Regs { seq<u32>(REG_WORDS, _ => 0) }

  function Min(a: nat, b: nat): nat { if a < b then a else b }

  // ---- Descriptors ----

  const DESC_OWN: u32 := 0x8000_0000
  const DESC_DONE: u32 := 0x4000_0000
  const DESC_BYTES := 16

  datatype Desc = Desc(addr: u64, length: u32, flags: u32)

  /** flags & OWN: the top bit of the word. */
  predicate Own(d: Desc) { d.flags >= DESC_OWN }

  predicate Done(d: Desc) { d.flags / DESC_DONE % 2 == 1 }

  /** What the device writes back: OWN cleared, DONE set. */
  function Completed(d: Desc): Desc {
    var cleared := if Own(d) then d.flags - DESC_OWN else d.flags;
    d.(flags := if cleared >= DESC_DONE then cleared else cleared + DESC_DONE)
  }

  lemma TopBit(flags: u32)
    ensures flags >= DESC_OWN <==> And(flags, DESC_OWN) != 0
    ensures AndNot(flags, DESC_OWN) == if flags >= DESC_OWN then flags - DESC_OWN else flags
  {
    Pow2Values();
    SingleBit(flags, 31);
    BitIsDigit(flags, 31);
  }

  lemma NextBit(flags: u32)
    ensures flags / DESC_DONE % 2 == 1 <==> And(flags, DESC_DONE) != 0
    ensures Or(flags, DESC_DONE) == if flags / DESC_DONE % 2 == 1 then flags else flags + DESC_DONE
  {
    Pow2Values();
    SingleBit(flags, 30);
    BitIsDigit(flags, 30);
  }

  /** The arithmetic above is the device's bit manipulation, for every flags word. */
  lemma FlagsAreBits(d: Desc)
    ensures Own(d) <==> And(d.flags, DESC_OWN) != 0
    ensures Done(d) <==> And(d.flags, DESC_DONE) != 0
    ensures Completed(d).flags == Or(AndNot(d.flags, DESC_OWN), DESC_DONE)
  {
    TopBit(d.flags);
    NextBit(d.flags);
    NextBit(AndNot(d.flags, DESC_OWN));
  }

  /** d' is d handed back: the same buffer and length, OWN cleared, DONE set, every other flag as it was. */
  ghost predicate WrittenBack(d: Desc, d': Desc) {
    && d'.addr == d.addr && d'.length == d.length
    && !Own(d') && Done(d')
    && forall k: nat :: k != 30 && k != 31 ==> (Bit(d'.flags, k) <==> Bit(d.flags, k))
  }

  lemma CompletedExact(d: Desc)
    ensures WrittenBack(d, Completed(d))
  {
    var flags := Completed(d).flags;
    FlagsAreBits(d);
    Pow2Values();
    forall k: nat ensures Bit(flags, k) <==> k == 30 || (Bit(d.flags, k) && k != 31) {
      BitSet(AndNot(d.flags, DESC_OWN), 30, k);
      BitCleared(d.flags, 31, k);
    }
  }

  function EncodeDesc(d: Desc): (b: seq<u8>)
    ensures |b| == DESC_BYTES
  {
    Le(d.addr, 8) + Le(d.length, 4) + Le(d.flags, 4)
  }

  function DecodeDesc(b: seq<u8>): Desc
    requires |b| == DESC_BYTES
  {
    UnLeBound(b[..8]); UnLeBound(b[8..12]); UnLeBound(b[12..]);
    Pow256Values();
    Desc(UnLe(b[..8]), UnLe(b[8..12]), UnLe(b[12..]))
  }

  /** The packed layout: addr at byte 0, length at 8, flags at 12, each with its lowest byte first. */
  lemma DescLayout(d: Desc, k: nat)
    requires k < 16
    ensures EncodeDesc(d)[k] == if k < 8 then d.addr / Pow256(k) % 256
                                else if k < 12 then d.length / Pow256(k - 8) % 256
                                else d.flags / Pow256(k - 12) % 256
  {
    if k < 8 {
      LeByte(d.addr, 8, k);
    } else if k < 12 {
      LeByte(d.length, 4, k - 8);
    } else {
      LeByte(d.flags, 4, k - 12);
    }
  }

  lemma DescRoundTrip(d: Desc)
    ensures DecodeDesc(EncodeDesc(d)) == d
  {
    var b := EncodeDesc(d);
    assert b[..8] == Le(d.addr, 8) && b[8..12] == Le(d.length, 4) && b[12..] == Le(d.flags, 4);
    Pow256Values();
    LeRoundTrip(d.addr, 8);
    LeRoundTrip(d.length, 4);
    LeRoundTrip(d.flags, 4);
  }
}
