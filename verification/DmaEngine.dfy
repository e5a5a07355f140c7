/** sim/systemc/src/dma_engine.cpp: one transfer between the internal buffer and guest memory. */
module DmaEngine {
  import opened Bits
  import opened GuestMemory
  import opened Protocol
  import opened DmaPath

  type Buffer = s: seq<u8> | |s| == DMA_MAX_BUF witness seq(DMA_MAX_BUF, _ => 0)

  datatype Dma = Dma(src: u64, dst: u64, len: u32, dirWrite: bool, busy: bool, buf: Buffer)

  function IdleDma(): Dma { Dma(0, 0, 0, false, false, Zeros(DMA_MAX_BUF)) }

  function Configure(d: Dma, src: u64, dst: u64, len: u32, ctrl: u32): Dma {
    d.(src := src, dst := dst, len := Min(len, DMA_MAX_BUF), dirWrite := Bit(ctrl, DMA_DIR_WRITE_BIT))
  }

  predicate Idles(d: Dma) { d.busy || d.len == 0 }

  function StartedBuf(d: Dma, p: Port): Buffer
    requires d.len <= DMA_MAX_BUF
  {
    if Idles(d) || d.dirWrite then d.buf else ReadInto(p, d.src, d.buf[..d.len]) + d.buf[d.len..]
  }

  function StartedPort(d: Dma, p: Port): Port
    requires d.len <= DMA_MAX_BUF
  {
    if Idles(d) then p else if d.dirWrite then WriteFrom(p, d.dst, d.buf[..d.len]) else Tick(p)
  }

  class Engine {
    var m_src: u64
    var m_dst: u64
    var m_len: u32
    var m_ctrl: u32
    var m_busy: bool
    var m_dir_write: bool
    var m_irq_en: bool
    const m_buf: array<u8>

    ghost predicate Valid()
      reads this
    {
      m_buf.Length == DMA_MAX_BUF && m_len <= DMA_MAX_BUF
    }

    ghost function View(): Dma
      requires Valid()
      reads this, m_buf
    {
      Dma(m_src, m_dst, m_len, m_dir_write, m_busy, m_buf[..])
    }

    constructor ()
      ensures Valid() && fresh(m_buf) && View() == IdleDma()
    {
      m_src, m_dst, m_len, m_ctrl := 0, 0, 0, 0;
      m_busy, m_dir_write, m_irq_en := false, false, false;
      m_buf := new u8[DMA_MAX_BUF](_ => 0);
      new;
      assert m_buf[..] == Zeros(DMA_MAX_BUF);
    }

    method SetUp(src: u64, dst: u64, len: u32, ctrl: u32)
      requires Valid()
      modifies this
      ensures Valid() && View() == Configure(old(View()), src, dst, len, ctrl)
      ensures m_ctrl == ctrl && m_irq_en == Bit(ctrl, DMA_IRQ_EN_BIT)
    {
      m_src := src;
      m_dst := dst;
      m_len := if len < DMA_MAX_BUF then len else DMA_MAX_BUF;
      m_ctrl := ctrl;
      m_dir_write := Bit(ctrl, DMA_DIR_WRITE_BIT);
      m_irq_en := Bit(ctrl, DMA_IRQ_EN_BIT);
    }

    method Start(bridge: Bridge) returns (delay: nat)
      requires Valid()
      modifies this`m_busy, m_buf, bridge
      ensures Valid()
      ensures View() == old(View()).(buf := StartedBuf(old(View()), old(bridge.View())))
      ensures bridge.View() == StartedPort(old(View()), old(bridge.View()))
      ensures delay == if Idles(old(View())) then 0 else 50 + (m_len + 3) / 4 * 2
    {
      if m_busy || m_len == 0 { return 0; }
      m_busy := true;
      delay := 50;
      if m_dir_write {
        var _ := bridge.DmaWrite(m_dst, m_buf[..m_len]);
      } else {
        ghost var before := m_buf[..];
        var _, filled := bridge.DmaRead(m_src, m_buf[..m_len]);
        forall i | 0 <= i < m_len { m_buf[i] := filled[i]; }
        assert m_buf[..] == filled + before[m_len..];
      }
      delay := delay + (m_len + 3) / 4 * 2;
      m_busy := false;
    }
  }
}
