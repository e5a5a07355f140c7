/** sim/systemc/src/nic.cpp: MMIO dispatch, DMA completion, TX drain and RX delivery.
    Each function below is the effect of one region run under the register mutex; the class
    at the end performs the same regions step by step and is proved equal to them. */
module SmartNic {
  import opened Bits
  import opened GuestMemory
  import opened Protocol
  import opened DmaPath
  import opened DmaEngine
  import opened RegisterBlock
  import opened Rings

  datatype Nic = Nic(
    rb: RegState, dma: Dma, port: Port,
    dmaPending: bool, txPending: bool,
    wire: seq<Frame>,   // frames handed to NetIf::transmit
    irqs: seq<u32>)     // MSI-X vectors sent

  function PowerOn(port: Port): Nic {
    Nic(RegisterBlock.Initial(), IdleDma(), port, false, false, [], [])
  }

  function Reg(n: Nic, addr: int): u32
    requires 0 <= addr < SC_REG_COUNT
  {
    Get(n.rb.regs, addr)
  }

  function WithRegs(n: Nic, regs: Regs): Nic { n.(rb := RegState(regs, n.rb.mac)) }

  // ---- MMIO ----

  function MmioRead(n: Nic, addr: nat): u32 {
    if addr == SC_REG_DMA_STS then
      Or32(AndNot32(Reg(n, addr), 2), if n.dma.busy then 2 else 0)
    else Read(n.rb.regs, addr)
  }

  predicate StartsDma(addr: nat, data: u32) { addr == SC_REG_DMA_CTRL && Bit(data, DMA_START_BIT) }

  predicate RingsTx(addr: nat, data: u32) { addr == SC_REG_TX_DOORBELL && data > 0 }

  function MmioWrite(n: Nic, addr: nat, data: u32): Nic {
    var rb := Write(n.rb, addr, data);
    var n1 := n.(rb := rb,
                 txPending := n.txPending || RingsTx(addr, data),
                 irqs := if IrqChanged(addr, data) then n.irqs + [0] else n.irqs);
    if StartsDma(addr, data) then
      WithRegs(n1, Set(rb.regs, SC_REG_DMA_STS, SC_STATUS_DMA_BSY))
      .(dma := Configure(n.dma, Get(rb.regs, SC_REG_DMA_SRC), Get(rb.regs, SC_REG_DMA_DST),
                         Get(rb.regs, SC_REG_DMA_LEN), data),
        dmaPending := true)
    else n1
  }

  /** A doorbell write replaces the doorbell and, unless it writes 0, leaves the transmit side with work to do. */
  lemma DoorbellWrite(n: Nic, w: u32)
    ensures TxOf(MmioWrite(n, 0x30C, w)) == TxOf(n).(doorbell := w, pending := n.txPending || w > 0)
    ensures MmioWrite(n, 0x30C, w)
            == WithRegs(n, Set(n.rb.regs, 0x30C, w)).(txPending := n.txPending || w > 0)
  {
  }

  /** No other register wakes the transmit process. */
  lemma OtherWritesDoNotWake(n: Nic, addr: nat, w: u32)
    requires addr != 0x30C
    ensures MmioWrite(n, addr, w).txPending == n.txPending
  {
  }

  // ---- DMA completion ----

  function DmaStep(n: Nic): Nic
    requires n.dma.len <= DMA_MAX_BUF
  {
    if !n.dmaPending then n else
    var regs := Set(n.rb.regs, SC_REG_DMA_STS, 0);
    var n1 := WithRegs(n, regs).(dma := n.dma.(buf := StartedBuf(n.dma, n.port)),
                                 port := StartedPort(n.dma, n.port), dmaPending := false);
    if Bit(Get(regs, SC_REG_DMA_CTRL), DMA_IRQ_EN_BIT) then
      WithRegs(n1, RaiseIrq(regs, SC_IRQ_DMA_DONE)).(irqs := n.irqs + [0])
    else n1
  }

  // ---- Descriptor rings ----

  function RingAt(regs: Regs, lo: int, tail: int): Ring
    requires 0 <= lo < SC_REG_COUNT - 8 && lo % 4 == 0 && 0 <= tail < SC_REG_COUNT
  {
    Ring(Get(regs, lo + 4) * TWO32 + Get(regs, lo), Get(regs, lo + 8), Get(regs, tail))
  }

  function TxOf(n: Nic): Tx {
    Tx(RingAt(n.rb.regs, SC_REG_TX_RING_BASE_LO, SC_REG_TX_TAIL), Reg(n, SC_REG_TX_DOORBELL),
       n.port, n.wire, n.txPending)
  }

  /** The device with its TX side replaced: tail, doorbell, memory, transmit log, pending flag. */
  function PutTx(n: Nic, x: Tx): Nic {
    WithRegs(n, Set(Set(n.rb.regs, SC_REG_TX_TAIL, x.ring.tail), SC_REG_TX_DOORBELL, x.doorbell))
    .(port := x.port, wire := x.wire, txPending := x.pending)
  }

  /** The inner loop of process_tx on the whole device. */
  function TxDrain(n: Nic): Nic { PutTx(n, Drain(TxOf(n))) }

  /** The interrupt raised when the inner loop stops. */
  function TxDone(n: Nic): Nic {
    if Bit(Reg(n, SC_REG_IRQ_EN), IRQ_TX_DONE_BIT) then
      WithRegs(n, RaiseIrq(n.rb.regs, SC_IRQ_TX_DONE)).(irqs := n.irqs + [1])
    else n
  }

  function RxOf(n: Nic): Rx {
    Rx(RingAt(n.rb.regs, SC_REG_RX_RING_BASE_LO, SC_REG_RX_TAIL), n.port)
  }

  function PutRx(n: Nic, x: Rx): Nic {
    WithRegs(n, Set(n.rb.regs, SC_REG_RX_TAIL, x.ring.tail)).(port := x.port)
  }

  function RxDone(n: Nic): Nic {
    if Bit(Reg(n, SC_REG_IRQ_EN), IRQ_RX_BIT) then
      WithRegs(n, RaiseIrq(n.rb.regs, SC_IRQ_RX)).(irqs := n.irqs + [1])
    else n
  }

  function RxPacket(n: Nic, f: Frame): Nic {
    if !Accepts(n.rb.regs, f) then n else
    var n1 := PutRx(n, Deliver(RxOf(n), f));
    if Delivers(RxOf(n)) then RxDone(n1) else n1
  }

  /** The address on_packet_rx compares with, decoded from the MAC registers. */
  function FilterMac(regs: Regs): Mac {
    FilterBytes(Get(regs, SC_REG_MAC_LO), Get(regs, SC_REG_MAC_HI))
  }

  function FilterBytes(lo: u32, hi: u32): Mac {
    [lo / 0x100_0000 % 0x100, lo / 0x1_0000 % 0x100, lo / 0x100 % 0x100, lo % 0x100,
     hi / 0x100 % 0x100, hi % 0x100]
  }

  predicate Accepts(regs: Regs, f: Frame) {
    |f| >= 14 && (Bit(f[0], 0) || f[..6] == FilterMac(regs))
  }

  /** The receive filter reads the MAC registers in the opposite byte order to the one they are
      written in: a unicast frame for the programmed address gets through just when that address
      reads the same both ways. */
  lemma UnicastFilterExact(regs: Regs, mac: Mac, f: Frame)
    requires |f| >= 14 && f[..6] == mac && !Bit(f[0], 0)
    ensures Accepts(StoreMac(regs, mac), f)
            <==> mac[0] == mac[3] && mac[1] == mac[2] && mac[4] == mac[5]
  {
    MacRoundTrip(regs, mac);
    var m := LoadMac(StoreMac(regs, mac));
    assert FilterMac(StoreMac(regs, mac)) == [m[3], m[2], m[1], m[0], m[5], m[4]];
  }

  /** So the power-on address is never matched. */
  lemma DefaultMacIsFilteredOut(f: Frame)
    requires |f| >= 14 && f[..6] == DEFAULT_MAC
    ensures !Accepts(RegisterBlock.Initial().regs, f)
  {
    assert f[0] == DEFAULT_MAC[0];
    UnicastFilterExact(ZeroRegs(), DEFAULT_MAC, f);
  }

  /** Where the device keeps its two rings: base address in two words, size, tail, and the transmit doorbell. */
  lemma RingRegisters(n: Nic)
    ensures TxOf(n).ring == Ring(Reg(n, 0x304) * TWO32 + Reg(n, 0x300), Reg(n, 0x308), Reg(n, 0x310))
    ensures RxOf(n).ring == Ring(Reg(n, 0x324) * TWO32 + Reg(n, 0x320), Reg(n, 0x328), Reg(n, 0x330))
    ensures TxOf(n).doorbell == Reg(n, 0x30C)
  {
  }

  // ---- The module itself ----

  lemma DrainStep(x: Tx)
    ensures Drain(x) == if Advances(x) then Drain(Pass(x)) else Pass(x)
  {
  }

  lemma SetAgain(regs: Regs, tail: u32, doorbell: u32, tail': u32, doorbell': u32)
    ensures Set(Set(Set(Set(regs, SC_REG_TX_TAIL, tail), SC_REG_TX_DOORBELL, doorbell), SC_REG_TX_TAIL, tail'),
                SC_REG_TX_DOORBELL, doorbell')
            == Set(Set(regs, SC_REG_TX_TAIL, tail'), SC_REG_TX_DOORBELL, doorbell')
  {
  }

  class Device {
    const m_regs: RegBlock
    const m_dma: Engine
    const bridge: Bridge
    var m_dma_pending: bool
    var m_tx_pending: bool
    var m_tx_event: bool     // notified and not yet waited for
    var wire: seq<Frame>
    var irqs: seq<u32>

    ghost predicate Valid()
      reads this, m_regs, m_dma
    {
      && m_regs.Valid() && m_dma.Valid()
      && m_dma.m_buf as object != m_regs.m_regs as object
      && m_dma.m_buf as object != m_regs.m_mac as object
    }

    ghost function View(): Nic
      requires Valid()
      reads this, m_regs, m_regs.m_regs, m_regs.m_mac, m_dma, m_dma.m_buf, bridge
    {
      Nic(m_regs.View(), m_dma.View(), bridge.View(), m_dma_pending, m_tx_pending, wire, irqs)
    }

    constructor (bridge: Bridge)
      ensures Valid() && this.bridge == bridge && !m_tx_event
      ensures View() == PowerOn(bridge.View())
    {
      m_regs := new RegBlock();
      m_dma := new Engine();
      this.bridge := bridge;
      m_dma_pending, m_tx_pending, m_tx_event := false, false, false;
      wire, irqs := [], [];
    }

    method OnMmioRead(addr: nat) returns (val: u32)
      requires Valid()
      modifies m_regs`m_last_delay_ns
      ensures Valid() && View() == old(View())
      ensures val == MmioRead(View(), addr)
    {
      val := m_regs.MmioRead(addr);
      if addr == SC_REG_DMA_STS {
        val := Or32(AndNot32(val, 2), if m_dma.m_busy then 2 else 0);
      }
    }

    method OnMmioWrite(addr: nat, data: u32)
      requires Valid()
      modifies this, m_regs, m_regs.m_regs, m_dma
      ensures Valid() && View() == MmioWrite(old(View()), addr, data)
      ensures m_tx_event == (old(m_tx_event) || (addr == SC_REG_TX_DOORBELL && data > 0))
    {
      var irq := m_regs.MmioWrite(addr, data);
      if addr == SC_REG_DMA_CTRL && Bit(data, DMA_START_BIT) {
        m_dma.SetUp(m_regs.m_regs[SC_REG_DMA_SRC / 4], m_regs.m_regs[SC_REG_DMA_DST / 4],
                    m_regs.m_regs[SC_REG_DMA_LEN / 4], data);
        m_regs.m_regs[SC_REG_DMA_STS / 4] := SC_STATUS_DMA_BSY;
        m_dma_pending := true;
      }
      if addr == SC_REG_TX_DOORBELL && data > 0 {
        m_tx_pending := true;
        m_tx_event := true;
      }
      if irq { irqs := irqs + [0]; }
    }

    method ProcessDma()
      requires Valid()
      modifies this`m_dma_pending, this`irqs, m_regs.m_regs, m_dma, m_dma.m_buf, bridge
      ensures Valid() && View() == DmaStep(old(View()))
    {
      if !m_dma_pending { return; }
      var _ := m_dma.Start(bridge);
      m_regs.m_regs[SC_REG_DMA_STS / 4] := 0;
      m_dma_pending := false;
      if Bit(m_regs.m_regs[SC_REG_DMA_CTRL / 4], DMA_IRQ_EN_BIT) {
        m_regs.m_regs[SC_REG_IRQ_STS / 4] := Or32(m_regs.m_regs[SC_REG_IRQ_STS / 4], SC_IRQ_DMA_DONE);
        irqs := irqs + [0];
      }
    }

    method ReadSlot(r: Ring) returns (ok: bool, desc: Desc)
      modifies bridge`faults
      ensures ok == !Fails(old(bridge.View())) && bridge.View() == Tick(old(bridge.View()))
      ensures desc == SlotRead(old(bridge.View()), r)
    {
      var raw;
      ok, raw := bridge.DmaRead(SlotAddr(r), Zeros(DESC_BYTES));
      desc := DecodeDesc(raw);
    }

    /** The TX registers, as process_tx reads them. */
    ghost function TxView(): Tx
      requires Valid()
      reads this, m_regs, m_regs.m_regs, m_dma, bridge
    {
      Tx(RingAt(m_regs.m_regs[..], SC_REG_TX_RING_BASE_LO, SC_REG_TX_TAIL),
         m_regs.m_regs[SC_REG_TX_DOORBELL / 4], bridge.View(), wire, m_tx_pending)
    }

    /** Reads the packet, transmits it, writes the descriptor back and moves on. */
    method SendFrame(r: Ring, desc: Desc) returns (ok: bool)
      requires Valid() && r == TxView().ring && r.size != 0 && TxView().doorbell != 0
      modifies this`wire, m_regs.m_regs, bridge
      ensures Valid() && TxView() == Send(old(TxView()), desc)
      ensures m_regs.m_regs[..] == Set(Set(old(m_regs.m_regs[..]), SC_REG_TX_TAIL, TxView().ring.tail),
                                       SC_REG_TX_DOORBELL, TxView().doorbell)
      ensures ok == (!Fails(old(bridge.View())) && !Fails(Tick(old(bridge.View()))))
    {
      var regs := m_regs.m_regs;
      var data;
      ok, data := bridge.DmaRead(desc.addr, Zeros(desc.length));
      if !ok { return; }
      wire := wire + [data];
      ok := bridge.DmaWrite(SlotAddr(r), EncodeDesc(Completed(desc)));
      if !ok { return; }
      regs[SC_REG_TX_TAIL / 4] := NextTail(r);
      regs[SC_REG_TX_DOORBELL / 4] := regs[SC_REG_TX_DOORBELL / 4] - 1;
    }

    /** One pass of the inner loop of process_tx; again tells whether the loop goes round. */
    method TransmitNext() returns (again: bool)
      requires Valid()
      modifies this`m_tx_pending, this`wire, m_regs.m_regs, bridge
      ensures Valid() && TxView() == Pass(old(TxView()))
      ensures m_regs.m_regs[..] == Set(Set(old(m_regs.m_regs[..]), SC_REG_TX_TAIL, TxView().ring.tail),
                                       SC_REG_TX_DOORBELL, TxView().doorbell)
      ensures again == Advances(old(TxView()))
    {
      if !m_tx_pending { return false; }
      var regs := m_regs.m_regs;
      var r := RingAt(regs[..], SC_REG_TX_RING_BASE_LO, SC_REG_TX_TAIL);
      if r.size == 0 || regs[SC_REG_TX_DOORBELL / 4] == 0 || r.base == 0 {
        m_tx_pending := false;
        return false;
      }
      var ok, desc := ReadSlot(r);
      if !ok { return false; }
      if !Own(desc) {
        m_tx_pending := false;
        return false;
      }
      again := SendFrame(r, desc);
    }

    /** The inner loop of process_tx. */
    method DrainTx()
      requires Valid()
      modifies this`m_tx_pending, this`wire, m_regs.m_regs, bridge
      ensures Valid() && TxView() == Drain(old(TxView()))
      ensures m_regs.m_regs[..] == Set(Set(old(m_regs.m_regs[..]), SC_REG_TX_TAIL, TxView().ring.tail),
                                       SC_REG_TX_DOORBELL, TxView().doorbell)
    {
      ghost var regs := m_regs.m_regs[..];
      var again := TransmitNext();
      DrainStep(old(TxView()));
      while again
        invariant Valid()
        invariant Drain(old(TxView())) == if again then Drain(TxView()) else TxView()
        invariant m_regs.m_regs[..] == Set(Set(regs, SC_REG_TX_TAIL, TxView().ring.tail),
                                           SC_REG_TX_DOORBELL, TxView().doorbell)
        decreases again, TxView().doorbell
      {
        ghost var before := TxView();
        again := TransmitNext();
        DrainStep(before);
        SetAgain(regs, before.ring.tail, before.doorbell, TxView().ring.tail, TxView().doorbell);
      }
    }

    /** One turn of process_tx: it waits for the event, and then runs the inner loop and raises the
        TX-done interrupt. */
    method ProcessTx()
      requires Valid()
      modifies this`m_tx_event, this`m_tx_pending, this`wire, this`irqs, m_regs.m_regs, bridge
      ensures Valid() && !m_tx_event
      ensures View() == if old(m_tx_event) then TxDone(TxDrain(old(View()))) else old(View())
    {
      if !m_tx_event { return; }
      m_tx_event := false;
      DrainTx();
      assert View() == TxDrain(old(View()));
      var regs := m_regs.m_regs;
      if Bit(regs[SC_REG_IRQ_EN / 4], IRQ_TX_DONE_BIT) {
        regs[SC_REG_IRQ_STS / 4] := Or32(regs[SC_REG_IRQ_STS / 4], SC_IRQ_TX_DONE);
        irqs := irqs + [1];
      }
    }

    ghost function RxView(): Rx
      requires Valid()
      reads this, m_regs, m_regs.m_regs, m_dma, bridge
    {
      Rx(RingAt(m_regs.m_regs[..], SC_REG_RX_RING_BASE_LO, SC_REG_RX_TAIL), bridge.View())
    }

    /** Copies the frame into the buffer, writes the descriptor back and moves the tail. */
    method FillBuffer(r: Ring, desc: Desc, data: Frame) returns (ok: bool)
      requires Valid() && r == RxView().ring && r.size != 0
      modifies m_regs.m_regs, bridge
      ensures Valid() && RxView() == Fill(old(RxView()), desc, data)
      ensures m_regs.m_regs[..] == Set(old(m_regs.m_regs[..]), SC_REG_RX_TAIL, RxView().ring.tail)
      ensures ok == (!Fails(old(bridge.View())) && !Fails(Tick(old(bridge.View()))))
    {
      var copied: u32 := if |data| < desc.length then |data| else desc.length;
      ok := bridge.DmaWrite(desc.addr, data[..copied]);
      if !ok { return; }
      ok := bridge.DmaWrite(SlotAddr(r), EncodeDesc(Completed(desc).(length := copied)));
      if !ok { return; }
      m_regs.m_regs[SC_REG_RX_TAIL / 4] := NextTail(r);
    }

    method ReceiveIntoRing(data: Frame) returns (delivered: bool)
      requires Valid()
      modifies m_regs.m_regs, bridge
      ensures Valid() && RxView() == Deliver(old(RxView()), data)
      ensures m_regs.m_regs[..] == Set(old(m_regs.m_regs[..]), SC_REG_RX_TAIL, RxView().ring.tail)
      ensures delivered == Delivers(old(RxView()))
    {
      var r := RingAt(m_regs.m_regs[..], SC_REG_RX_RING_BASE_LO, SC_REG_RX_TAIL);
      if r.size == 0 || r.base == 0 { return false; }
      var ok, desc := ReadSlot(r);
      if !ok || !Own(desc) { return false; }
      delivered := FillBuffer(r, desc, data);
    }

    method OnPacketRx(data: Frame)
      requires Valid()
      modifies this`irqs, m_regs.m_regs, bridge
      ensures Valid() && View() == RxPacket(old(View()), data)
    {
      var regs := m_regs.m_regs;
      var nic_mac := FilterBytes(regs[SC_REG_MAC_LO / 4], regs[SC_REG_MAC_HI / 4]);
      var accepted := false;
      if |data| >= 14 {
        accepted := Bit(data[0], 0) || data[..6] == nic_mac;
      }
      if !accepted { return; }
      var delivered := ReceiveIntoRing(data);
      assert View() == PutRx(old(View()), Deliver(RxOf(old(View())), data));
      if delivered && Bit(regs[SC_REG_IRQ_EN / 4], IRQ_RX_BIT) {
        regs[SC_REG_IRQ_STS / 4] := Or32(regs[SC_REG_IRQ_STS / 4], SC_IRQ_RX);
        irqs := irqs + [1];
      }
    }
  }
}
