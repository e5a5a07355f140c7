/** firmware/qemu-dev/smarteth_pci.c: the Phase 2 device, registers and DMA in one QEMU object. */
module SmartEthPci {
  import opened Bits
  import opened GuestMemory
  import opened Protocol
  import opened DmaEngine
  import opened RegisterBlock

  /** The DMA command latched by smarteth_start_dma. */
  datatype Command = Command(src: u64, dst: u64, len: u32, ctrl: u32)

  datatype Pci = Pci(regs: Regs, mac: Mac, cmd: Command, timer: bool, buf: Buffer, mem: Memory)

  function Realize(mac: Mac, mem: Memory): Pci {
    Pci(StoreMac(ZeroRegs(), mac), mac, Command(0, 0, 0, 0), false, IdleDma().buf, mem)
  }

  /** smarteth_mmio_write. */
  function PciWrite(p: Pci, addr: nat, val: u64): Pci {
    var w: u32 := val % TWO32;
    if addr >= SC_REG_COUNT then p
    else if addr == SC_REG_CTRL then
      p.(regs := if Bit(val, CTRL_RESET_BIT) then StoreMac(ZeroRegs(), p.mac) else Set(p.regs, addr, w))
    else if addr == SC_REG_IRQ_STS then
      p.(regs := Set(p.regs, addr, AndNot32(Get(p.regs, addr), w)))
    else if addr == SC_REG_DMA_CTRL then
      var p1 := p.(regs := Set(p.regs, addr, w));
      if Bit(val, DMA_START_BIT) then StartDma(p1) else p1
    else if addr == SC_REG_IRQ_TEST then
      if val != 0 then p.(regs := RaiseIrq(p.regs, SC_IRQ_TEST)) else p
    else if addr == SC_REG_STATUS || addr == SC_REG_DEV_ID then p
    else p.(regs := Set(p.regs, addr, w))
  }

  function StartDma(p: Pci): Pci {
    p.(cmd := Command(Get(p.regs, SC_REG_DMA_SRC), Get(p.regs, SC_REG_DMA_DST),
                      Get(p.regs, SC_REG_DMA_LEN), Get(p.regs, SC_REG_DMA_CTRL)),
       regs := Set(p.regs, SC_REG_DMA_STS, SC_STATUS_DMA_BSY), timer := true)
  }

  function Transferred(p: Pci): Pci {
    var n := Min(p.cmd.len, DMA_MAX_BUF);
    if Bit(p.cmd.ctrl, DMA_DIR_WRITE_BIT) then p.(mem := Store(p.mem, p.cmd.dst, p.buf[..n]))
    else p.(buf := Fetch(p.mem, p.cmd.src, n) + p.buf[n..])
  }

  /** smarteth_dma_timer_cb, when the timer is armed. */
  function TimerFires(p: Pci): Pci {
    if !p.timer then p else
    if !Bit(p.cmd.ctrl, DMA_START_BIT) then p.(timer := false) else
    var p1 := Transferred(p);
    var ctrl := AndNot32(p.cmd.ctrl, 1);
    var regs := Set(p.regs, SC_REG_DMA_STS, 0);
    p1.(timer := false, cmd := p.cmd.(len := Min(p.cmd.len, DMA_MAX_BUF), ctrl := ctrl),
        regs := if Bit(ctrl, DMA_IRQ_EN_BIT) then RaiseIrq(regs, SC_IRQ_DMA_DONE) else regs)
  }

  /** How the device interrupts: MSI-X, MSI or the pin. */
  datatype Signal = Msix(vector: nat) | Msi(vector: nat) | Pin(level: bool)

  datatype Delivery = Delivery(msix: bool, msi: bool)

  /** smarteth_raise_irq's notification. */
  function Notified(via: Delivery, bits: u32): Signal {
    if via.msix then Msix(if Bit(bits, 0) then 0 else 1) else if via.msi then Msi(0) else Pin(true)
  }

  /** The signals of a write: a test raises one; clearing the last pending bit lowers the pin, without MSI-X. */
  function WriteSignals(p: Pci, via: Delivery, addr: nat, val: u64): seq<Signal> {
    if addr == SC_REG_IRQ_TEST && val != 0 then [Notified(via, SC_IRQ_TEST)]
    else if addr == SC_REG_IRQ_STS && !via.msix && Get(PciWrite(p, addr, val).regs, addr) == 0 then [Pin(false)]
    else []
  }

  /** The signals of a completion. */
  function TimerSignals(p: Pci, via: Delivery): seq<Signal> {
    if p.timer && Bit(p.cmd.ctrl, DMA_START_BIT) && Bit(AndNot32(p.cmd.ctrl, 1), DMA_IRQ_EN_BIT)
    then [Notified(via, SC_IRQ_DMA_DONE)] else []
  }

  /** The interrupt, whatever carries it: with MSI-X its own vector, otherwise MSI message 0 or the raised pin. */
  function By(via: Delivery, vector: nat): Signal {
    if via.msix then Msix(vector) else if via.msi then Msi(0) else Pin(true)
  }

  /** A write to IRQ_TEST (0x200) of anything but 0 signals vector 1; acknowledging every pending bit at IRQ_STS
      (0x00C) lowers the pin, without MSI-X; no other write signals anything. */
  lemma WriteSignalsExact(p: Pci, via: Delivery, addr: nat, val: u64)
    ensures WriteSignals(p, via, addr, val)
            == if addr == 0x200 && val != 0 then [By(via, 1)]
               else if addr == 0x00C && !via.msix
                       && (forall k: nat :: Bit(Get(p.regs, 0x00C), k) ==> Bit(val % 0x1_0000_0000, k))
               then [Pin(false)] else []
  {
    AllBitsCleared(Get(p.regs, SC_REG_IRQ_STS), val % TWO32);
  }

  /** A completed DMA signals vector 0 if its command word has bits 0 and 2 set. */
  lemma TimerSignalsExact(p: Pci, via: Delivery)
    ensures TimerSignals(p, via)
            == if p.timer && Bit(p.cmd.ctrl, 0) && Bit(p.cmd.ctrl, 2) then [By(via, 0)] else []
  {
    assert Pow2(0) == 1;
    BitCleared(p.cmd.ctrl, 0, DMA_IRQ_EN_BIT);
  }

  /** A completion spends the command: of its control word only bit 0 is cleared, its length is what was moved, the
      busy word is cleared, and a second completion without a new command does nothing. */
  lemma CommandSpent(p: Pci, k: nat)
    requires p.timer && Bit(p.cmd.ctrl, 0)
    ensures var p' := TimerFires(p);
            && (Bit(p'.cmd.ctrl, k) <==> Bit(p.cmd.ctrl, k) && k != 0)
            && p'.cmd == p.cmd.(len := if p.cmd.len < 4096 then p.cmd.len else 4096, ctrl := p'.cmd.ctrl)
            && Get(p'.regs, 0x05C) == 0 && !p'.timer && TimerFires(p') == p'
  {
    assert Pow2(0) == 1;
    BitCleared(p.cmd.ctrl, 0, k);
  }

  class SmartEth {
    const via: Delivery
    var signals: seq<Signal>
    const regs: array<u32>
    const mac_addr: array<u8>
    var dma_src: u64
    var dma_dst: u64
    var dma_len: u32
    var dma_ctrl: u32
    var dma_timer: bool
    const dma_buf: array<u8>
    var mem: Memory          // guest memory, as pci_dma_read/write reach it

    ghost predicate Valid()
      reads this
    {
      && regs.Length == REG_WORDS && mac_addr.Length == 6 && dma_buf.Length == DMA_MAX_BUF
      && dma_buf != mac_addr && regs as object != dma_buf as object && regs as object != mac_addr as object
    }

    ghost function View(): Pci
      requires Valid()
      reads this, regs, mac_addr, dma_buf
    {
      Pci(regs[..], mac_addr[..], Command(dma_src, dma_dst, dma_len, dma_ctrl), dma_timer, dma_buf[..], mem)
    }

    constructor (mac: Mac, mem: Memory, via: Delivery)
      ensures Valid() && View() == Realize(mac, mem) && this.via == via && signals == []
    {
      this.via := via;
      signals := [];
      regs := new u32[REG_WORDS](_ => 0);
      mac_addr := new u8[6](i requires 0 <= i < 6 => mac[i]);
      dma_buf := new u8[DMA_MAX_BUF](_ => 0);
      dma_src, dma_dst, dma_len, dma_ctrl, dma_timer := 0, 0, 0, 0, false;
      this.mem := mem;
      new;
      assert mac_addr[..] == mac;
      assert regs[..] == ZeroRegs();
      assert dma_buf[..] == IdleDma().buf;
      LoadMacRegisters();
    }

    method LoadMacRegisters()
      requires Valid()
      modifies regs
      ensures regs[..] == StoreMac(old(regs[..]), mac_addr[..])
    {
      regs[SC_REG_MAC_LO / 4] := MacLo(mac_addr[..]);
      regs[SC_REG_MAC_HI / 4] := MacHi(mac_addr[..]);
    }

    method MmioRead(addr: nat) returns (val: u32)
      requires Valid()
      ensures val == Read(regs[..], addr)
    {
      if addr >= SC_REG_COUNT { return 0; }
      if addr == SC_REG_DEV_ID {
        val := SC_DEV_ID;
      } else if addr == SC_REG_STATUS {
        val := SC_STATUS_READY;
      } else {
        val := regs[addr / 4];
      }
    }

    method MmioWrite(addr: nat, val: u64)
      requires Valid()
      modifies this, regs
      ensures Valid() && View() == PciWrite(old(View()), addr, val)
      ensures signals == old(signals) + WriteSignals(old(View()), via, addr, val)
    {
      if addr >= SC_REG_COUNT { return; }
      if addr == SC_REG_CTRL {
        if Bit(val, CTRL_RESET_BIT) {
          forall i | 0 <= i < regs.Length { regs[i] := 0; }
          assert regs[..] == ZeroRegs();
          LoadMacRegisters();
        } else {
          regs[SC_REG_CTRL / 4] := val % TWO32;
        }
      } else if addr == SC_REG_IRQ_STS {
        regs[SC_REG_IRQ_STS / 4] := AndNot32(regs[SC_REG_IRQ_STS / 4], val % TWO32);
        if regs[SC_REG_IRQ_STS / 4] == 0 && !via.msix { signals := signals + [Pin(false)]; }
      } else if addr == SC_REG_DMA_CTRL {
        regs[SC_REG_DMA_CTRL / 4] := val % TWO32;
        if Bit(val, DMA_START_BIT) { ArmDma(); }
      } else if addr == SC_REG_IRQ_TEST {
        if val != 0 { RaiseIrqBits(SC_IRQ_TEST); }
      } else if addr != SC_REG_STATUS && addr != SC_REG_DEV_ID {
        regs[addr / 4] := val % TWO32;
      }
    }

    /** smarteth_raise_irq. */
    method RaiseIrqBits(bits: u32)
      requires Valid()
      modifies this`signals, regs
      ensures regs[..] == RaiseIrq(old(regs[..]), bits) && signals == old(signals) + [Notified(via, bits)]
    {
      regs[SC_REG_IRQ_STS / 4] := Or32(regs[SC_REG_IRQ_STS / 4], bits);
      if via.msix {
        signals := signals + [Msix(if Bit(bits, 0) then 0 else 1)];
      } else if via.msi {
        signals := signals + [Msi(0)];
      } else {
        signals := signals + [Pin(true)];
      }
    }

    /** smarteth_start_dma. */
    method ArmDma()
      requires Valid()
      modifies this`dma_src, this`dma_dst, this`dma_len, this`dma_ctrl, this`dma_timer, regs
      ensures Valid() && View() == StartDma(old(View()))
    {
      dma_src := regs[SC_REG_DMA_SRC / 4];
      dma_dst := regs[SC_REG_DMA_DST / 4];
      dma_len := regs[SC_REG_DMA_LEN / 4];
      dma_ctrl := regs[SC_REG_DMA_CTRL / 4];
      regs[SC_REG_DMA_STS / 4] := SC_STATUS_DMA_BSY;
      dma_timer := true;
    }

    /** The transfer inside the timer callback. */
    method Transfer()
      requires Valid() && dma_len <= DMA_MAX_BUF
      modifies this`mem, dma_buf
      ensures Valid() && View() == Transferred(old(View()))
    {
      if Bit(dma_ctrl, DMA_DIR_WRITE_BIT) {
        mem := Store(mem, dma_dst, dma_buf[..dma_len]);
      } else {
        ghost var before := dma_buf[..];
        var data := Fetch(mem, dma_src, dma_len);
        forall i | 0 <= i < dma_len { dma_buf[i] := data[i]; }
        assert dma_buf[..] == data + before[dma_len..];
      }
    }

    /** smarteth_dma_timer_cb. */
    method TimerCallback()
      requires Valid()
      modifies this, regs, dma_buf
      ensures Valid() && View() == TimerFires(old(View()))
      ensures signals == old(signals) + TimerSignals(old(View()), via)
    {
      if !dma_timer { return; }
      dma_timer := false;
      if !Bit(dma_ctrl, DMA_START_BIT) { return; }
      if dma_len > DMA_MAX_BUF { dma_len := DMA_MAX_BUF; }
      Transfer();
      dma_ctrl := AndNot32(dma_ctrl, 1);
      regs[SC_REG_DMA_STS / 4] := 0;
      if Bit(dma_ctrl, DMA_IRQ_EN_BIT) { RaiseIrqBits(SC_IRQ_DMA_DONE); }
    }
  }
}
