/** Who raises which interrupt, in literal bits and vectors: four sources set bits 0 to 3 of IRQ_STS (0x00C) and
    send one MSI-X message, three of them only when enabled. Register addresses are those of
    sim/systemc/src/protocol.h. */
module Interrupts {
  import opened Bits
  import opened Protocol
  import opened DmaPath
  import opened DmaEngine
  import opened RegisterBlock
  import opened Rings
  import opened SmartNic

  /** n' is n after one interrupt: bit b of IRQ_STS is set, its other bits and all other registers are as they
      were, one message for the vector has been sent, and nothing else has changed. */
  ghost predicate Interrupted(n: Nic, n': Nic, b: nat, vector: u32) {
    && (forall k: nat :: Bit(Reg(n', 0x00C), k) <==> Bit(Reg(n, 0x00C), k) || k == b)
    && n'.irqs == n.irqs + [vector]
    && (forall i :: 0 <= i < REG_WORDS && i != 3 ==> n'.rb.regs[i] == n.rb.regs[i])
    && n' == n.(rb := RegState(n'.rb.regs, n.rb.mac), irqs := n'.irqs)
  }

  lemma Raised(n: Nic, bits: u32, b: nat, vector: u32)
    requires bits == Pow2(b)
    ensures Interrupted(n, WithRegs(n, RaiseIrq(n.rb.regs, bits)).(irqs := n.irqs + [vector]), b, vector)
  {
    forall k: nat ensures Bit(Or32(Reg(n, SC_REG_IRQ_STS), bits), k) <==> Bit(Reg(n, SC_REG_IRQ_STS), k) || k == b {
      BitSet(Reg(n, SC_REG_IRQ_STS), b, k);
    }
  }

  lemma SmallPowers()
    ensures Pow2(0) == 1 && Pow2(1) == 2 && Pow2(2) == 4 && Pow2(3) == 8
  {
  }

  /** Transmission done: bit 2, vector 1, if bit 2 of IRQ_EN (0x008) is set. */
  lemma TxDoneInterrupts(n: Nic)
    ensures if Bit(Reg(n, 0x008), 2) then Interrupted(n, TxDone(n), 2, 1) else TxDone(n) == n
  {
    SmallPowers();
    Raised(n, SC_IRQ_TX_DONE, 2, 1);
  }

  /** Packet received: bit 3, vector 1, if bit 3 of IRQ_EN is set. */
  lemma RxDoneInterrupts(n: Nic)
    ensures if Bit(Reg(n, 0x008), 3) then Interrupted(n, RxDone(n), 3, 1) else RxDone(n) == n
  {
    SmallPowers();
    Raised(n, SC_IRQ_RX, 3, 1);
  }

  /** A write to IRQ_TEST (0x200): bit 1, vector 0, if the value is not zero. */
  lemma TestInterrupts(n: Nic, val: u32)
    ensures if val != 0 then Interrupted(n, MmioWrite(n, 0x200, val), 1, 0) else MmioWrite(n, 0x200, val) == n
  {
    SmallPowers();
    Raised(n, SC_IRQ_TEST, 1, 0);
  }

  /** The device after the transfer of a pending DMA, not yet having interrupted: the busy word is cleared. */
  function TransferDone(n: Nic): Nic
    requires n.dma.len <= 4096
  {
    WithRegs(n, Set(n.rb.regs, 0x05C, 0))
    .(dma := n.dma.(buf := StartedBuf(n.dma, n.port)), port := StartedPort(n.dma, n.port), dmaPending := false)
  }

  /** DMA done: bit 0, vector 0, if bit 2 of DMA_CTRL (0x058) is set by then. */
  lemma DmaDoneInterrupts(n: Nic)
    requires n.dma.len <= 4096 && n.dmaPending
    ensures if Bit(Reg(n, 0x058), 2) then Interrupted(TransferDone(n), DmaStep(n), 0, 0)
            else DmaStep(n) == TransferDone(n)
  {
    SmallPowers();
    Raised(TransferDone(n), SC_IRQ_DMA_DONE, 0, 0);
  }

  /** A write to IRQ_STS takes away the bits written, and only those, and sends vector 0. */
  lemma AckInterrupts(n: Nic, val: u32)
    ensures var n' := MmioWrite(n, 0x00C, val);
            && (forall k: nat :: Bit(Reg(n', 0x00C), k) <==> Bit(Reg(n, 0x00C), k) && !Bit(val, k))
            && (forall i :: 0 <= i < REG_WORDS && i != 3 ==> n'.rb.regs[i] == n.rb.regs[i])
            && n' == n.(rb := RegState(n'.rb.regs, n.rb.mac), irqs := n.irqs + [0])
  {
    forall k: nat ensures Bit(Reg(MmioWrite(n, 0x00C, val), 0x00C), k) <==> Bit(Reg(n, 0x00C), k) && !Bit(val, k) {
      BitAndNot(Reg(n, 0x00C), val, k);
    }
  }

  // ---- What the registers read ----

  /** Whatever has been written: the identification word, a ready status, nothing beyond the window. */
  lemma FixedReads(st: RegState, writes: seq<(nat, u32)>, addr: nat)
    ensures var regs := WriteAll(st, writes).regs;
            && Read(regs, 0x100) == 0x5241_4D53 && Read(regs, 0x004) == 1
            && (addr >= 0x400 ==> Read(regs, addr) == 0)
  {
  }

  /** Registers without a function of their own, the scratch registers (0x020 to 0x02C) among them, read back what
      was last written, whatever is written to registers in other words meanwhile, short of a reset. */
  lemma {:induction false} ReadsBack(st: RegState, addr: nat, val: u32, writes: seq<(nat, u32)>)
    requires addr < 0x400 && addr !in {0x000, 0x004, 0x00C, 0x100, 0x200}
    requires forall i :: 0 <= i < |writes| ==> Leaves(writes[i], addr)
    ensures Read(WriteAll(Write(st, addr, val), writes).regs, addr) == val
  {
    Untouched(Write(st, addr, val), addr, writes);
  }

  /** Writes to another word that do not reset; a write to IRQ_TEST lands in IRQ_STS. */
  predicate Leaves(write: (nat, u32), addr: nat) {
    && write.0 / 4 != addr / 4 && !(write.0 == 0x000 && Bit(write.1, 0))
    && !(write.0 == 0x200 && addr / 4 == 3)
  }

  lemma {:induction false} Untouched(st: RegState, addr: nat, writes: seq<(nat, u32)>)
    requires addr < 0x400 && forall i :: 0 <= i < |writes| ==> Leaves(writes[i], addr)
    ensures Get(WriteAll(st, writes).regs, addr) == Get(st.regs, addr)
    decreases |writes|
  {
    if |writes| > 0 {
      var (a, v) := writes[0];
      assert Leaves(writes[0], addr);
      assert Get(Write(st, a, v).regs, addr) == Get(st.regs, addr);
      Untouched(Write(st, a, v), addr, writes[1..]);
    }
  }

  /** The power-on MAC registers, for 52:54:00:12:34:56. */
  lemma PowerOnMac(port: Port)
    ensures MmioRead(PowerOn(port), 0x010) == 0x1200_5452 && MmioRead(PowerOn(port), 0x014) == 0x5634
  {
  }

  /** The DMA status word reads as stored, but for bit 1, which says whether the engine is busy. */
  lemma DmaStatusReads(n: Nic, k: nat)
    ensures Bit(MmioRead(n, 0x05C), k) <==> if k == 1 then n.dma.busy else Bit(Reg(n, 0x05C), k)
  {
    var sts := Reg(n, 0x05C);
    SmallPowers();
    BitCleared(sts, 1, k);
    if n.dma.busy {
      BitSet(AndNot(sts, 2), 1, k);
    } else {
      AndZero(AndNot(sts, 2));
    }
  }
}
