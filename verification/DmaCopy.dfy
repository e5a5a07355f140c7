/** The DMA engine as the driver uses it: four register writes and a completion. A transfer in and a transfer out
    copy guest memory through the engine's buffer. Register addresses are those of sim/systemc/src/protocol.h. */
module DmaCopy {
  import opened Bits
  import opened GuestMemory
  import opened Protocol
  import opened DmaPath
  import opened DmaEngine
  import opened RegisterBlock
  import opened SmartNic
  import opened Interrupts

  /** An engine at rest, with no access about to fail. */
  predicate Ready(n: Nic) { !n.dmaPending && !n.dma.busy && n.dma.len <= DMA_MAX_BUF && n.port.faults == [] }

  /** DMA_SRC, DMA_DST, DMA_LEN, and the control word last. */
  function Commanded(n: Nic, src: u32, dst: u32, len: u32, ctrl: u32): Nic {
    MmioWrite(MmioWrite(MmioWrite(MmioWrite(n, 0x040, src), 0x048, dst), 0x050, len), 0x058, ctrl)
  }

  lemma CommandedIs(n: Nic, src: u32, dst: u32, len: u32, ctrl: u32)
    requires Ready(n) && Bit(ctrl, 0)
    ensures var n1, m := Commanded(n, src, dst, len, ctrl), if len < 4096 then len else 4096;
            && n1.dmaPending && n1.port == n.port && n1.irqs == n.irqs
            && n1.dma == Dma(src, dst, m, Bit(ctrl, 1), false, n.dma.buf)
            && Reg(n1, 0x058) == ctrl && Reg(n1, 0x05C) == 2
  {
  }

  /** What a transfer of at most 4096 bytes does to buffer and memory. */
  ghost predicate Moved(n: Nic, n': Nic, src: nat, dst: nat, m: nat, out: bool)
    requires m <= 4096
  {
    && n'.port.faults == []
    && if out then
         && n'.dma.buf == n.dma.buf
         && forall a: nat {:trigger Load(n'.port.mem, a)} ::
              Load(n'.port.mem, a) == if dst <= a < dst + m then n.dma.buf[a - dst] else Load(n.port.mem, a)
       else n'.port.mem == n.port.mem && n'.dma.buf == Fetch(n.port.mem, src, m) + n.dma.buf[m..]
  }

  lemma StartedMoves(n: Nic)
    requires n.dma.len <= DMA_MAX_BUF && !n.dma.busy && n.port.faults == []
    ensures Moved(n, n.(dma := n.dma.(buf := StartedBuf(n.dma, n.port)), port := StartedPort(n.dma, n.port)),
                  n.dma.src, n.dma.dst, n.dma.len, n.dma.dirWrite)
  {
    var data := n.dma.buf[..n.dma.len];
    assert data[..Min(|data|, DMA_MAX_BUF)] == data;
    if n.dma.len == 0 { assert Fetch(n.port.mem, n.dma.src, 0) + n.dma.buf[0..] == n.dma.buf; }
  }

  /** A whole transfer: bit 1 of the control word is its direction, at most 4096 bytes are moved, the status word
      goes back to 0 and the engine to rest; with bit 2 set it interrupts, setting bit 0 of IRQ_STS, by vector 0. */
  lemma TransferExact(n: Nic, src: u32, dst: u32, len: u32, ctrl: u32)
    requires Ready(n) && Bit(ctrl, 0)
    ensures var n1 := Commanded(n, src, dst, len, ctrl);
            && n1.dma.len <= DMA_MAX_BUF
            && var n' := DmaStep(n1);
               && Moved(n, n', src, dst, if len < 4096 then len else 4096, Bit(ctrl, 1))
               && Ready(n') && Reg(n1, 0x05C) == 2 && Reg(n', 0x05C) == 0
               && (if Bit(ctrl, 2) then Bit(Reg(n', 0x00C), 0) && n'.irqs == n.irqs + [0] else n'.irqs == n.irqs)
  {
    var n1 := Commanded(n, src, dst, len, ctrl);
    CommandedIs(n, src, dst, len, ctrl);
    StartedMoves(n1);
    DmaDoneInterrupts(n1);
  }

  /** A transfer in, and when it is done a transfer out. */
  function Copied(n: Nic, src: u32, dst: u32, len: u32, ctrlIn: u32, ctrlOut: u32): Nic
    requires Ready(n) && Bit(ctrlIn, 0) && Bit(ctrlOut, 0)
  {
    TransferExact(n, src, 0, len, ctrlIn);
    var n1 := DmaStep(Commanded(n, src, 0, len, ctrlIn));
    TransferExact(n1, 0, dst, len, ctrlOut);
    DmaStep(Commanded(n1, 0, dst, len, ctrlOut))
  }

  /** Together they copy guest memory: the bytes at dst become those at src, up to 4096 of them, and no other byte
      changes, overlapping ranges included. */
  lemma CopyExact(n: Nic, src: u32, dst: u32, len: u32, ctrlIn: u32, ctrlOut: u32)
    requires Ready(n) && Bit(ctrlIn, 0) && Bit(ctrlOut, 0) && !Bit(ctrlIn, 1) && Bit(ctrlOut, 1)
    ensures var m, mem, mem' := if len < 4096 then len else 4096, n.port.mem,
                                Copied(n, src, dst, len, ctrlIn, ctrlOut).port.mem;
            && Fetch(mem', dst, m) == Fetch(mem, src, m)
            && forall a: nat {:trigger Load(mem', a)} :: !(dst <= a < dst + m) ==> Load(mem', a) == Load(mem, a)
  {
    var n1 := DmaStep(Commanded(n, src, 0, len, ctrlIn));
    TransferExact(n, src, 0, len, ctrlIn);
    TransferExact(n1, 0, dst, len, ctrlOut);
  }
}
