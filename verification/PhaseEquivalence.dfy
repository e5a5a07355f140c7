/** The Phase 2 QEMU device and the Phase 3 model (QEMU bridge, RegBlock, DmaEngine, SmartNic) side by
    side: a coupling relation, exactly which operations keep it, and what shows when one does not.
    The Phase 4 ring processes, which Phase 2 does not have, do not run here. */
module PhaseEquivalence {
  import opened Bits
  import opened GuestMemory
  import opened Protocol
  import opened DmaPath
  import opened DmaEngine
  import opened RegisterBlock
  import opened SmartNic
  import opened SmartEthPci
  import opened ScBridge

  /** A guest write of up to eight bytes, or the completion of the DMA in progress. */
  datatype Op = GuestWrite(addr: nat, val: u64) | DmaCompletes

  function Step2(p: Pci, op: Op): Pci {
    match op
    case GuestWrite(addr, val) => PciWrite(p, addr, val)
    case DmaCompletes => TimerFires(p)
  }

  function Step3(n: Nic, op: Op): (n': Nic)
    requires n.dma.len <= DMA_MAX_BUF
    ensures n'.dma.len <= DMA_MAX_BUF
  {
    match op
    case GuestWrite(addr, val) => if Forwarded(addr) then MmioWrite(n, addr, val % TWO32) else n
    case DmaCompletes => DmaStep(n)
  }

  predicate IrqWanted(ctrl: u32) { Bit(ctrl, DMA_IRQ_EN_BIT) }

  /** A pending command is the same on both sides, and so is the decision to interrupt: Phase 2
      latched it with the command, Phase 3 will look it up in the register. */
  predicate CommandsAgree(p: Pci, n: Nic) {
    && p.cmd.src == n.dma.src && p.cmd.dst == n.dma.dst && Min(p.cmd.len, DMA_MAX_BUF) == n.dma.len
    && Bit(p.cmd.ctrl, DMA_DIR_WRITE_BIT) == n.dma.dirWrite && Bit(p.cmd.ctrl, DMA_START_BIT)
    && IrqWanted(p.cmd.ctrl) == IrqWanted(Get(p.regs, SC_REG_DMA_CTRL))
  }

  predicate Coupled(p: Pci, n: Nic) {
    && p.regs == n.rb.regs && p.mac == n.rb.mac && p.buf == n.dma.buf
    && p.mem == n.port.mem && n.port.faults == [] && !n.dma.busy && n.dma.len <= DMA_MAX_BUF
    && p.timer == n.dmaPending
    && (p.timer ==> CommandsAgree(p, n))
  }

  lemma StartCoupled(mem: Memory)
    ensures Coupled(Realize(DEFAULT_MAC, mem), PowerOn(Port(mem, [])))
  {
  }

  /** Does this write change whether the DMA in progress will interrupt (without starting a new one)? */
  predicate DisturbsDma(p: Pci, addr: nat, val: u64) {
    && p.timer
    && if addr == SC_REG_CTRL && Bit(val, CTRL_RESET_BIT) then IrqWanted(p.cmd.ctrl)
       else
         && addr < SC_REG_COUNT && addr / 4 == SC_REG_DMA_CTRL / 4
         && !StartsDma(addr, val % TWO32)
         && IrqWanted(val % TWO32) != IrqWanted(p.cmd.ctrl)
  }

  /** An eight-byte write to IRQ_TEST whose low word is zero raises the interrupt in Phase 2 only. */
  predicate HighWordTest(p: Pci, addr: nat, val: u64) {
    addr == SC_REG_IRQ_TEST && val != 0 && val % TWO32 == 0 && !Bit(Get(p.regs, SC_REG_IRQ_STS), 1)
  }

  predicate Safe(p: Pci, op: Op) {
    op.DmaCompletes? || !(DisturbsDma(p, op.addr, op.val) || HighWordTest(p, op.addr, op.val))
  }

  // ---- One step ----

  lemma LowBits(val: u64)
    ensures Bit(val, 0) == Bit(val % TWO32, 0)
  {
  }

  lemma RaiseTest(regs: Regs)
    ensures RaiseIrq(regs, SC_IRQ_TEST) == regs <==> Bit(Get(regs, SC_REG_IRQ_STS), 1)
  {
    assert Pow2(1) == 2;
    SingleBit(Get(regs, SC_REG_IRQ_STS), 1);
    var regs' := RaiseIrq(regs, SC_IRQ_TEST);
    assert regs'[SC_REG_IRQ_STS / 4] == Or(Get(regs, SC_REG_IRQ_STS), 2);
  }

  /** Writes elsewhere than to the DMA control word. */
  lemma PlainWriteExact(p: Pci, n: Nic, addr: nat, val: u64)
    requires Coupled(p, n) && !StartsDma(addr, val % TWO32)
    ensures var p', n' := PciWrite(p, addr, val), Step3(n, GuestWrite(addr, val));
            Coupled(p', n') <==> Safe(p, GuestWrite(addr, val))
  {
    LowBits(val);
    if addr == SC_REG_IRQ_TEST { RaiseTest(p.regs); }
  }

  lemma StartWriteKeeps(p: Pci, n: Nic, addr: nat, val: u64)
    requires Coupled(p, n) && StartsDma(addr, val % TWO32)
    ensures Coupled(PciWrite(p, addr, val), Step3(n, GuestWrite(addr, val)))
  {
    LowBits(val);
  }

  lemma TransferAgrees(p: Pci, n: Nic)
    requires Coupled(p, n) && p.timer
    ensures Transferred(p).buf == StartedBuf(n.dma, n.port)
    ensures Port(Transferred(p).mem, []) == StartedPort(n.dma, n.port)
  {
    var len := n.dma.len;
    var data := n.dma.buf[..len];
    assert data[..Min(|data|, DMA_MAX_BUF)] == data;
    if !Bit(p.cmd.ctrl, DMA_DIR_WRITE_BIT) {
      assert Filled(n.port.mem, n.dma.src, data) == Fetch(n.port.mem, n.dma.src, len) + data[len..];
      if len == 0 { assert p.buf[0..] == p.buf; }
    }
  }

  lemma CompletionKeeps(p: Pci, n: Nic)
    requires Coupled(p, n)
    ensures Coupled(TimerFires(p), DmaStep(n))
  {
    if p.timer {
      TransferAgrees(p, n);
      assert Pow2(0) == 1;
      SingleBit(p.cmd.ctrl, 0);
      assert (p.cmd.ctrl - 1) / 2 == p.cmd.ctrl / 2;
    }
  }

  /** From coupled states, an operation leaves the two devices coupled just when it is safe. */
  lemma StepExact(p: Pci, n: Nic, op: Op)
    requires Coupled(p, n)
    ensures Coupled(Step2(p, op), Step3(n, op)) <==> Safe(p, op)
  {
    match op
    case GuestWrite(addr, val) =>
      if StartsDma(addr, val % TWO32) {
        StartWriteKeeps(p, n, addr, val);
      } else {
        PlainWriteExact(p, n, addr, val);
      }
    case DmaCompletes => CompletionKeeps(p, n);
  }

  // ---- Whole runs ----

  function Run2(p: Pci, ops: seq<Op>): Pci
    decreases |ops|
  {
    if |ops| == 0 then p else Run2(Step2(p, ops[0]), ops[1..])
  }

  function Run3(n: Nic, ops: seq<Op>): Nic
    requires n.dma.len <= DMA_MAX_BUF
    decreases |ops|
  {
    if |ops| == 0 then n else Run3(Step3(n, ops[0]), ops[1..])
  }

  predicate AllSafe(p: Pci, ops: seq<Op>)
    decreases |ops|
  {
    |ops| == 0 || (Safe(p, ops[0]) && AllSafe(Step2(p, ops[0]), ops[1..]))
  }

  /** Coupled at the start and after every operation. */
  predicate CoupledThroughout(p: Pci, n: Nic, ops: seq<Op>)
    requires n.dma.len <= DMA_MAX_BUF
    decreases |ops|
  {
    Coupled(p, n) && (|ops| == 0 || CoupledThroughout(Step2(p, ops[0]), Step3(n, ops[0]), ops[1..]))
  }

  /** The two devices stay coupled throughout a run just when every operation in it is safe. */
  lemma {:induction false} RunExact(p: Pci, n: Nic, ops: seq<Op>)
    requires Coupled(p, n)
    ensures CoupledThroughout(p, n, ops) <==> AllSafe(p, ops)
    ensures AllSafe(p, ops) ==> Coupled(Run2(p, ops), Run3(n, ops))
    decreases |ops|
  {
    if |ops| > 0 {
      StepExact(p, n, ops[0]);
      if Safe(p, ops[0]) { RunExact(Step2(p, ops[0]), Step3(n, ops[0]), ops[1..]); }
    }
  }

  /** Every DMA completes before the next write, and no write is an eight-byte IRQ_TEST write with
      an empty low word. */
  predicate OneAtATime(busy: bool, ops: seq<Op>)
    decreases |ops|
  {
    |ops| == 0
    || (ops[0].DmaCompletes? && OneAtATime(false, ops[1..]))
    || (ops[0].GuestWrite? && !busy && !(ops[0].addr == SC_REG_IRQ_TEST && ops[0].val != 0 && ops[0].val % TWO32 == 0)
        && OneAtATime(StartsDma(ops[0].addr, ops[0].val % TWO32), ops[1..]))
  }

  /** So from power-on, one operation at a time, the devices agree on registers, interrupt status,
      internal buffer and guest memory after any run, resets included. */
  lemma {:induction false} SequentialRunsAgree(p: Pci, n: Nic, ops: seq<Op>)
    requires Coupled(p, n) && OneAtATime(p.timer, ops)
    ensures AllSafe(p, ops) && Coupled(Run2(p, ops), Run3(n, ops))
    decreases |ops|
  {
    if |ops| > 0 {
      StepExact(p, n, ops[0]);
      if ops[0].GuestWrite? { LowBits(ops[0].val); }
      SequentialRunsAgree(Step2(p, ops[0]), Step3(n, ops[0]), ops[1..]);
    }
  }

  // ---- What shows when an operation is not safe ----

  /** The completion of a coupled-but-for-the-interrupt command. */
  lemma CompletionShows(p: Pci, n: Nic)
    requires p.timer && n.dmaPending && n.dma.len <= DMA_MAX_BUF && Bit(p.cmd.ctrl, DMA_START_BIT)
    requires Get(p.regs, SC_REG_IRQ_STS) == Get(n.rb.regs, SC_REG_IRQ_STS)
    requires !Bit(Get(p.regs, SC_REG_IRQ_STS), 0)
    requires IrqWanted(p.cmd.ctrl) != IrqWanted(Get(n.rb.regs, SC_REG_DMA_CTRL))
    ensures Bit(Get(TimerFires(p).regs, SC_REG_IRQ_STS), 0) == IrqWanted(p.cmd.ctrl)
    ensures Bit(Get(DmaStep(n).rb.regs, SC_REG_IRQ_STS), 0) != IrqWanted(p.cmd.ctrl)
  {
    assert Pow2(0) == 1;
    SingleBit(p.cmd.ctrl, 0);
    assert (p.cmd.ctrl - 1) / 2 == p.cmd.ctrl / 2;
    BitOr(Get(p.regs, SC_REG_IRQ_STS), SC_IRQ_DMA_DONE, 0);
  }

  /** An unsafe write is visible in IRQ_STS: at once if it is the high-word IRQ_TEST write, and
      otherwise when the DMA it disturbs completes after the DMA-done bit has been cleared. */
  lemma UnsafeShows(p: Pci, n: Nic, op: Op)
    requires Coupled(p, n) && !Safe(p, op)
    ensures var p1, n1 := Step2(p, op), Step3(n, op);
            var clear := GuestWrite(SC_REG_IRQ_STS, 1);
            var p2, n2 := Step2(p1, clear), Step3(n1, clear);
            if HighWordTest(p, op.addr, op.val) then
              Get(p1.regs, SC_REG_IRQ_STS) != Get(n1.rb.regs, SC_REG_IRQ_STS)
            else
              Get(TimerFires(p2).regs, SC_REG_IRQ_STS) != Get(DmaStep(n2).rb.regs, SC_REG_IRQ_STS)
  {
    var p1, n1 := Step2(p, op), Step3(n, op);
    LowBits(op.val);
    if HighWordTest(p, op.addr, op.val) {
      RaiseTest(p.regs);
    } else {
      var clear := GuestWrite(SC_REG_IRQ_STS, 1);
      var p2, n2 := Step2(p1, clear), Step3(n1, clear);
      BitAndNot(Get(p1.regs, SC_REG_IRQ_STS), 1, 0);
      CompletionShows(p2, n2);
    }
  }

  // ---- Reads ----

  /** Coupled devices answer every read alike, except for the busy bit: the Phase 3 model reports
      the engine's own flag, which is only ever set while a transfer is being carried out. */
  lemma ReadsExact(p: Pci, n: Nic, addr: nat)
    requires Coupled(p, n)
    ensures MmioRead(n, addr) == Read(p.regs, addr)
            <==> !(addr == SC_REG_DMA_STS && Bit(Get(p.regs, SC_REG_DMA_STS), 1))
  {
    if addr == SC_REG_DMA_STS {
      assert Pow2(1) == 2;
      SingleBit(Get(p.regs, SC_REG_DMA_STS), 1);
      AndZero(AndNot32(Get(p.regs, SC_REG_DMA_STS), 2));
    }
  }

  /** In particular the reads differ on DMA_STS as soon as a transfer has been started. */
  lemma BusyReadsDiffer(p: Pci, n: Nic, val: u64)
    requires Coupled(p, n) && Bit(val, DMA_START_BIT)
    ensures var op := GuestWrite(SC_REG_DMA_CTRL, val);
            Read(Step2(p, op).regs, SC_REG_DMA_STS) == SC_STATUS_DMA_BSY
            && MmioRead(Step3(n, op), SC_REG_DMA_STS) == 0
  {
    var op := GuestWrite(SC_REG_DMA_CTRL, val);
    LowBits(val);
    var n1 := Step3(n, op);
    assert Get(n1.rb.regs, SC_REG_DMA_STS) == 2;
    assert Pow2(1) == 2;
    SingleBit(2, 1);
    AndZero(0);
  }
}
