/** From the driver's doorbell write to the wire: the write is the one the protocol delivers, and what
    smarteth_test_tx (firmware/host-driver/driver/smarteth_main.c) posts is what the device sends. */
module TxEndToEnd {
  import opened Bits
  import opened GuestMemory
  import opened Protocol
  import opened DmaPath
  import opened Rings
  import opened RingMemory
  import opened SmartNic
  import opened Interrupts
  import opened TxDrainSpec
  import opened Driver
  import P = TxProtocol

  /** The protocol's delivery of a doorbell write is that register write on the device, and it wakes the process
      just when the value is not 0. */
  lemma BellIsWrite(s: P.State, n: Nic)
    requires P.Enabled(s, P.DeliverBell) && TxOf(n) == s.x
    ensures var s' := P.Do(s, P.DeliverBell);
            && s'.x == TxOf(MmioWrite(n, 0x30C, s.bells[0]))
            && (s'.awake <==> s.awake || s.bells[0] > 0) && s'.bells == s.bells[1..]
            && s' == s.(x := s'.x, awake := s'.awake, bells := s'.bells)
  {
    DoorbellWrite(n, s.bells[0]);
  }

  /** What one doorbell write of 1 sends, with the packet posted at head: that packet if the device is next to look
      there; otherwise the older packet at the tail, if one has been left there. */
  function Outgoing(m: Memory, s: seq<Desc>, tail: nat, head: nat, dma: u64, length: u32): seq<Frame>
    requires tail < |s|
  {
    if tail == head then [FrameOf(m, Desc(dma, length, DESC_OWN))]
    else if Own(s[tail]) then [FrameOf(m, s[tail])] else []
  }

  /** x is a woken device with a doorbell of 1, after a packet has been posted at head into ring memory m. */
  ghost predicate JustPosted(x: Tx, m: Memory, head: nat, dma: u64, length: u32) {
    && x.pending && x.doorbell == 1 && WellFormed(x.ring) && x.port.faults == [] && head < x.ring.size
    && SameOutside(m, x.port.mem, x.ring.base, x.ring.size)
    && SlotsOf(x) == Slots(m, x.ring.base, x.ring.size)[head := Desc(dma, length, DESC_OWN)]
    && BuffersOutside(Slots(m, x.ring.base, x.ring.size), x.ring.base)
    && Disjoint(dma, Min(length, DMA_MAX_BUF), x.ring.base, x.ring.size * DESC_BYTES)
  }

  lemma SentOne(w: seq<Frame>, w': seq<Frame>, mem: Memory, s: seq<Desc>, t: nat, count: nat)
    requires t < |s| && count <= 1 && Sent(w, w', mem, s, t, count)
    ensures w' == w + if count == 1 then [FrameOf(mem, s[t])] else []
  {
    if count == 1 {
      assert w'[|w| + 0] == FrameOf(mem, s[After(t, 0, |s|)]);
      assert w' == w'[..|w|] + [w'[|w|]];
    } else {
      assert w' == w'[..|w|];
    }
  }

  /** What a woken device with a doorbell of 1 has sent when it is done. */
  ghost predicate SentTail(x: Tx, x': Tx, out: seq<Frame>)
    requires x.ring.size > 0
  {
    && x'.wire == x.wire + out && x'.doorbell == 1 - |out| && !x'.pending
    && x'.ring == x.ring.(tail := (x.ring.tail + |out|) % x.ring.size)
  }

  /** What the tail slot holds for the device. */
  function AtTail(x: Tx): seq<Frame>
    requires x.ring.tail < x.ring.size
  {
    var d := SlotsOf(x)[x.ring.tail];
    if Own(d) then [FrameOf(x.port.mem, d)] else []
  }

  lemma OneDrained(x: Tx, x': Tx)
    requires Ready(x) && x.doorbell == 1 && Drained(x, x')
    ensures SentTail(x, x', AtTail(x))
  {
    var s, t := SlotsOf(x), x.ring.tail;
    assert OwnRun(s, t, |s|) >= 1 <==> Own(s[t]);
    SentOne(x.wire, x'.wire, x.port.mem, s, t, DrainCount(s, t, 1));
  }

  lemma TailBack(x: Tx, x': Tx)
    requires Ready(x) && x.doorbell == 1 && Own(SlotsOf(x)[x.ring.tail]) && Drained(x, x')
    ensures |SlotsOf(x')| == x.ring.size && WrittenBack(SlotsOf(x)[x.ring.tail], SlotsOf(x')[x.ring.tail])
  {
    var s, t := SlotsOf(x), x.ring.tail;
    assert DrainCount(s, t, 1) == 1;
    assert t == After(t, 0, |s|);
    CompletedExact(s[t]);
  }

  lemma ReadyAfterPost(x: Tx, m: Memory, head: nat, dma: u64, length: u32)
    requires JustPosted(x, m, head, dma, length)
    ensures Ready(x)
  {
  }

  /** The post shows in the tail slot only if the head is there; the bytes are those in memory before it. */
  lemma TailAfterPost(x: Tx, m: Memory, head: nat, dma: u64, length: u32)
    requires JustPosted(x, m, head, dma, length)
    ensures AtTail(x) == Outgoing(m, Slots(m, x.ring.base, x.ring.size), x.ring.tail, head, dma, length)
  {
    var d := SlotsOf(x)[x.ring.tail];
    if Own(d) { FrameUnaffected(m, x.port.mem, x.ring.base, x.ring.size, d); }
  }

  /** A post and the drain it causes: the packet goes out if the tail is where it was posted, and its slot is then
      handed back; otherwise the older packet at the tail goes out in its place, or nothing. */
  lemma PostedIsSent(x: Tx, m: Memory, head: nat, dma: u64, length: u32)
    requires JustPosted(x, m, head, dma, length)
    ensures SentTail(x, Drain(x), Outgoing(m, Slots(m, x.ring.base, x.ring.size), x.ring.tail, head, dma, length))
    ensures x.ring.tail == head ==>
              head < |SlotsOf(Drain(x))| && WrittenBack(Desc(dma, length, DESC_OWN), SlotsOf(Drain(x))[head])
  {
    ReadyAfterPost(x, m, head, dma, length);
    TailAfterPost(x, m, head, dma, length);
    DrainMeetsSpec(x);
    OneDrained(x, Drain(x));
    if x.ring.tail == head { TailBack(x, Drain(x)); }
  }

  // ---- smarteth_test_tx ----

  /** x' is x after a post at head into memory m and the device's turn. */
  ghost predicate Tested(x: Tx, x': Tx, m: Memory, head: nat, dma: u64, length: u32)
    requires x.ring.tail < x.ring.size
  {
    var out := Outgoing(m, Slots(m, x.ring.base, x.ring.size), x.ring.tail, head, dma, length);
    && x'.wire == x.wire + out && x'.ring == x.ring.(tail := (x.ring.tail + |out|) % x.ring.size)
    && (x.ring.tail == head ==>
          && head < |SlotsOf(x')| && WrittenBack(Desc(dma, length, DESC_OWN), SlotsOf(x')[head])
          && (length <= 4096 ==> x'.wire == x.wire + [Fetch(m, dma, length)]))
  }

  lemma PostedTests(x0: Tx, x: Tx, m: Memory, head: nat, dma: u64, length: u32)
    requires JustPosted(x, m, head, dma, length) && x.ring == x0.ring && x.wire == x0.wire
    ensures Tested(x0, Drain(x), m, head, dma, length)
  {
    PostedIsSent(x, m, head, dma, length);
    ReadIsExact(dma, length);
  }

  /** A turn of the transmit process is a drain of its ring, and raises TX-done (bit 2, vector 1) if enabled. */
  lemma TurnIs(n: Nic)
    requires Drain(TxOf(n)).ring.base == TxOf(n).ring.base && Drain(TxOf(n)).ring.size == TxOf(n).ring.size
    ensures var n' := TxDone(TxDrain(n));
            && TxOf(n') == Drain(TxOf(n))
            && if Bit(Reg(n, 0x008), 2) then Interrupted(TxDrain(n), n', 2, 1) else n' == TxDrain(n)
  {
    TxDoneInterrupts(TxDrain(n));
    assert TxOf(TxDrain(n)) == Drain(TxOf(n));
  }

  lemma BitMeansNotZero(x: u32, k: nat)
    requires Bit(x, k)
    ensures x != 0
  {
    if x == 0 { ZeroHasNoBits(k); }
  }

  /** The device and driver agree on where the transmit ring is, and no access fails. */
  ghost predicate TxReady(adapter: Adapter, nic: Device)
    reads adapter, adapter.kernel, adapter.memory, nic, nic.m_regs, nic.m_regs.m_regs, nic.m_regs.m_mac
    reads nic.m_dma, nic.m_dma.m_buf, nic.bridge
  {
    && adapter.Valid() && nic.Valid() && nic.bridge == adapter.memory && adapter.memory.faults == []
    && var r := TxOf(nic.View()).ring;
       && WellFormed(r) && r.base == adapter.tx_ring && r.size == RING_SIZE
       && BuffersOutside(Slots(adapter.memory.mem, r.base, r.size), r.base)
  }

  /** smarteth_test_tx up to the wait. */
  method Post(adapter: Adapter, nic: Device, dma: u64, length: u32)
    requires TxReady(adapter, nic)
    requires Disjoint(dma, Min(length, DMA_MAX_BUF), adapter.tx_ring, RING_SIZE * DESC_BYTES)
    modifies adapter`tx_head, adapter.memory`mem, nic, nic.m_regs, nic.m_regs.m_regs, nic.m_dma
    ensures adapter.Valid() && nic.Valid() && nic.m_tx_event
    ensures adapter.tx_head == (old(adapter.tx_head) + 1) % RING_SIZE
    ensures JustPosted(TxOf(nic.View()), old(adapter.memory.mem), old(adapter.tx_head), dma, length)
    ensures TxOf(nic.View()).ring == old(TxOf(nic.View())).ring && nic.wire == old(nic.wire)
    ensures Reg(nic.View(), 0x008) == Reg(old(nic.View()), 0x008)
  {
    ghost var n := nic.View();
    adapter.PostTx(nic, dma, length);
    DoorbellWrite(n.(port := adapter.memory.View()), 1);
  }

  /** The device's turn while the driver waits, from a state in which a packet has just been posted. */
  method DeviceTurn(nic: Device, ghost x0: Tx, ghost m: Memory, ghost head: nat, ghost dma: u64, ghost length: u32)
    requires nic.Valid() && nic.m_tx_event && JustPosted(TxOf(nic.View()), m, head, dma, length)
    requires TxOf(nic.View()).ring == x0.ring && nic.wire == x0.wire
    modifies nic, nic.m_regs.m_regs, nic.bridge
    ensures nic.Valid()
    ensures Tested(x0, TxOf(nic.View()), m, head, dma, length)
    ensures Bit(Reg(old(nic.View()), 0x008), 2) ==> Bit(Reg(nic.View(), 0x00C), 2)
  {
    ghost var n := nic.View();
    PostedTests(x0, TxOf(n), m, head, dma, length);
    TurnIs(n);
    nic.ProcessTx();
  }

  /** The interrupt handler while the driver waits: it ends the wait if TX-done is up, and leaves the ring alone. */
  method Handle(adapter: Adapter, nic: Device)
    requires adapter.Valid() && nic.Valid() && nic.bridge == adapter.memory
    modifies adapter`irq_count, adapter`completions, nic, nic.m_regs, nic.m_regs.m_regs, nic.m_dma
    ensures adapter.Valid() && nic.Valid() && TxOf(nic.View()) == old(TxOf(nic.View()))
    ensures Bit(Reg(old(nic.View()), 0x00C), 2) ==> adapter.completions > old(adapter.completions)
  {
    ghost var sts := Reg(nic.View(), 0x00C);
    if Bit(sts, 2) { BitMeansNotZero(sts, 2); }
    var _ := adapter.IrqHandler(nic);
  }

  /** smarteth_test_tx, with the device's turn and the interrupt handler in its wait: what goes out is Outgoing, so
      the packet itself exactly if the head was at the tail; its slot is then handed back. The tail the test reads
      has moved by what was sent, and with TX-done enabled the wait is ended. */
  method TestTx(adapter: Adapter, nic: Device, dma: u64, length: u32) returns (tail_before: u32, tail_after: u32)
    requires TxReady(adapter, nic)
    requires Disjoint(dma, Min(length, DMA_MAX_BUF), adapter.tx_ring, RING_SIZE * DESC_BYTES)
    modifies adapter`tx_head, adapter`irq_count, adapter`completions, adapter.memory
    modifies nic, nic.m_regs, nic.m_regs.m_regs, nic.m_dma
    ensures adapter.Valid() && nic.Valid()
    ensures Tested(old(TxOf(nic.View())), TxOf(nic.View()), old(adapter.memory.mem), old(adapter.tx_head), dma, length)
    ensures tail_before == old(TxOf(nic.View())).ring.tail && tail_after == TxOf(nic.View()).ring.tail
    ensures Bit(Reg(old(nic.View()), 0x008), 2) ==> adapter.completions > old(adapter.completions)
  {
    tail_before := nic.OnMmioRead(SC_REG_TX_TAIL);
    ghost var x0, m, head := TxOf(nic.View()), adapter.memory.mem, adapter.tx_head;
    Post(adapter, nic, dma, length);
    DeviceTurn(nic, x0, m, head, dma, length);
    Handle(adapter, nic);
    tail_after := nic.OnMmioRead(SC_REG_TX_TAIL);
  }
}
