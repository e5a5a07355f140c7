/** Receive delivery over whole runs: what any sequence of incoming frames leaves in a ring that
    smarteth_prepare_rx_buffers has filled. */
module RxDelivery {
  import opened Bits
  import opened GuestMemory
  import opened Protocol
  import opened DmaPath
  import opened RegisterBlock
  import opened Rings
  import opened RingMemory
  import opened SmartNic
  import opened Interrupts

  /** The first k of the frames, delivered one after another. */
  function DeliverFirst(x: Rx, fs: seq<Frame>, k: nat): Rx
    requires k <= |fs|
  {
    if k == 0 then x else Deliver(DeliverFirst(x, fs, k - 1), fs[k - 1])
  }

  function SlotsOf(x: Rx): seq<Desc> { Slots(x.port.mem, x.ring.base, x.ring.size) }

  predicate OffRing(base: nat, size: nat, bufs: seq<u64>, cap: u32) {
    forall i :: 0 <= i < |bufs| ==> Disjoint(bufs[i], cap, base, size * DESC_BYTES)
  }

  predicate Apart(bufs: seq<u64>, cap: u32) {
    forall i, j :: 0 <= i < j < |bufs| ==> Disjoint(bufs[i], cap, bufs[j], cap)
  }

  /** Every slot is handed over with its own buffer of cap bytes, apart from the ring and from the others. */
  predicate Prepared(x: Rx, bufs: seq<u64>, cap: u32) {
    && WellFormed(x.ring) && x.ring.tail == 0 && x.port.faults == [] && cap <= DMA_MAX_BUF
    && |bufs| == x.ring.size
    && (forall i :: 0 <= i < |bufs| ==> SlotsOf(x)[i] == Desc(bufs[i], cap, DESC_OWN))
    && OffRing(x.ring.base, x.ring.size, bufs, cap) && Apart(bufs, cap)
  }

  function Copied(f: Frame, cap: u32): u32 { Min(|f|, cap) }

  /** The descriptor of a slot that received f. */
  function Received(buf: u64, cap: u32, f: Frame): Desc {
    Desc(buf, Copied(f, cap), DESC_DONE)
  }

  /** The first k slots hold the first k frames, the others are still handed over. */
  ghost predicate SlotsFilled(s: seq<Desc>, bufs: seq<u64>, cap: u32, fs: seq<Frame>, k: nat)
    requires |s| == |bufs| && k <= |fs|
  {
    forall i :: 0 <= i < |bufs| ==>
      s[i] == if i < k then Received(bufs[i], cap, fs[i]) else Desc(bufs[i], cap, DESC_OWN)
  }

  /** Buffer i holds frame i, truncated to the buffer. */
  ghost predicate BuffersFilled(m: Memory, bufs: seq<u64>, cap: u32, fs: seq<Frame>, k: nat)
    requires k <= |bufs| && k <= |fs|
  {
    forall i :: 0 <= i < k ==> Fetch(m, bufs[i], Copied(fs[i], cap)) == fs[i][..Copied(fs[i], cap)]
  }

  /** Is a in the filled part of one of the first k buffers? */
  predicate Touched(a: nat, bufs: seq<u64>, cap: u32, fs: seq<Frame>, k: nat)
    requires k <= |bufs| && k <= |fs|
  {
    exists i :: 0 <= i < k && bufs[i] <= a < bufs[i] + Copied(fs[i], cap)
  }

  predicate InRange(a: nat, base: nat, size: nat) { base <= a < base + size * DESC_BYTES }

  /** No byte outside the ring and the filled buffers has changed. */
  ghost predicate RestKept(m: Memory, m': Memory, base: nat, size: nat,
                           bufs: seq<u64>, cap: u32, fs: seq<Frame>, k: nat)
    requires k <= |bufs| && k <= |fs|
  {
    forall a: nat {:trigger Load(m', a)} ::
      !InRange(a, base, size) && !Touched(a, bufs, cap, fs, k) ==> Load(m', a) == Load(m, a)
  }

  /** The state x' that the first k frames leave behind, starting from x. */
  ghost predicate Delivered(x: Rx, x': Rx, bufs: seq<u64>, cap: u32, fs: seq<Frame>, k: nat)
    requires k <= |bufs| == x.ring.size && k <= |fs| && x.ring.size > 0
  {
    && x' == Rx(x.ring.(tail := k % |bufs|), Port(x'.port.mem, []))
    && SlotsFilled(SlotsOf(x'), bufs, cap, fs, k)
    && BuffersFilled(x'.port.mem, bufs, cap, fs, k)
    && RestKept(x.port.mem, x'.port.mem, x.ring.base, x.ring.size, bufs, cap, fs, k)
  }

  /** Guest memory with the frame copied and the descriptor written back. */
  function CopiedMem(x: Rx, d: Desc, f: Frame): Memory {
    Store(x.port.mem, d.addr, f[..Copied(f, d.length)])
  }

  function FilledMem(x: Rx, d: Desc, f: Frame): Memory {
    Store(CopiedMem(x, d, f), SlotAddr(x.ring), EncodeDesc(Completed(d).(length := Copied(f, d.length))))
  }

  lemma FillWrites(x: Rx, d: Desc, f: Frame)
    requires WellFormed(x.ring) && x.port.faults == [] && d.length <= DMA_MAX_BUF
    ensures var n := Copied(f, d.length);
            var p2 := WriteFrom(x.port, d.addr, f[..n]);
            && p2 == Port(CopiedMem(x, d, f), [])
            && WriteFrom(p2, SlotAddr(x.ring), EncodeDesc(Completed(d).(length := n))) == Port(FilledMem(x, d, f), [])
  {
    var n := Copied(f, d.length);
    assert f[..n][..Min(n, DMA_MAX_BUF)] == f[..n];
    TailWritten(Port(CopiedMem(x, d, f), []), x.ring, Completed(d).(length := n));
  }

  lemma FillIs(x: Rx, d: Desc, f: Frame)
    requires WellFormed(x.ring) && x.port.faults == [] && d.length <= DMA_MAX_BUF
    ensures Fill(x, d, f) == Rx(x.ring.(tail := (x.ring.tail + 1) % x.ring.size), Port(FilledMem(x, d, f), []))
  {
    FillWrites(x, d, f);
    NextTailIs(x.ring);
  }

  lemma DeliverIs(x: Rx, d: Desc, f: Frame)
    requires WellFormed(x.ring) && x.port.faults == [] && d == SlotsOf(x)[x.ring.tail] && Own(d)
    ensures Deliver(x, f) == Fill(x, d, f)
  {
    TailSlot(x.port, x.ring);
    assert x.(port := Tick(x.port)) == x;
  }

  /** Only the buffer's filled part changes outside the ring. */
  ghost predicate Wrote(m: Memory, m': Memory, base: nat, size: nat, at: nat, data: seq<u8>) {
    forall a: nat {:trigger Load(m', a)} ::
      !InRange(a, base, size) ==> Load(m', a) == if at <= a < at + |data| then data[a - at] else Load(m, a)
  }

  /** One delivery into a free tail slot whose buffer lies outside the ring. */
  lemma DeliverInto(x: Rx, d: Desc, f: Frame)
    requires WellFormed(x.ring) && x.port.faults == [] && d == SlotsOf(x)[x.ring.tail] && Own(d)
    requires d.length <= DMA_MAX_BUF && Disjoint(d.addr, d.length, x.ring.base, x.ring.size * DESC_BYTES)
    ensures var n := Copied(f, d.length);
            var x' := Deliver(x, f);
            && x' == Rx(x.ring.(tail := (x.ring.tail + 1) % x.ring.size), Port(x'.port.mem, []))
            && SlotsOf(x') == SlotsOf(x)[x.ring.tail := Completed(d).(length := n)]
            && Wrote(x.port.mem, x'.port.mem, x.ring.base, x.ring.size, d.addr, f[..n])
  {
    var n := Copied(f, d.length);
    DeliverIs(x, d, f);
    FillIs(x, d, f);
    SlotsUntouched(x.port.mem, x.ring.base, x.ring.size, d.addr, f[..n]);
    TailWritten(Port(CopiedMem(x, d, f), []), x.ring, Completed(d).(length := n));
  }

  /** A tail slot without OWN drops the frame and leaves everything as it was. */
  lemma DeliverDrops(x: Rx, f: Frame)
    requires WellFormed(x.ring) && x.port.faults == [] && !Own(SlotsOf(x)[x.ring.tail])
    ensures Deliver(x, f) == x
  {
    TailSlot(x.port, x.ring);
  }

  // ---- One more frame, clause by clause ----

  lemma BuffersOneMore(m: Memory, m': Memory, base: nat, size: nat, bufs: seq<u64>, cap: u32, fs: seq<Frame>, k: nat)
    requires k < |bufs| && k < |fs| && BuffersFilled(m, bufs, cap, fs, k)
    requires OffRing(base, size, bufs, cap) && Apart(bufs, cap)
    requires Wrote(m, m', base, size, bufs[k], fs[k][..Copied(fs[k], cap)])
    ensures BuffersFilled(m', bufs, cap, fs, k + 1)
  {
    forall i | 0 <= i < k
      ensures Fetch(m', bufs[i], Copied(fs[i], cap)) == fs[i][..Copied(fs[i], cap)]
    {
      assert Disjoint(bufs[i], cap, bufs[k], cap);
      FetchSame(m, m', bufs[i], Copied(fs[i], cap));
    }
  }

  lemma RestOneMore(m: Memory, m1: Memory, m': Memory, base: nat, size: nat,
                    bufs: seq<u64>, cap: u32, fs: seq<Frame>, k: nat)
    requires k < |bufs| && k < |fs| && RestKept(m, m1, base, size, bufs, cap, fs, k)
    requires Wrote(m1, m', base, size, bufs[k], fs[k][..Copied(fs[k], cap)])
    ensures RestKept(m, m', base, size, bufs, cap, fs, k + 1)
  {
    forall a: nat | Touched(a, bufs, cap, fs, k) ensures Touched(a, bufs, cap, fs, k + 1) {
    }
  }

  /** The next frame goes into the next slot. */
  lemma NextSlotTaken(x: Rx, x1: Rx, d: Desc, k: nat, f: Frame)
    requires WellFormed(x.ring) && k < x.ring.size
    requires d.length <= DMA_MAX_BUF && Disjoint(d.addr, d.length, x.ring.base, x.ring.size * DESC_BYTES)
    requires x1 == Rx(x.ring.(tail := k), Port(x1.port.mem, [])) && SlotsOf(x1)[k] == d && d.flags == DESC_OWN
    ensures var x' := Deliver(x1, f);
            && x' == Rx(x.ring.(tail := (k + 1) % x.ring.size), Port(x'.port.mem, []))
            && SlotsOf(x') == SlotsOf(x1)[k := Received(d.addr, d.length, f)]
            && Wrote(x1.port.mem, x'.port.mem, x.ring.base, x.ring.size, d.addr, f[..Copied(f, d.length)])
  {
    DeliverInto(x1, d, f);
  }

  /** Frame k arriving after the first k, with a slot left for it. */
  lemma DeliveredOneMore(x: Rx, x1: Rx, bufs: seq<u64>, cap: u32, fs: seq<Frame>, k: nat)
    requires Prepared(x, bufs, cap) && k < |bufs| && k < |fs| && Delivered(x, x1, bufs, cap, fs, k)
    ensures Delivered(x, Deliver(x1, fs[k]), bufs, cap, fs, k + 1)
  {
    var x' := Deliver(x1, fs[k]);
    WrapMod(k, |bufs|);
    NextSlotTaken(x, x1, Desc(bufs[k], cap, DESC_OWN), k, fs[k]);
    BuffersOneMore(x1.port.mem, x'.port.mem, x.ring.base, x.ring.size, bufs, cap, fs, k);
    RestOneMore(x.port.mem, x1.port.mem, x'.port.mem, x.ring.base, x.ring.size, bufs, cap, fs, k);
  }

  /** Once every slot has been used, a further frame is dropped. */
  lemma DeliveredFull(x: Rx, x1: Rx, bufs: seq<u64>, cap: u32, fs: seq<Frame>, f: Frame)
    requires Prepared(x, bufs, cap) && |bufs| <= |fs| && Delivered(x, x1, bufs, cap, fs, |bufs|)
    ensures Deliver(x1, f) == x1
  {
    WrapMod(|bufs|, |bufs|);
    DeliverDrops(x1, f);
  }

  /** From a prepared ring, the first frames are delivered in order, one to a slot. */
  lemma {:induction false} DeliversUpToFull(x: Rx, bufs: seq<u64>, cap: u32, fs: seq<Frame>, k: nat)
    requires Prepared(x, bufs, cap) && k <= |fs| && k <= |bufs|
    ensures Delivered(x, DeliverFirst(x, fs, k), bufs, cap, fs, k)
  {
    if k == 0 {
      WrapMod(0, |bufs|);
    } else {
      DeliversUpToFull(x, bufs, cap, fs, k - 1);
      DeliveredOneMore(x, DeliverFirst(x, fs, k - 1), bufs, cap, fs, k - 1);
    }
  }

  lemma FullRingDrops(x: Rx, bufs: seq<u64>, cap: u32, fs: seq<Frame>, f: Frame)
    requires Prepared(x, bufs, cap) && |bufs| <= |fs|
    ensures Deliver(DeliverFirst(x, fs, |bufs|), f) == DeliverFirst(x, fs, |bufs|)
  {
    DeliversUpToFull(x, bufs, cap, fs, |bufs|);
    DeliveredFull(x, DeliverFirst(x, fs, |bufs|), bufs, cap, fs, f);
  }

  /** Every later frame is dropped without a trace. */
  lemma {:induction false} DropsWhenFull(x: Rx, bufs: seq<u64>, cap: u32, fs: seq<Frame>, k: nat)
    requires Prepared(x, bufs, cap) && |bufs| <= k <= |fs|
    ensures DeliverFirst(x, fs, k) == DeliverFirst(x, fs, |bufs|)
  {
    if k > |bufs| {
      DropsWhenFull(x, bufs, cap, fs, k - 1);
      FullRingDrops(x, bufs, cap, fs, fs[k - 1]);
    }
  }

  /** So whatever arrives, the ring ends up with the first frames, as many as it has slots. */
  lemma WholeRun(x: Rx, bufs: seq<u64>, cap: u32, fs: seq<Frame>)
    requires Prepared(x, bufs, cap)
    ensures Delivered(x, DeliverFirst(x, fs, |fs|), bufs, cap, fs, Min(|fs|, |bufs|))
  {
    DeliversUpToFull(x, bufs, cap, fs, Min(|fs|, |bufs|));
    if |fs| > |bufs| { DropsWhenFull(x, bufs, cap, fs, |fs|); }
  }

  // ---- The whole device ----

  function ReceiveFirst(n: Nic, fs: seq<Frame>, k: nat): Nic
    requires k <= |fs|
  {
    if k == 0 then n else RxPacket(ReceiveFirst(n, fs, k - 1), fs[k - 1])
  }

  /** Does the filter want f, with lo in MAC_LO and hi in MAC_HI? Group addresses have the lowest bit of their first
      byte set; otherwise the destination must be the address, highest byte of lo first. */
  predicate Wanted(lo: u32, hi: u32, f: Frame) {
    && |f| >= 14
    && (f[0] % 2 == 1
        || (&& f[0] == lo / 0x100_0000 % 0x100 && f[1] == lo / 0x1_0000 % 0x100
            && f[2] == lo / 0x100 % 0x100 && f[3] == lo % 0x100
            && f[4] == hi / 0x100 % 0x100 && f[5] == hi % 0x100))
  }

  lemma AcceptsWanted(regs: Regs, f: Frame)
    ensures Accepts(regs, f) <==> Wanted(Get(regs, 0x010), Get(regs, 0x014), f)
  {
    var mac := FilterMac(regs);
    if |f| >= 14 && (forall i :: 0 <= i < 6 ==> f[i] == mac[i]) { assert f[..6] == mac; }
  }

  /** f has gone into the buffer of descriptor d at the tail slot, cut to the buffer: the descriptor is handed back
      with the number of bytes as its length, the tail has moved on, and no other byte or descriptor has changed. */
  ghost predicate Taken(x: Rx, x': Rx, d: Desc, f: Frame)
    requires x.ring.tail < x.ring.size
  {
    var n := if |f| < d.length then |f| else d.length;
    && Fetch(x'.port.mem, d.addr, n) == f[..n]
    && x'.ring == x.ring.(tail := (x.ring.tail + 1) % x.ring.size)
    && WrittenBack(d.(length := n), SlotsOf(x')[x.ring.tail])
    && SlotsOf(x') == SlotsOf(x)[x.ring.tail := SlotsOf(x')[x.ring.tail]]
    && (forall a: nat {:trigger Load(x'.port.mem, a)} ::
          !InRange(a, x.ring.base, x.ring.size) && !(d.addr <= a < d.addr + n) ==>
            Load(x'.port.mem, a) == Load(x.port.mem, a))
  }

  lemma DeliverTakes(x: Rx, d: Desc, f: Frame)
    requires WellFormed(x.ring) && x.port.faults == [] && d == SlotsOf(x)[x.ring.tail] && Own(d)
    requires d.length <= DMA_MAX_BUF && Disjoint(d.addr, d.length, x.ring.base, x.ring.size * DESC_BYTES)
    ensures Taken(x, Deliver(x, f), d, f) && Delivers(x)
  {
    var n := Copied(f, d.length);
    DeliverInto(x, d, f);
    CompletedExact(d.(length := n));
    TailSlot(x.port, x.ring);
    assert Fetch(Deliver(x, f).port.mem, d.addr, n) == f[..n];
  }

  /** One packet meets a device whose tail slot is handed over: it is taken exactly when it has 14 bytes and is
      addressed to a group or to the address in the MAC registers, and RX (bit 3, vector 1) is then raised if
      enabled; otherwise nothing changes. */
  lemma PacketExact(n: Nic, d: Desc, f: Frame)
    requires var x := RxOf(n);
             && WellFormed(x.ring) && x.port.faults == [] && d == SlotsOf(x)[x.ring.tail] && Own(d)
             && d.length <= DMA_MAX_BUF && Disjoint(d.addr, d.length, x.ring.base, x.ring.size * DESC_BYTES)
    ensures var lo, hi, n' := Reg(n, 0x010), Reg(n, 0x014), RxPacket(n, f);
            && (Taken(RxOf(n), RxOf(n'), d, f) <==> Wanted(lo, hi, f))
            && (Wanted(lo, hi, f) ==>
                  var n1 := PutRx(n, RxOf(n'));
                  if Bit(Reg(n, 0x008), 3) then Interrupted(n1, n', 3, 1) else n' == n1)
            && (!Wanted(lo, hi, f) ==> n' == n)
  {
    AcceptsWanted(n.rb.regs, f);
    if Accepts(n.rb.regs, f) {
      DeliverTakes(RxOf(n), d, f);
      PacketOnRing(n, f);
      RxDoneInterrupts(PutRx(n, Deliver(RxOf(n), f)));
    }
  }

  /** The frames the filter wants, in order. */
  function Passing(lo: u32, hi: u32, fs: seq<Frame>): seq<Frame> {
    if |fs| == 0 then []
    else Passing(lo, hi, fs[..|fs| - 1]) + (if Wanted(lo, hi, fs[|fs| - 1]) then [fs[|fs| - 1]] else [])
  }

  /** The address registers are the same. */
  predicate SameMac(n: Nic, n': Nic) { Reg(n', 0x010) == Reg(n, 0x010) && Reg(n', 0x014) == Reg(n, 0x014) }

  /** The filter and the interrupt bookkeeping do not interfere with delivery: the ring sees exactly
      the frames that pass, judged by the MAC address programmed at the start. */
  lemma {:induction false} DeviceDelivers(n: Nic, fs: seq<Frame>, k: nat)
    requires k <= |fs|
    ensures var passed := Passing(Reg(n, 0x010), Reg(n, 0x014), fs[..k]);
            RxOf(ReceiveFirst(n, fs, k)) == DeliverFirst(RxOf(n), passed, |passed|)
    ensures SameMac(n, ReceiveFirst(n, fs, k))
  {
    if k > 0 {
      var lo, hi := Reg(n, 0x010), Reg(n, 0x014);
      DeviceDelivers(n, fs, k - 1);
      assert fs[..k][..k - 1] == fs[..k - 1];
      DeliversNext(n, ReceiveFirst(n, fs, k - 1), Passing(lo, hi, fs[..k - 1]), fs[k - 1]);
    }
  }

  /** One more frame on the device. */
  lemma DeliversNext(n: Nic, n1: Nic, before: seq<Frame>, f: Frame)
    requires RxOf(n1) == DeliverFirst(RxOf(n), before, |before|) && SameMac(n, n1)
    ensures var after := before + if Wanted(Reg(n, 0x010), Reg(n, 0x014), f) then [f] else [];
            RxOf(RxPacket(n1, f)) == DeliverFirst(RxOf(n), after, |after|)
    ensures SameMac(n, RxPacket(n1, f))
  {
    AcceptsWanted(n1.rb.regs, f);
    if Accepts(n1.rb.regs, f) {
      PacketOnRing(n1, f);
      SamePrefix(RxOf(n), before, before + [f], |before|);
    } else {
      assert before + [] == before;
    }
  }

  lemma {:induction false} SamePrefix(x: Rx, fs: seq<Frame>, fs': seq<Frame>, k: nat)
    requires fs <= fs' && k <= |fs|
    ensures DeliverFirst(x, fs, k) == DeliverFirst(x, fs', k)
  {
    if k > 0 { SamePrefix(x, fs, fs', k - 1); }
  }

  lemma PacketOnRing(n: Nic, f: Frame)
    requires Accepts(n.rb.regs, f)
    ensures RxOf(RxPacket(n, f)) == Deliver(RxOf(n), f) && SameMac(n, RxPacket(n, f))
  {
    var x' := Deliver(RxOf(n), f);
    assert x'.ring.base == RxOf(n).ring.base && x'.ring.size == RxOf(n).ring.size;
    assert RxOf(PutRx(n, x')) == x';
  }

  /** So any packets into a device with a prepared ring leave there the first of the wanted ones, one to a slot, as
      many as it has slots, and nothing of the others. */
  lemma DeviceRun(n: Nic, bufs: seq<u64>, cap: u32, fs: seq<Frame>)
    requires Prepared(RxOf(n), bufs, cap)
    ensures var wanted := Passing(Reg(n, 0x010), Reg(n, 0x014), fs);
            Delivered(RxOf(n), RxOf(ReceiveFirst(n, fs, |fs|)), bufs, cap, wanted, Min(|wanted|, |bufs|))
  {
    DeviceDelivers(n, fs, |fs|);
    assert fs[..|fs|] == fs;
    WholeRun(RxOf(n), bufs, cap, Passing(Reg(n, 0x010), Reg(n, 0x014), fs));
  }
}
